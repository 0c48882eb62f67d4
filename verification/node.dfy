/** One protocol node with its mutable objects. Every method is tied to the value model of
    `Protocol`: the state it leaves is the one the model prescribes for some allowed choice. */
module TssNode {
  import opened Types
  import opened Votes
  import opened Protocol
  import P = Protocol
  import opened Managers
  import W = Workers

  /** Caches an unconfirmed broadcast and the hashes the peers reported for it. */
  class LocalCacheItem {
    var Msg: Option<WireMessage>
    var Hash: Hash
    var ConfirmedList: Ballots

    ghost function Value(): Item
      reads this
    {
      Item(Msg, Hash, ConfirmedList)
    }

    constructor (msg: Option<WireMessage>, hash: Hash)
      ensures Value() == Item(msg, hash, map[])
    {
      Msg, Hash, ConfirmedList := msg, hash, map[];
    }

    method UpdateConfirmList(p2pID: PeerId, hash: Hash)
      modifies this`ConfirmedList
      ensures ConfirmedList == old(ConfirmedList)[p2pID := hash]
    {
      ConfirmedList := ConfirmedList[p2pID := hash];
    }

    method TotalConfirmParty() returns (n: nat)
      ensures n == |ConfirmedList|
    {
      n := |ConfirmedList|;
    }
  }

  /** Runs the jobs of one bulk message against the local parties. */
  class JobRunner {
    const b: W.Bulk
    const blameMgr: Manager
    var next: nat
    var failed: bool
    var queue: seq<W.Job>
    ghost var applied: multiset<W.Share>
    ghost var start: W.Pool
    ghost var actions: seq<W.Action>

    ghost function Pool(): W.Pool
      reads this, blameMgr
    {
      W.Pool(next, failed, queue, blameMgr.acceptedShares, applied)
    }

    /** The steps taken so far are a schedule of the pool. */
    ghost predicate Valid()
      reads this, blameMgr
    {
      next <= |b.rounds| && W.Run(b, start, actions, Pool())
    }

    constructor (b: W.Bulk, blameMgr: Manager, ghost applied: multiset<W.Share>)
      ensures Valid() && this.b == b && this.blameMgr == blameMgr
      ensures start == W.Start(blameMgr.acceptedShares, applied)
      ensures queue == [] && !failed && next == 0
    {
      this.b, this.blameMgr := b, blameMgr;
      next, failed, queue := 0, false, [];
      this.applied, start, actions := applied, W.Start(blameMgr.acceptedShares, applied), [];
    }

    /** A worker takes any queued job, hands it to the library and records it when accepted. */
    method DoTssJob()
      requires Valid() && queue != []
      modifies this, blameMgr`acceptedShares
      ensures Valid() && start == old(start)
      ensures next == old(next) && failed == old(failed) && |queue| == |old(queue)| - 1
    {
      var k: nat :| k < |queue|;
      var job := queue[k];
      ghost var before := Pool();
      queue := queue[..k] + queue[k + 1..];
      if b.ok(job.index) {
        applied := applied + multiset{W.Share(job.round, b.from)};
        blameMgr.UpdateAcceptShare(job.round, b.from);
      }
      assert Pool() == W.FinishJob(b, before, k);
      W.RunExtend(b, start, actions, before, W.Finish(k));
      actions := actions + [W.Finish(k)];
    }

    /** The dispatcher looks at the next entry of the bulk. */
    method Scan()
      requires Valid() && !failed && next < |b.rounds|
      modifies this
      ensures Valid() && start == old(start)
      ensures failed || next == old(next) + 1
    {
      ghost var before := Pool();
      match b.rounds[next] {
        case None => failed := true;
        case Some(round) =>
          var dup := blameMgr.CheckMsgDuplication(round, b.from);
          if !dup {
            queue := queue + [W.Job(next, round)];
          }
          next := next + 1;
      }
      assert Pool() == W.ScanNext(b, before);
      W.RunExtend(b, start, actions, before, W.Scan);
      actions := actions + [W.Scan];
    }

    /** Workers run while the dispatcher scans, and drain the queue afterwards. */
    method RunAll()
      requires Valid() && queue == [] && !failed && next == 0
      modifies this, blameMgr`acceptedShares
      ensures Valid() && start == old(start) && W.Terminal(b, Pool())
    {
      while !failed && next < |b.rounds|
        invariant Valid() && start == old(start)
        decreases if failed then 0 else |b.rounds| - next + 1
      {
        label Iter:
        var busy: nat :| busy <= |queue|;
        while busy > 0
          invariant Valid() && start == old(start) && busy <= |queue|
          invariant !failed && next < |b.rounds| && next == old@Iter(next)
          decreases busy
        {
          DoTssJob();
          busy := busy - 1;
        }
        Scan();
      }
      while queue != []
        invariant Valid() && start == old(start) && (failed || next == |b.rounds|)
        decreases |queue|
      {
        DoTssJob();
      }
    }
  }

  class TssCommon {
    const env: Env
    const blameMgr: Manager
    var unConfirmedMessages: map<Key, LocalCacheItem>
    var finishedPeers: set<PeerId>
    var taskDoneCloses: nat
    var blamed: seq<PartyId>
    var broadcasts: seq<Outbound>
    ghost var applied: multiset<W.Share>
    ghost var log: seq<Acceptance>

    ghost function Items(): map<Key, Item>
      reads this`unConfirmedMessages, unConfirmedMessages.Values
    {
      map k | k in unConfirmedMessages :: unConfirmedMessages[k].Value()
    }

    ghost function State(): Node
      reads this, blameMgr, blameMgr.roundMgr, blameMgr.shareMgr, unConfirmedMessages.Values
    {
      Node(Items(), blameMgr.roundMgr.storedMsg, blameMgr.shareMgr.requested, blameMgr.acceptedShares, applied,
           blameMgr.lastUnicastPeer, blamed, finishedPeers, taskDoneCloses, broadcasts, log)
    }

    /** Each key has its own cache item. */
    ghost predicate Separate()
      reads this`unConfirmedMessages
    {
      forall k, l :: k in unConfirmedMessages && l in unConfirmedMessages && k != l ==>
        unConfirmedMessages[k] != unConfirmedMessages[l]
    }

    ghost predicate Valid()
      reads this, blameMgr, blameMgr.roundMgr, blameMgr.shareMgr, unConfirmedMessages.Values
    {
      Separate() && MessagesKnown(env, State())
    }

    constructor (env: Env, pubKeys: map<PartyId, string>, localPartyID: PartyId)
      ensures Valid() && this.env == env && State() == FRESH
      ensures fresh(blameMgr) && fresh(blameMgr.roundMgr) && fresh(blameMgr.shareMgr)
    {
      this.env := env;
      blameMgr := new Manager(pubKeys, env.parties, localPartyID);
      unConfirmedMessages, finishedPeers, taskDoneCloses, blamed, broadcasts := map[], {}, 0, [], [];
      applied, log := multiset{}, [];
    }

    method RenderToP2P(out: Outbound)
      modifies this`broadcasts
      ensures broadcasts == old(broadcasts) + [out]
    {
      broadcasts := broadcasts + [out];
    }

    /** Hands every entry of a bulk to the workers and waits for them. */
    method RunBulk(from: PartyId, bulkMsg: seq<BulkEntry>, lib: nat -> bool) returns (ok: bool, ghost pool: W.Pool)
      modifies this`applied, blameMgr`acceptedShares
      ensures W.Outcome(BulkOf(env, from, bulkMsg, lib), old(blameMgr.acceptedShares), old(applied), pool)
      ensures blameMgr.acceptedShares == pool.accepted && applied == pool.applied && ok == !pool.failed
    {
      var runner := new JobRunner(BulkOf(env, from, bulkMsg, lib), blameMgr, applied);
      runner.RunAll();
      pool := runner.Pool();
      applied := runner.applied;
      ok := !runner.failed;
    }

    /** Applies the entries of a bulk message to the local parties. */
    method UpdateLocal(wireMsg: WireMessage, lib: nat -> bool) returns (ok: bool, ghost c: Choices)
      requires wireMsg.from in env.parties
      modifies this`applied, blameMgr`lastUnicastPeer, blameMgr`acceptedShares
      ensures PoolFits(env, old(State()), wireMsg, lib, c)
      ensures State() == P.UpdateLocal(env, old(State()), wireMsg, c).node
      ensures ok == P.UpdateLocal(env, old(State()), wireMsg, c).ok
    {
      c := Choices("", "", W.Start(map[], multiset{}));
      if !wireMsg.isBroadcast {
        blameMgr.SetLastUnicastPeer(env.parties[wireMsg.from], wireMsg.roundInfo);
      }
      var parsed := env.parse(wireMsg.message);
      if parsed.None? {
        return false, c;
      }
      ghost var pool;
      ok, pool := RunBulk(wireMsg.from, parsed.value, lib);
      c := Choices("", "", pool);
    }

    // ---------------------------------------------------------- the hash check

    method GetMsgHash(item: LocalCacheItem, threshold: int) returns (verdict: Verdict, hash: Hash, ghost pick: Hash)
      ensures item.ConfirmedList != map[] ==> IsMode(item.ConfirmedList, pick)
      ensures (verdict, hash) == MsgHash(item.ConfirmedList, threshold, pick)
      ensures verdict == HashCheckError <==> item.ConfirmedList == map[]
      ensures verdict == Passed ==>
        IsMode(item.ConfirmedList, hash) && Count(item.ConfirmedList, hash) >= threshold - 1
      ensures verdict == HashInconsistency ==> forall h :: h in item.ConfirmedList.Values ==>
        Count(item.ConfirmedList, h) < threshold - 1
    {
      var ok, data, freq := GetHighestFreq(item.ConfirmedList);
      pick := data;
      if !ok {
        return HashCheckError, "", pick;
      }
      if freq < threshold - 1 {
        return HashInconsistency, "", pick;
      }
      return Passed, data, pick;
    }

    method HashCheck(item: LocalCacheItem, threshold: int) returns (verdict: Verdict, ghost pick: Hash)
      requires item.Msg.Some? && item.Msg.value.from in env.parties
      modifies item`ConfirmedList
      ensures old(item.ConfirmedList) != map[] ==> IsMode(old(item.ConfirmedList), pick)
      ensures (item.Value(), verdict)
        == P.HashCheck(old(item.Value()), env.parties[item.Msg.value.from], threshold, pick)
    {
      var dataOwnerP2PID := env.parties[item.Msg.value.from];
      pick := "";
      if item.ConfirmedList != map[] {
        pick := ModeExists(item.ConfirmedList);
      }
      var total := item.TotalConfirmParty();
      if total < threshold {
        return NotEnoughPeer, pick;
      }
      if dataOwnerP2PID in item.ConfirmedList {
        item.ConfirmedList := item.ConfirmedList - {dataOwnerP2PID};
        return HashFromOwner, pick;
      }
      var v, hash;
      v, hash, pick := GetMsgHash(item, threshold);
      if v != Passed {
        return v, pick;
      }
      if item.Hash == hash {
        return Passed, pick;
      }
      return NotMajority, pick;
    }

    method PeersThatConfirmed(item: LocalCacheItem, targetHash: Hash) returns (peersIDs: set<PeerId>)
      ensures peersIDs == Voters(item.ConfirmedList, targetHash)
    {
      peersIDs := {};
      var todo := item.ConfirmedList.Keys;
      while todo != {}
        invariant todo <= item.ConfirmedList.Keys
        invariant peersIDs == Voters(item.ConfirmedList, targetHash) - todo
        decreases todo
      {
        var peer :| peer in todo;
        if item.ConfirmedList[peer] == targetHash {
          peersIDs := peersIDs + {peer};
        }
        todo := todo - {peer};
      }
    }

    /** Remember the hash we ask for, and ask the peers that confirmed it for the message. */
    method RequestShareFromPeer(item: LocalCacheItem, threshold: int, key: Key, msgType: MessageType)
        returns (ghost pick: Hash)
      requires key in unConfirmedMessages && unConfirmedMessages[key] == item
      modifies this`broadcasts, blameMgr.shareMgr
      ensures item.ConfirmedList != map[] ==> IsMode(item.ConfirmedList, pick)
      ensures State() == RequestShare(old(State()), threshold, key, msgType, pick)
    {
      var verdict, targetHash;
      verdict, targetHash, pick := GetMsgHash(item, threshold);
      if verdict != Passed {
        return;
      }
      var peersIDs := PeersThatConfirmed(item, targetHash);
      NoteRequested(targetHash);
      AskPeers(key, targetHash, msgType, peersIDs);
    }

    method NoteRequested(hash: Hash)
      modifies blameMgr.shareMgr
      ensures State() == old(State()).(requested := old(State()).requested + {hash})
    {
      blameMgr.shareMgr.Set(hash);
    }

    method AskPeers(key: Key, hash: Hash, msgType: MessageType, peersIDs: set<PeerId>)
      modifies this`broadcasts
      ensures State() == old(State()).(outbox := Asked(old(State()).outbox, key, hash, msgType, peersIDs))
    {
      if msgType == TSSKeyGenVerMsg {
        RenderToP2P(ShareRequest(TSSKeyGenMsg, key, hash, peersIDs));
      } else if msgType == TSSKeySignVerMsg {
        RenderToP2P(ShareRequest(TSSKeySignMsg, key, hash, peersIDs));
      } else if msgType == TSSKeySignMsg || msgType == TSSKeyGenMsg {
        RenderToP2P(ShareRequest(msgType, key, hash, peersIDs));
      }
    }

    /** A minority copy is dropped and the copy of the majority is requested. */
    method DropMinority(item: LocalCacheItem, threshold: int, key: Key, msgType: MessageType) returns (ghost pick: Hash)
      requires Separate() && key in unConfirmedMessages && unConfirmedMessages[key] == item
      modifies this`broadcasts, blameMgr.shareMgr, item`Msg
      ensures item.ConfirmedList != map[] ==> IsMode(item.ConfirmedList, pick)
      ensures State() == RequestShare(PutItem(old(State()), key, old(State()).unconfirmed[key].(msg := None)),
                                      threshold, key, msgType, pick)
    {
      item.Msg := None;
      assert Items() == old(Items())[key := item.Value()];
      pick := RequestShareFromPeer(item, threshold, key, msgType);
    }

    method StoreConfirmed(wireMsg: WireMessage, key: Key)
      requires key in unConfirmedMessages
      modifies this`log, blameMgr.roundMgr
      ensures State() == Confirm(old(State()), key, wireMsg)
    {
      log := log + [Acceptance(key, wireMsg, unConfirmedMessages[key].ConfirmedList)];
      blameMgr.roundMgr.Set(key, wireMsg);
    }

    method RemoveKey(key: Key)
      modifies this`unConfirmedMessages
      ensures unConfirmedMessages == old(unConfirmedMessages) - {key}
      ensures State() == P.RemoveKey(old(State()), key)
    {
      unConfirmedMessages := unConfirmedMessages - {key};
      assert Items() == old(Items()) - {key};
    }

    /** A confirmed message is stored, handed to the local parties and, if that went well, forgotten. */
    method TakeShare(wireMsg: WireMessage, key: Key, lib: nat -> bool) returns (ok: bool, ghost c: Choices)
      requires key in unConfirmedMessages && wireMsg.from in env.parties
      modifies this`unConfirmedMessages, this`applied, this`log, blameMgr, blameMgr.roundMgr
      ensures PoolFits(env, old(State()), wireMsg, lib, Choices("", "", c.pool))
      ensures var r := P.UpdateLocal(env, Confirm(old(State()), key, wireMsg), wireMsg, c);
        ok == r.ok && State() == if ok then P.RemoveKey(r.node, key) else r.node
      ensures unConfirmedMessages == if ok then old(unConfirmedMessages) - {key} else old(unConfirmedMessages)
    {
      StoreConfirmed(wireMsg, key);
      ok, c := UpdateLocal(wireMsg, lib);
      if ok {
        RemoveKey(key);
      }
    }

    method BlameOwner(owner: PartyId)
      modifies this`blamed
      ensures State() == old(State()).(blamed := old(State()).blamed + [owner])
    {
      blamed := blamed + [owner];
    }

    /** Some allowed choices, for the branches that are not taken. */
    ghost method SomeChoices(key: Key, lib: nat -> bool) returns (c: Choices)
      requires key in State().unconfirmed
      ensures ChoicesFit(env, State(), key, lib, c)
    {
      var item := State().unconfirmed[key];
      var h := "";
      if item.confirmed != map[] {
        h := ModeExists(item.confirmed);
      }
      var pool := W.Start(map[], multiset{});
      if item.msg.Some? && env.parse(item.msg.value.message).Some? {
        var entries := env.parse(item.msg.value.message).value;
        pool := W.OutcomeExists(BulkOf(env, item.msg.value.from, entries, lib), blameMgr.acceptedShares, applied);
      }
      c := Choices(h, h, pool);
    }

    /** The hash check as a step of the node. */
    method CheckCached(item: LocalCacheItem, threshold: int, key: Key) returns (verdict: Verdict, ghost pick: Hash)
      requires Separate() && key in unConfirmedMessages && unConfirmedMessages[key] == item
      requires item.Msg.Some? && item.Msg.value.from in env.parties
      modifies item`ConfirmedList
      ensures var i := old(State()).unconfirmed[key];
        && (i.confirmed != map[] ==> IsMode(i.confirmed, pick))
        && verdict == P.HashCheck(i, env.parties[item.Msg.value.from], threshold, pick).1
        && State() == PutItem(old(State()), key, P.HashCheck(i, env.parties[item.Msg.value.from], threshold, pick).0)
    {
      verdict, pick := HashCheck(item, threshold);
      assert Items() == old(Items())[key := item.Value()];
    }

    /** The hash check, with allowed choices for everything that may follow. */
    method CheckAndChoose(item: LocalCacheItem, threshold: int, key: Key, lib: nat -> bool)
        returns (verdict: Verdict, ghost c: Choices)
      requires Valid() && threshold == Quorum(env)
      requires key in unConfirmedMessages && unConfirmedMessages[key] == item && item.Msg.Some?
      modifies item`ConfirmedList
      ensures unchanged(item`Msg) && Some(item.Msg.value) == old(State()).unconfirmed[key].msg
      ensures item.Msg.value.from in env.parties
      ensures ChoicesFit(env, old(State()), key, lib, c)
      ensures verdict == P.HashCheck(old(State()).unconfirmed[key], env.parties[item.Msg.value.from], threshold,
                            c.first).1
      ensures State() == PutItem(old(State()), key,
        P.HashCheck(old(State()).unconfirmed[key], env.parties[item.Msg.value.from], threshold, c.first).0)
      ensures item.Value() == State().unconfirmed[key]
    {
      ghost var before := State();
      assert item.Value() == before.unconfirmed[key];
      c := SomeChoices(key, lib);
      ghost var pick;
      verdict, pick := CheckCached(item, threshold, key);
      FitFirst(env, before, key, lib, c, pick);
      c := c.(first := pick);
    }

    /** What follows the hash check, by verdict. */
    method Conclude(item: LocalCacheItem, wireMsg: WireMessage, threshold: int, key: Key, msgType: MessageType,
                    lib: nat -> bool, verdict: Verdict, ghost c0: Choices) returns (ok: bool, ghost c: Choices)
      requires Separate() && threshold == Quorum(env) && wireMsg.from in env.parties
      requires key in unConfirmedMessages && unConfirmedMessages[key] == item
      modifies this`unConfirmedMessages, this`blamed, this`broadcasts, this`applied, this`log
      modifies blameMgr, blameMgr.roundMgr, blameMgr.shareMgr, item`Msg
      ensures Separate() && unConfirmedMessages.Values <= old(unConfirmedMessages.Values)
      ensures Result(State(), ok) == P.Conclude(env, old(State()), key, wireMsg, msgType, verdict, c)
      ensures c.first == c0.first
      ensures if verdict == NotMajority then item.ConfirmedList != map[] ==> IsMode(item.ConfirmedList, c.second)
              else c.second == c0.second
      ensures if verdict == Passed then PoolFits(env, old(State()), wireMsg, lib, Choices("", "", c.pool))
              else c.pool == c0.pool
    {
      c, ok := c0, true;
      if verdict == NotEnoughPeer {
      } else if verdict == NotMajority {
        ghost var pick := DropMinority(item, threshold, key, msgType);
        c := c.(second := pick);
      } else if verdict == Passed {
        ghost var d;
        ok, d := TakeShare(wireMsg, key, lib);
        c := c.(pool := d.pool);
      } else {
        BlameOwner(wireMsg.from);
        ok := false;
      }
    }

    /** Applies the cached message if the confirmations allow it. */
    method ApplyShare(item: LocalCacheItem, threshold: int, key: Key, msgType: MessageType, lib: nat -> bool)
        returns (ok: bool, ghost c: Choices)
      requires Valid() && threshold == Quorum(env)
      requires key in unConfirmedMessages && unConfirmedMessages[key] == item && item.Msg.Some?
      modifies this`unConfirmedMessages, this`blamed, this`broadcasts, this`applied, this`log
      modifies blameMgr, blameMgr.roundMgr, blameMgr.shareMgr, item
      ensures Valid() && ChoicesFit(env, old(State()), key, lib, c)
      ensures Result(State(), ok) == P.ApplyShare(env, old(State()), key, msgType, c)
      ensures unConfirmedMessages.Values <= old(unConfirmedMessages.Values)
    {
      ghost var before := State();
      ghost var c0;
      var wireMsg := item.Msg.value;
      var verdict;
      verdict, c0 := CheckAndChoose(item, threshold, key, lib);
      ghost var checked := State();
      ok, c := Conclude(item, wireMsg, threshold, key, msgType, lib, verdict, c0);
      FitConclude(env, before, checked, key, wireMsg, verdict, lib, c0, c);
      ApplyKeepsKnown(env, before, key, msgType, c);
    }

    // ---------------------------------------------------------- the handlers

    /** The cache item of a key; a new one is added when there is none. */
    method ItemFor(key: Key, msg: Option<WireMessage>, hash: Hash) returns (item: LocalCacheItem)
      requires Valid()
      modifies this`unConfirmedMessages
      ensures Separate() && key in unConfirmedMessages && unConfirmedMessages[key] == item
      ensures fresh(unConfirmedMessages.Values - old(unConfirmedMessages.Values))
      ensures State() == PutItem(old(State()), key, ItemOr(old(State()), key, Item(msg, hash, map[])))
    {
      if key in unConfirmedMessages {
        item := unConfirmedMessages[key];
      } else {
        item := new LocalCacheItem(msg, hash);
        unConfirmedMessages := unConfirmedMessages[key := item];
      }
      assert Items() == old(Items())[key := ItemOr(old(State()), key, Item(msg, hash, map[]))];
    }

    method Vote(item: LocalCacheItem, key: Key, peer: PeerId, hash: Hash)
      requires Separate() && key in unConfirmedMessages && unConfirmedMessages[key] == item
      modifies item`ConfirmedList
      ensures var i := old(State()).unconfirmed[key];
        State() == PutItem(old(State()), key, i.(confirmed := i.confirmed[peer := hash]))
    {
      item.UpdateConfirmList(peer, hash);
      assert Items() == old(Items())[key := item.Value()];
    }

    method Fill(item: LocalCacheItem, key: Key, wireMsg: WireMessage, hash: Hash)
      requires Separate() && key in unConfirmedMessages && unConfirmedMessages[key] == item
      modifies item`Msg, item`Hash
      ensures State() == PutItem(old(State()), key, old(State()).unconfirmed[key].(msg := Some(wireMsg), hash := hash))
    {
      item.Msg, item.Hash := Some(wireMsg), hash;
      assert Items() == old(Items())[key := item.Value()];
    }

    method RecordVote(key: Key, peer: PeerId, hash: Hash) returns (item: LocalCacheItem)
      requires Valid()
      modifies this`unConfirmedMessages, unConfirmedMessages.Values
      ensures Valid() && key in unConfirmedMessages && unConfirmedMessages[key] == item
      ensures fresh(unConfirmedMessages.Values - old(unConfirmedMessages.Values))
      ensures State() == AfterVote(old(State()), key, peer, hash)
    {
      ghost var before := State();
      item := ItemFor(key, None, hash);
      Vote(item, key, peer, hash);
      PutTwice(before, key, ItemOr(before, key, Item(None, hash, map[])), State().unconfirmed[key]);
      VoteKeepsKnown(env, before, key, peer, hash);
    }

    method CheckDupAndUpdateVerMsg(key: Key, peer: PeerId) returns (isNew: bool)
      ensures isNew <==> !AlreadyVoted(State(), key, peer)
    {
      if key !in unConfirmedMessages {
        return true;
      }
      return peer !in unConfirmedMessages[key].ConfirmedList;
    }

    method ProcessVerMsg(peer: PeerId, key: Key, hash: Hash, msgType: MessageType, lib: nat -> bool)
        returns (ok: bool, ghost c: Choices)
      requires Valid()
      modifies this, blameMgr, blameMgr.roundMgr, blameMgr.shareMgr, unConfirmedMessages.Values
      ensures Valid() && fresh(unConfirmedMessages.Values - old(unConfirmedMessages.Values))
      ensures ChoicesFit(env, AfterVote(old(State()), key, peer, hash), key, lib, c)
      ensures Result(State(), ok) == P.ProcessVerMsg(env, old(State()), peer, key, hash, msgType, c)
    {
      var item := RecordVote(key, peer, hash);
      ok, c := ApplyOrRequest(item, key, msgType, lib);
    }

    /** Tell everyone but the sender which copy of its message we hold. */
    method ReceiverBroadcastHashToPeers(wireMsg: WireMessage, msgType: MessageType)
      requires wireMsg.from in env.parties
      modifies this`broadcasts
      ensures State() == TellPeers(env, old(State()), wireMsg, msgType)
    {
      var peerIDs := env.parties.Values - {env.localPeer} - {env.parties[wireMsg.from]};
      if peerIDs != {} {
        RenderToP2P(VerHash(VerTypeOf(msgType), CacheKey(wireMsg), env.hash(wireMsg.message), peerIDs));
      }
    }

    /** Caches a verified broadcast, keeping a message that is cached already, and votes for it. */
    method CacheShare(wireMsg: WireMessage) returns (item: LocalCacheItem)
      requires Valid() && wireMsg.from in env.parties
      modifies this`unConfirmedMessages, unConfirmedMessages.Values
      ensures Separate() && CacheKey(wireMsg) in unConfirmedMessages && unConfirmedMessages[CacheKey(wireMsg)] == item
      ensures fresh(unConfirmedMessages.Values - old(unConfirmedMessages.Values))
      ensures State() == PutItem(old(State()), CacheKey(wireMsg), SharedItem(env, old(State()), wireMsg))
    {
      var key, msgHash := CacheKey(wireMsg), env.hash(wireMsg.message);
      ghost var before := State();
      item := ItemFor(key, Some(wireMsg), msgHash);
      ghost var first := State().unconfirmed[key];
      assert item.Value() == first;
      if item.Msg == None {
        Fill(item, key, wireMsg, msgHash);
        PutTwice(before, key, first, State().unconfirmed[key]);
      }
      ghost var second := State().unconfirmed[key];
      Vote(item, key, env.localPeer, msgHash);
      PutTwice(before, key, second, State().unconfirmed[key]);
    }

    /** Applies the cached message, or requests it when there is none yet. */
    method ApplyOrRequest(item: LocalCacheItem, key: Key, msgType: MessageType, lib: nat -> bool)
        returns (ok: bool, ghost c: Choices)
      requires Valid() && key in unConfirmedMessages && unConfirmedMessages[key] == item
      modifies this, blameMgr, blameMgr.roundMgr, blameMgr.shareMgr, item
      ensures Valid() && unConfirmedMessages.Values <= old(unConfirmedMessages.Values)
      ensures ChoicesFit(env, old(State()), key, lib, c)
      ensures Result(State(), ok) == P.ApplyOrRequest(env, old(State()), key, msgType, c)
    {
      ghost var before := State();
      assert item.Value() == before.unconfirmed[key];
      var threshold := Threshold(|env.parties|);
      if item.Msg == None {
        c := RequestMissing(item, threshold, key, msgType, lib);
        ok := true;
      } else {
        ok, c := ApplyShare(item, threshold, key, msgType, lib);
      }
    }

    method RequestMissing(item: LocalCacheItem, threshold: int, key: Key, msgType: MessageType, ghost lib: nat -> bool)
        returns (ghost c: Choices)
      requires Valid() && key in unConfirmedMessages && unConfirmedMessages[key] == item
      modifies this`broadcasts, blameMgr.shareMgr
      ensures Valid() && ChoicesFit(env, old(State()), key, lib, c)
      ensures State() == RequestShare(old(State()), threshold, key, msgType, c.second)
    {
      ghost var before := State();
      c := SomeChoices(key, lib);
      ghost var pick := RequestShareFromPeer(item, threshold, key, msgType);
      assert before.unconfirmed[key].confirmed == item.ConfirmedList;
      FitSecond(env, before, key, lib, c, pick);
      c := c.(second := pick);
      RequestKeepsRest(before, threshold, key, msgType, pick);
    }

    method ProcessTSSMsg(wireMsg: WireMessage, msgType: MessageType, forward: bool, lib: nat -> bool)
        returns (ok: bool, ghost c: Choices)
      requires Valid()
      modifies this, blameMgr, blameMgr.roundMgr, blameMgr.shareMgr, unConfirmedMessages.Values
      ensures Valid() && fresh(unConfirmedMessages.Values - old(unConfirmedMessages.Values))
      ensures ShareFits(env, old(State()), wireMsg, msgType, forward, lib, c)
      ensures Result(State(), ok) == P.ProcessTSSMsg(env, old(State()), wireMsg, msgType, forward, c)
    {
      c := Choices("", "", W.Start(map[], multiset{}));
      if wireMsg.from !in env.parties {
        return false, c;
      }
      if !env.verify(wireMsg.from, wireMsg.message, wireMsg.sig) {
        return false, c;
      }
      // a unicast message only updates the local party
      if !wireMsg.isBroadcast {
        ok, c := UpdateLocal(wireMsg, lib);
        return;
      }
      var item := ReceiveBroadcast(wireMsg, msgType, forward);
      ok, c := ApplyShare(item, Threshold(|env.parties|), CacheKey(wireMsg), msgType, lib);
    }

    method ReceiveBroadcast(wireMsg: WireMessage, msgType: MessageType, forward: bool) returns (item: LocalCacheItem)
      requires Valid() && wireMsg.from in env.parties
      modifies this`unConfirmedMessages, this`broadcasts, unConfirmedMessages.Values
      ensures Valid() && fresh(unConfirmedMessages.Values - old(unConfirmedMessages.Values))
      ensures CacheKey(wireMsg) in unConfirmedMessages && unConfirmedMessages[CacheKey(wireMsg)] == item
      ensures item.Msg.Some?
      ensures State() == AfterShare(env, old(State()), wireMsg, msgType, forward)
    {
      ghost var before := State();
      if !forward {
        ReceiverBroadcastHashToPeers(wireMsg, msgType);
      }
      ghost var told := State();
      assert SharedItem(env, told, wireMsg) == SharedItem(env, before, wireMsg);
      item := CacheShare(wireMsg);
      assert item.Value() == State().unconfirmed[CacheKey(wireMsg)];
      ShareKeepsKnown(env, before, wireMsg, msgType, forward);
    }

    /** A peer reports that it is done; the last of them closes the channel. */
    method ProcessTaskDone(peer: PeerId) returns (ok: bool)
      modifies this`finishedPeers, this`taskDoneCloses
      ensures Result(State(), ok) == P.ProcessTaskDone(env, old(State()), peer)
    {
      if peer in finishedPeers {
        return false;
      }
      finishedPeers := finishedPeers + {peer};
      if |finishedPeers| == |env.parties| - 1 {
        taskDoneCloses := taskDoneCloses + 1;
      }
      ok := true;
    }

    /** Answers a peer that asks for a message we stored. */
    method ProcessRequestMsgFromPeer(peer: PeerId, key: Key, hash: Hash, reqType: MessageType)
      modifies this`broadcasts
      ensures State() == ProcessQuery(old(State()), peer, key, hash, reqType)
    {
      var storedMsg := blameMgr.roundMgr.Get(key);
      if storedMsg.Some? {
        RenderToP2P(ShareReply(reqType, key, hash, storedMsg.value, peer));
      }
    }

    method QueryAndDelete(hash: Hash) returns (exist: bool)
      requires Valid()
      modifies blameMgr.shareMgr
      ensures Valid() && State() == old(State()).(requested := old(State()).requested - {hash})
      ensures exist <==> hash in old(State()).requested
    {
      exist := blameMgr.shareMgr.QueryAndDelete(hash);
    }

    method ProcessForward(hash: Hash, key: Key, reqType: MessageType, body: Option<WireMessage>, lib: nat -> bool)
        returns (ok: bool, ghost c: Choices)
      requires Valid()
      modifies this, blameMgr, blameMgr.roundMgr, blameMgr.shareMgr, unConfirmedMessages.Values
      ensures Valid() && fresh(unConfirmedMessages.Values - old(unConfirmedMessages.Values))
      ensures InputFits(env, old(State()), Forward(hash, key, reqType, body), lib, c)
      ensures Result(State(), ok) == P.ProcessOneMessage(env, old(State()), Forward(hash, key, reqType, body), c)
    {
      c := Choices("", "", W.Start(map[], multiset{}));
      ghost var before := State();
      var exist := QueryAndDelete(hash);
      if !exist {
        assert before.requested - {hash} == before.requested;
        ok := true;
      } else if body.None? {
        ok := false;
      } else {
        ok, c := ProcessTSSMsg(body.value, reqType, true, lib);
      }
    }

    method ProcessConfirmation(peer: PeerId, msgType: MessageType, key: Key, hash: Hash, lib: nat -> bool)
        returns (ok: bool, ghost c: Choices)
      requires Valid()
      modifies this, blameMgr, blameMgr.roundMgr, blameMgr.shareMgr, unConfirmedMessages.Values
      ensures Valid() && fresh(unConfirmedMessages.Values - old(unConfirmedMessages.Values))
      ensures InputFits(env, old(State()), VerMsg(peer, msgType, key, hash), lib, c)
      ensures Result(State(), ok) == P.ProcessOneMessage(env, old(State()), VerMsg(peer, msgType, key, hash), c)
    {
      c, ok := Choices("", "", W.Start(map[], multiset{})), true;
      var isNew := CheckDupAndUpdateVerMsg(key, peer);
      if isNew {
        ok, c := ProcessVerMsg(peer, key, hash, msgType, lib);
      }
    }

    /** Messages that do not touch the cache. */
    method ProcessNotice(input: Input, lib: nat -> bool) returns (ok: bool, ghost c: Choices)
      requires Valid() && (input.Undecodable? || input.TaskDone? || input.Query?)
      modifies this`broadcasts, this`finishedPeers, this`taskDoneCloses
      ensures Valid() && InputFits(env, old(State()), input, lib, c)
      ensures Result(State(), ok) == P.ProcessOneMessage(env, old(State()), input, c)
    {
      c, ok := Choices("", "", W.Start(map[], multiset{})), true;
      if input.TaskDone? {
        if input.done {
          ok := ProcessTaskDone(input.peer);
        }
      } else if input.Query? {
        ProcessRequestMsgFromPeer(input.peer, input.key, input.hash, input.reqType);
      } else {
        ok := false;
      }
    }

    /** Every inbound message takes the node one step of the protocol. */
    method ProcessOneMessage(input: Input, lib: nat -> bool) returns (ok: bool, ghost c: Choices)
      requires Valid()
      modifies this, blameMgr, blameMgr.roundMgr, blameMgr.shareMgr, unConfirmedMessages.Values
      ensures Valid() && fresh(unConfirmedMessages.Values - old(unConfirmedMessages.Values))
      ensures InputFits(env, old(State()), input, lib, c)
      ensures Result(State(), ok) == P.ProcessOneMessage(env, old(State()), input, c)
      ensures Next(env, old(State()), input, lib, State())
    {
      match input {
        case TssShare(msgType, msg) => ok, c := ProcessTSSMsg(msg, msgType, false, lib);
        case VerMsg(peer, msgType, key, hash) => ok, c := ProcessConfirmation(peer, msgType, key, hash, lib);
        case Forward(hash, key, reqType, body) => ok, c := ProcessForward(hash, key, reqType, body, lib);
        case _ => ok, c := ProcessNotice(input, lib);
      }
    }
  }

  lemma PutTwice(node: Node, key: Key, a: Item, b: Item)
    ensures PutItem(PutItem(node, key, a), key, b) == PutItem(node, key, b)
  {
    assert node.unconfirmed[key := a][key := b] == node.unconfirmed[key := b];
  }

  lemma FitSecond(env: Env, node: Node, key: Key, lib: nat -> bool, c: Choices, pick: Hash)
    requires key in node.unconfirmed && ChoicesFit(env, node, key, lib, c)
    requires node.unconfirmed[key].confirmed != map[] ==> IsMode(node.unconfirmed[key].confirmed, pick)
    ensures ChoicesFit(env, node, key, lib, c.(second := pick))
  {
  }

  lemma FitFirst(env: Env, node: Node, key: Key, lib: nat -> bool, c: Choices, pick: Hash)
    requires key in node.unconfirmed && ChoicesFit(env, node, key, lib, c)
    requires node.unconfirmed[key].confirmed != map[] ==> IsMode(node.unconfirmed[key].confirmed, pick)
    ensures ChoicesFit(env, node, key, lib, c.(first := pick))
  {
  }

  lemma FitConclude(env: Env, before: Node, checked: Node, key: Key, msg: WireMessage, verdict: Verdict,
                    lib: nat -> bool, c0: Choices, c: Choices)
    requires key in before.unconfirmed && ChoicesFit(env, before, key, lib, c0)
    requires before.unconfirmed[key].msg == Some(msg) && msg.from in env.parties
    requires verdict == HashCheck(before.unconfirmed[key], env.parties[msg.from], Quorum(env), c0.first).1
    requires checked == PutItem(before, key,
      HashCheck(before.unconfirmed[key], env.parties[msg.from], Quorum(env), c0.first).0)
    requires c.first == c0.first
    requires if verdict == NotMajority then
        checked.unconfirmed[key].confirmed != map[] ==> IsMode(checked.unconfirmed[key].confirmed, c.second)
      else c.second == c0.second
    requires if verdict == Passed then PoolFits(env, checked, msg, lib, Choices("", "", c.pool)) else c.pool == c0.pool
    ensures ChoicesFit(env, before, key, lib, c)
  {
  }
}
