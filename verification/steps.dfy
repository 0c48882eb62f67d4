/** What one inbound message does to a node, told by confirm lists, copies and peers alone. */
module Steps {
  import opened Types
  import opened Votes
  import opened Protocol
  import opened Runs
  import W = Workers

  // ------------------------------------------------------------ vocabulary

  /** A most frequent hash of the list that enough peers voted for. */
  ghost predicate Winner(list: Ballots, h: Hash, t: int) {
    IsMode(list, h) && Count(list, h) >= t - 1
  }

  /** Messages of a keygen are asked for as keygen messages, those of a keysign as keysign messages. */
  predicate AskedAs(msgType: MessageType, reqType: MessageType) {
    || (reqType == TSSKeyGenMsg && msgType in {TSSKeyGenMsg, TSSKeyGenVerMsg})
    || (reqType == TSSKeySignMsg && msgType in {TSSKeySignMsg, TSSKeySignVerMsg})
  }

  /** A hash is confirmed in messages of the same kind. */
  predicate ConfirmedAs(msgType: MessageType, verType: MessageType) {
    && (msgType == TSSKeyGenMsg ==> verType == TSSKeyGenVerMsg)
    && (msgType == TSSKeySignMsg ==> verType == TSSKeySignVerMsg)
    && (msgType !in {TSSKeyGenMsg, TSSKeySignMsg} ==> verType == Unknown)
  }

  ghost predicate SameElsewhere(a: Node, b: Node, key: Key) {
    && (forall k :: k in a.unconfirmed && k != key ==> k in b.unconfirmed && b.unconfirmed[k] == a.unconfirmed[k])
    && (forall k :: k in b.unconfirmed && k != key ==> k in a.unconfirmed)
  }

  /** The key has this copy and this confirm list. */
  ghost predicate Has(env: Env, node: Node, key: Key, copy: Option<WireMessage>, list: Ballots) {
    && key in node.unconfirmed && node.unconfirmed[key].msg == copy && node.unconfirmed[key].confirmed == list
    && (copy.Some? ==> node.unconfirmed[key].hash == env.hash(copy.value.message))
  }

  function ListAt(node: Node, key: Key): Ballots {
    if key in node.unconfirmed then node.unconfirmed[key].confirmed else map[]
  }

  function CopyAt(node: Node, key: Key): Option<WireMessage> {
    if key in node.unconfirmed then node.unconfirmed[key].msg else None
  }

  function WhoVoted(list: Ballots, h: Hash): set<PeerId> {
    set p | p in list && list[p] == h
  }

  /** The share is a new entry that the library takes, and no entry up to it is broken. */
  ghost predicate IsTaken(env: Env, accepted: W.AcceptedShares, from: PartyId, entries: seq<BulkEntry>,
                          lib: nat -> bool,
                          s: W.Share) {
    && s.from == from && !(s.round in accepted && from in accepted[s.round])
    && exists i :: 0 <= i < |entries| && lib(i) && EntryIs(env, from, entries[i], s.round)
         && SoundUpTo(env, from, entries, i)
  }

  /** A bulk of distinct entries adds each share that is taken once to what was applied and to the
      list of its round, and nothing else. */
  ghost predicate Applies(env: Env, node: Node, next: Node, msg: WireMessage, lib: nat -> bool) {
    match env.parse(msg.message)
    case None => next.applied == node.applied && next.accepted == node.accepted
    case Some(entries) =>
      DistinctEntries(env, msg.from, entries) ==>
        && (forall s: W.Share ::
              next.applied[s]
              == node.applied[s] + if IsTaken(env, node.accepted, msg.from, entries, lib, s) then 1 else 0)
        && (forall r ::
              W.Get(next.accepted, r)
              == W.Get(node.accepted, r) + Gained(env, node.accepted, msg.from, entries, lib, r))
  }

  ghost function Gained(env: Env, accepted: W.AcceptedShares, from: PartyId, entries: seq<BulkEntry>, lib: nat -> bool,
                        r: W.RoundInfo): seq<PartyId>
  {
    if IsTaken(env, accepted, from, entries, lib, W.Share(r, from)) then [from] else []
  }

  lemma GoodIsTaken(env: Env, accepted: W.AcceptedShares, from: PartyId, entries: seq<BulkEntry>, lib: nat -> bool,
                    r: W.RoundInfo)
    ensures var b := BulkOf(env, from, entries, lib);
      r in W.GoodRounds(b, accepted, W.Stop(b.rounds)) <==> IsTaken(env, accepted, from, entries, lib, W.Share(r, from))
  {
    var b := BulkOf(env, from, entries, lib);
    if r in W.GoodRounds(b, accepted, W.Stop(b.rounds)) {
      var i :| 0 <= i < W.Stop(b.rounds) && W.Good(b, accepted, i) && b.rounds[i].value == r;
      ResolvedIs(env, from, entries, i, r);
      SoundIsRead(env, from, entries, i);
      assert EntryIs(env, from, entries[i], r) && SoundUpTo(env, from, entries, i);
    }
    if IsTaken(env, accepted, from, entries, lib, W.Share(r, from)) {
      var i := TakenIsGood(env, accepted, from, entries, lib, r);
      assert b.rounds[i].value == r;
    }
  }

  lemma TakenIsGood(env: Env, accepted: W.AcceptedShares, from: PartyId, entries: seq<BulkEntry>, lib: nat -> bool,
                    r: W.RoundInfo) returns (i: nat)
    requires IsTaken(env, accepted, from, entries, lib, W.Share(r, from))
    ensures var b := BulkOf(env, from, entries, lib);
      i < W.Stop(b.rounds) && W.Good(b, accepted, i) && b.rounds[i] == Some(r)
  {
    i :| 0 <= i < |entries| && lib(i) && EntryIs(env, from, entries[i], r) && SoundUpTo(env, from, entries, i);
    ResolvedIs(env, from, entries, i, r);
    assert EntryOk(env, from, entries[i]);
    SoundIsRead(env, from, entries, i + 1);
  }

  lemma SharesCount(done: set<W.RoundInfo>, from: PartyId, s: W.Share)
    ensures W.Shares(done, from)[s] == if s.from == from && s.round in done then 1 else 0
  {
    assert s in (set r | r in done :: W.Share(r, from)) <==> s.from == from && s.round in done;
  }

  lemma PoolApplies(env: Env, node: Node, next: Node, msg: WireMessage, lib: nat -> bool, c: Choices)
    requires env.parse(msg.message).Some? && PoolFits(env, node, msg, lib, c)
    requires next.accepted == c.pool.accepted && next.applied == c.pool.applied
    ensures Applies(env, node, next, msg, lib)
  {
    var entries := env.parse(msg.message).value;
    if DistinctEntries(env, msg.from, entries) {
      var b := BulkOf(env, msg.from, entries, lib);
      DistinctResolves(env, msg.from, entries);
      W.DistinctIsClean(b, node.accepted);
      W.Confluence(b, node.accepted, node.applied, c.pool);
      TakenCounts(env, node, next, msg.from, entries, lib, W.GoodRounds(b, node.accepted, W.Stop(b.rounds)));
    }
  }

  lemma TakenCounts(env: Env, node: Node, next: Node, from: PartyId, entries: seq<BulkEntry>, lib: nat -> bool,
                    done: set<W.RoundInfo>)
    requires var b := BulkOf(env, from, entries, lib); done == W.GoodRounds(b, node.accepted, W.Stop(b.rounds))
    requires next.accepted == W.Extend(node.accepted, done, from)
    requires next.applied == node.applied + W.Shares(done, from)
    ensures forall s: W.Share ::
      next.applied[s] == node.applied[s] + if IsTaken(env, node.accepted, from, entries, lib, s) then 1 else 0
    ensures forall r ::
      W.Get(next.accepted, r) == W.Get(node.accepted, r) + Gained(env, node.accepted, from, entries, lib, r)
  {
    forall s: W.Share
      ensures next.applied[s] == node.applied[s] + if IsTaken(env, node.accepted, from, entries, lib, s) then 1 else 0
    {
      GoodIsTaken(env, node.accepted, from, entries, lib, s.round);
      SharesCount(done, from, s);
    }
    forall r
      ensures W.Get(next.accepted, r) == W.Get(node.accepted, r) + Gained(env, node.accepted, from, entries, lib, r)
    {
      GoodIsTaken(env, node.accepted, from, entries, lib, r);
      ExtendGets(node.accepted, done, from, r);
    }
  }

  lemma ExtendGets(accepted: W.AcceptedShares, done: set<W.RoundInfo>, from: PartyId, r: W.RoundInfo)
    ensures W.Get(W.Extend(accepted, done, from), r) == W.Get(accepted, r) + if r in done then [from] else []
  {
  }

  // ------------------------------------------------------------ what follows a new vote

  /** Some winner of the list is noted and requested from exactly the peers that voted for it. */
  ghost predicate Asks(node: Node, next: Node, key: Key, list: Ballots, t: int, msgType: MessageType) {
    exists h :: Winner(list, h, t) && next.requested == node.requested + {h}
      && RequestSent(node, next, key, h, WhoVoted(list, h), msgType)
  }

  ghost predicate RequestSent(node: Node, next: Node, key: Key, h: Hash, peers: set<PeerId>, msgType: MessageType) {
    || (next.outbox == node.outbox && forall reqType :: !AskedAs(msgType, reqType))
    || exists reqType ::
         AskedAs(msgType, reqType) && next.outbox == node.outbox + [ShareRequest(reqType, key, h, peers)]
  }

  ghost predicate NothingAsked(node: Node, next: Node) {
    next.requested == node.requested && next.outbox == node.outbox
  }

  /** Nothing but the cache, the requests, the outbox, the blame, the log and the stored and applied
      shares can differ, and the cache only at this key. */
  ghost predicate Rest(node: Node, next: Node, key: Key) {
    SameElsewhere(node, next, key) && next.finished == node.finished && next.closes == node.closes
  }

  /** No share is applied and no message confirmed. */
  ghost predicate NothingTaken(node: Node, next: Node) {
    && next.log == node.log && next.stored == node.stored
    && next.accepted == node.accepted && next.applied == node.applied && next.lastUnicast == node.lastUnicast
  }

  /** Without a copy the vote is recorded, and the copy of a winner is requested if there is one. */
  ghost predicate Misses(env: Env, node: Node, key: Key, list: Ballots, t: int, msgType: MessageType, r: Result) {
    && r.ok && Has(env, r.node, key, None, list) && Rest(node, r.node, key) && NothingTaken(node, r.node)
    && r.node.blamed == node.blamed
    && if exists h :: Winner(list, h, t) then Asks(node, r.node, key, list, t, msgType) else NothingAsked(node, r.node)
  }

  /** The copy waits for more confirmations. */
  ghost predicate Waits(env: Env, node: Node, key: Key, copy: WireMessage, list: Ballots, r: Result) {
    && r.ok && Has(env, r.node, key, Some(copy), list) && Rest(node, r.node, key) && NothingTaken(node, r.node)
    && r.node.blamed == node.blamed && NothingAsked(node, r.node)
  }

  /** The sender of the copy is blamed; the copy stays. */
  ghost predicate Blames(env: Env, node: Node, key: Key, copy: WireMessage, list: Ballots, r: Result) {
    && !r.ok && Has(env, r.node, key, Some(copy), list) && Rest(node, r.node, key) && NothingTaken(node, r.node)
    && r.node.blamed == node.blamed + [copy.from] && NothingAsked(node, r.node)
  }

  /** The copy is dropped, nobody is blamed for it, and that of a winner is requested. */
  ghost predicate Drops(env: Env, node: Node, key: Key, list: Ballots, t: int, msgType: MessageType, r: Result) {
    && r.ok && Has(env, r.node, key, None, list) && Rest(node, r.node, key) && NothingTaken(node, r.node)
    && r.node.blamed == node.blamed && Asks(node, r.node, key, list, t, msgType)
  }

  /** The copy is confirmed and handed to the local parties; the key is forgotten unless the bulk is
      broken. */
  ghost predicate Takes(env: Env, node: Node, key: Key, copy: WireMessage, list: Ballots, lib: nat -> bool, r: Result) {
    && (r.ok <==> Sound(env, copy)) && Rest(node, r.node, key)
    && (if r.ok then key !in r.node.unconfirmed else Has(env, r.node, key, Some(copy), list))
    && r.node.log == node.log + [Acceptance(key, copy, list)] && r.node.stored == node.stored[key := copy]
    && r.node.blamed == node.blamed && NothingAsked(node, r.node) && r.node.lastUnicast == node.lastUnicast
    && Applies(env, node, r.node, copy, lib)
  }

  /** What becomes of a copy once the confirm list is `list`. */
  ghost predicate Settles(env: Env, node: Node, key: Key, copy: WireMessage, list: Ballots, msgType: MessageType,
                          lib: nat -> bool, r: Result)
  {
    var t := Threshold(|env.parties|);
    && copy.from in env.parties
    && var owner := env.parties[copy.from];
    if |list| < t then Waits(env, node, key, copy, list, r)
    else if owner in list then Blames(env, node, key, copy, list - {owner}, r)
    else if forall h :: !Winner(list, h, t) then Blames(env, node, key, copy, list, r)
    else
      || (Winner(list, env.hash(copy.message), t) && Takes(env, node, key, copy, list, lib, r))
      || ((exists h :: h != env.hash(copy.message) && Winner(list, h, t)) && Drops(env, node, key, list, t, msgType, r))
  }

  // ------------------------------------------------------------ proofs for one check

  /** Two modes of a list have the same count. */
  lemma WinnersTie(list: Ballots, g: Hash, h: Hash, t: int)
    requires IsMode(list, g) && IsMode(list, h)
    ensures Winner(list, g, t) <==> Winner(list, h, t)
  {
  }

  lemma NoWinner(list: Ballots, pick: Hash, t: int)
    requires IsMode(list, pick) && Count(list, pick) < t - 1
    ensures forall h :: !Winner(list, h, t)
  {
    forall h ensures !Winner(list, h, t) {
      if Winner(list, h, t) {
        WinnersTie(list, pick, h, t);
      }
    }
  }

  lemma RequestAsks(env: Env, node: Node, key: Key, list: Ballots, msgType: MessageType, pick: Hash)
    requires Has(env, node, key, None, list) && IsMode(list, pick)
    ensures var next := RequestShare(node, Quorum(env), key, msgType, pick); var t := Threshold(|env.parties|);
      if exists h :: Winner(list, h, t) then Asks(node, next, key, list, t, msgType) else NothingAsked(node, next)
  {
    var next, t := RequestShare(node, Quorum(env), key, msgType, pick), Threshold(|env.parties|);
    NonEmptyList(list, pick);
    if Count(list, pick) < t - 1 {
      NoWinner(list, pick, t);
    } else {
      assert Winner(list, pick, t);
      assert Voters(list, pick) == WhoVoted(list, pick);
      RequestGoesOut(node, key, msgType, pick, Voters(list, pick), next);
    }
  }

  lemma NonEmptyList(list: Ballots, pick: Hash)
    requires IsMode(list, pick)
    ensures list != map[]
  {
    var p :| p in Voters(list, pick);
  }

  lemma RequestGoesOut(node: Node, key: Key, msgType: MessageType, h: Hash, peers: set<PeerId>, next: Node)
    requires next.outbox == Asked(node.outbox, key, h, msgType, peers)
    ensures RequestSent(node, next, key, h, peers, msgType)
  {
    match RequestTypeOf(msgType)
    case None => assert forall reqType :: !AskedAs(msgType, reqType);
    case Some(reqType) => assert AskedAs(msgType, reqType);
  }

  /** The verdict, by the list. */
  lemma VerdictIs(env: Env, copy: WireMessage, list: Ballots, pick: Hash)
    requires copy.from in env.parties && IsMode(list, pick)
    ensures var (owner, t) := (env.parties[copy.from], Threshold(|env.parties|));
      var item := Item(Some(copy), env.hash(copy.message), list);
      var (after, verdict) := HashCheck(item, owner, Quorum(env), pick);
      if |list| < t then after == item && verdict == NotEnoughPeer
      else if owner in list then after == item.(confirmed := list - {owner}) && verdict == HashFromOwner
      else if forall h :: !Winner(list, h, t) then after == item && verdict == HashInconsistency
      else
        && after == item && Winner(list, pick, t)
        && verdict == if pick == env.hash(copy.message) then Passed else NotMajority
  {
    NonEmptyList(list, pick);
    if Count(list, pick) < Threshold(|env.parties|) - 1 {
      NoWinner(list, pick, Threshold(|env.parties|));
    } else {
      assert Winner(list, pick, Threshold(|env.parties|));
    }
  }

  lemma TakenIs(env: Env, node: Node, key: Key, copy: WireMessage, list: Ballots, msgType: MessageType,
                lib: nat -> bool, c: Choices)
    requires Has(env, node, key, Some(copy), list) && copy.from in env.parties && copy.isBroadcast
    requires PoolFits(env, node, copy, lib, c)
    ensures Takes(env, node, key, copy, list, lib, Conclude(env, node, key, copy, msgType, Passed, c))
  {
    var r := Conclude(env, node, key, copy, msgType, Passed, c);
    if env.parse(copy.message).Some? {
      SoundResolves(env, copy);
      W.FailsIffBroken(BulkOf(env, copy.from, env.parse(copy.message).value, lib), node.accepted, node.applied, c.pool);
      PoolApplies(env, node, r.node, copy, lib, c);
    }
  }

  lemma DropIs(env: Env, node: Node, key: Key, copy: WireMessage, list: Ballots, msgType: MessageType, c: Choices)
    requires Has(env, node, key, Some(copy), list) && copy.from in env.parties && IsMode(list, c.second)
    requires exists h :: Winner(list, h, Threshold(|env.parties|))
    ensures Drops(env, node, key, list, Threshold(|env.parties|), msgType,
                  Conclude(env, node, key, copy, msgType, NotMajority, c))
  {
    var dropped := PutItem(node, key, node.unconfirmed[key].(msg := None));
    RequestAsks(env, dropped, key, list, msgType, c.second);
    RequestKeepsRest(dropped, Quorum(env), key, msgType, c.second);
  }

  lemma PutSame(node: Node, key: Key, item: Item)
    requires key in node.unconfirmed && node.unconfirmed[key] == item
    ensures PutItem(node, key, item) == node
  {
    assert node.unconfirmed[key := item] == node.unconfirmed;
  }

  lemma WaitIs(env: Env, node: Node, key: Key, copy: WireMessage, list: Ballots, msgType: MessageType, c: Choices)
    requires Has(env, node, key, Some(copy), list) && copy.from in env.parties
    ensures Waits(env, node, key, copy, list, Conclude(env, node, key, copy, msgType, NotEnoughPeer, c))
  {
  }

  lemma BlameIs(env: Env, node: Node, key: Key, copy: WireMessage, list: Ballots, msgType: MessageType,
                verdict: Verdict, c: Choices)
    requires Has(env, node, key, Some(copy), list) && copy.from in env.parties
    requires verdict == HashInconsistency
    ensures Blames(env, node, key, copy, list, Conclude(env, node, key, copy, msgType, verdict, c))
  {
  }

  lemma OwnerIs(env: Env, node: Node, key: Key, copy: WireMessage, list: Ballots, msgType: MessageType, c: Choices)
    requires Has(env, node, key, Some(copy), list) && copy.from in env.parties
    ensures var less := list - {env.parties[copy.from]};
      Blames(env, node, key, copy, less,
             Conclude(env, PutItem(node, key, node.unconfirmed[key].(confirmed := less)), key, copy, msgType,
                      HashFromOwner, c))
  {
  }

  /** The code settles a cached copy as the list says. */
  lemma ApplySettles(env: Env, node: Node, key: Key, copy: WireMessage, list: Ballots, msgType: MessageType,
                     lib: nat -> bool, c: Choices)
    requires Has(env, node, key, Some(copy), list) && list != map[] && copy.from in env.parties && copy.isBroadcast
    requires ChoicesFit(env, node, key, lib, c)
    ensures Settles(env, node, key, copy, list, msgType, lib, ApplyShare(env, node, key, msgType, c))
  {
    var (after, verdict) := HashCheck(node.unconfirmed[key], env.parties[copy.from], Quorum(env), c.first);
    assert node.unconfirmed[key] == Item(Some(copy), env.hash(copy.message), list);
    VerdictIs(env, copy, list, c.first);
    if verdict == HashFromOwner {
      OwnerIs(env, node, key, copy, list, msgType, c);
    } else {
      PutSame(node, key, after);
      match verdict {
        case NotEnoughPeer => WaitIs(env, node, key, copy, list, msgType, c);
        case Passed => TakenIs(env, node, key, copy, list, msgType, lib, c);
        case NotMajority => DropIs(env, node, key, copy, list, msgType, c);
        case _ => BlameIs(env, node, key, copy, list, msgType, verdict, c);
      }
    }
  }

  // ------------------------------------------------------------ the handlers

  /** Every other peer but the sender is told which hash this node has under the key. */
  ghost predicate Tells(env: Env, node: Node, told: Node, msg: WireMessage, msgType: MessageType)
    requires msg.from in env.parties
  {
    var others := set p | p in env.parties.Values && p != env.localPeer && p != env.parties[msg.from];
    && told == node.(outbox := told.outbox)
    && if others == {} then told.outbox == node.outbox
       else exists verType ::
         ConfirmedAs(msgType, verType)
         && told.outbox == node.outbox + [VerHash(verType, CacheKey(msg), env.hash(msg.message), others)]
  }

  /** A verified broadcast: the peers are told unless it is an answer, this node votes for the hash
      of the new copy, and the copy it has, an older one if there is one, is settled. */
  ghost predicate BroadcastMeans(env: Env, node: Node, msg: WireMessage, msgType: MessageType, forward: bool,
                                 lib: nat -> bool, r: Result)
    requires msg.from in env.parties
  {
    var key := CacheKey(msg);
    var copy := if CopyAt(node, key).Some? then CopyAt(node, key).value else msg;
    var list := ListAt(node, key)[env.localPeer := env.hash(msg.message)];
    exists told :: Told(env, node, told, msg, msgType, forward) && Settles(env, told, key, copy, list, msgType, lib, r)
  }

  ghost predicate Told(env: Env, node: Node, told: Node, msg: WireMessage, msgType: MessageType, forward: bool)
    requires msg.from in env.parties
  {
    if forward then told == node else Tells(env, node, told, msg, msgType)
  }

  /** A verified unicast share goes to the local parties and its sender is noted. */
  ghost predicate UnicastMeans(env: Env, node: Node, msg: WireMessage, lib: nat -> bool, r: Result)
    requires msg.from in env.parties
  {
    var noted := if msg.roundInfo in node.lastUnicast then node.lastUnicast[msg.roundInfo] else [];
    && (r.ok <==> Sound(env, msg))
    && r.node == node.(lastUnicast := node.lastUnicast[msg.roundInfo := noted + [env.parties[msg.from]]],
                       accepted := r.node.accepted, applied := r.node.applied)
    && Applies(env, node, r.node, msg, lib)
  }

  ghost predicate ShareMeans(env: Env, node: Node, msg: WireMessage, msgType: MessageType, forward: bool,
                             lib: nat -> bool, r: Result) {
    if msg.from !in env.parties || !env.verify(msg.from, msg.message, msg.sig) then r == Result(node, false)
    else if msg.isBroadcast then BroadcastMeans(env, node, msg, msgType, forward, lib, r)
    else UnicastMeans(env, node, msg, lib, r)
  }

  /** A confirmation counts once per peer; it settles the copy, or requests one. */
  ghost predicate VoteMeans(env: Env, node: Node, peer: PeerId, msgType: MessageType, key: Key, hash: Hash,
                            lib: nat -> bool, r: Result) {
    var list := ListAt(node, key)[peer := hash];
    if peer in ListAt(node, key) then r == Result(node, true)
    else
      match CopyAt(node, key)
      case None => Misses(env, node, key, list, Threshold(|env.parties|), msgType, r)
      case Some(copy) => Settles(env, node, key, copy, list, msgType, lib, r)
  }

  ghost predicate DoneMeans(env: Env, node: Node, peer: PeerId, r: Result) {
    if peer in node.finished then r == Result(node, false)
    else
      && r.ok && r.node.finished == node.finished + {peer}
      && r.node == node.(finished := r.node.finished, closes := r.node.closes)
      && r.node.closes == node.closes + if |node.finished| + 1 == |env.parties| - 1 then 1 else 0
  }

  /** A peer that asks for a message this node has stored is answered with it. */
  ghost predicate QueryMeans(node: Node, peer: PeerId, hash: Hash, key: Key, reqType: MessageType, r: Result) {
    && r.ok && r.node == node.(outbox := r.node.outbox)
    && if key in node.stored
       then r.node.outbox == node.outbox + [ShareReply(reqType, key, hash, node.stored[key], peer)]
       else r.node.outbox == node.outbox
  }

  /** An answer counts only if its hash was asked for, and once. */
  ghost predicate ForwardMeans(env: Env, node: Node, hash: Hash, reqType: MessageType, body: Option<WireMessage>,
                               lib: nat -> bool, r: Result) {
    if hash !in node.requested then r == Result(node, true)
    else
      var used := node.(requested := node.requested - {hash});
      match body
      case None => r == Result(used, false)
      case Some(msg) => ShareMeans(env, used, msg, reqType, true, lib, r)
  }

  ghost predicate Means(env: Env, node: Node, input: Input, lib: nat -> bool, r: Result) {
    match input
    case Undecodable => r == Result(node, false)
    case TssShare(msgType, msg) => ShareMeans(env, node, msg, msgType, false, lib, r)
    case VerMsg(peer, msgType, key, hash) => VoteMeans(env, node, peer, msgType, key, hash, lib, r)
    case TaskDone(peer, done) => if done then DoneMeans(env, node, peer, r) else r == Result(node, true)
    case Query(peer, hash, key, reqType) => QueryMeans(node, peer, hash, key, reqType, r)
    case Forward(hash, _, reqType, body) => ForwardMeans(env, node, hash, reqType, body, lib, r)
  }

  // ------------------------------------------------------------ the code does this

  lemma SettlesFrom(env: Env, node: Node, mid: Node, key: Key, copy: WireMessage, list: Ballots, msgType: MessageType,
                    lib: nat -> bool, r: Result)
    requires mid == node.(unconfirmed := mid.unconfirmed) && SameElsewhere(node, mid, key)
    requires Settles(env, mid, key, copy, list, msgType, lib, r)
    ensures Settles(env, node, key, copy, list, msgType, lib, r)
  {
    assert Rest(mid, r.node, key) ==> Rest(node, r.node, key);
    assert NothingTaken(mid, r.node) ==> NothingTaken(node, r.node);
    TakesFrom(env, node, mid, key, copy, list, lib, r);
    AsksFrom(env, node, mid, r.node, key, list, Threshold(|env.parties|), msgType);
  }

  lemma TakesFrom(env: Env, node: Node, mid: Node, key: Key, copy: WireMessage, list: Ballots, lib: nat -> bool,
                  r: Result)
    requires mid == node.(unconfirmed := mid.unconfirmed) && SameElsewhere(node, mid, key)
    ensures Takes(env, mid, key, copy, list, lib, r) ==> Takes(env, node, key, copy, list, lib, r)
  {
    if Takes(env, mid, key, copy, list, lib, r) {
      assert Applies(env, node, r.node, copy, lib);
    }
  }

  lemma AsksFrom(env: Env, node: Node, mid: Node, next: Node, key: Key, list: Ballots, t: int, msgType: MessageType)
    requires mid == node.(unconfirmed := mid.unconfirmed)
    ensures Asks(mid, next, key, list, t, msgType) ==> Asks(node, next, key, list, t, msgType)
    ensures NothingAsked(mid, next) ==> NothingAsked(node, next)
  {
    if Asks(mid, next, key, list, t, msgType) {
      var h :| Winner(list, h, t) && next.requested == mid.requested + {h}
        && RequestSent(mid, next, key, h, WhoVoted(list, h), msgType);
      assert RequestSent(node, next, key, h, WhoVoted(list, h), msgType);
    }
  }

  lemma VoteGives(env: Env, node: Node, key: Key, peer: PeerId, hash: Hash)
    requires key in node.unconfirmed ==> ItemOk(env, key, node.unconfirmed[key])
    ensures var mid := AfterVote(node, key, peer, hash);
      && Has(env, mid, key, CopyAt(node, key), ListAt(node, key)[peer := hash])
      && mid == node.(unconfirmed := mid.unconfirmed) && SameElsewhere(node, mid, key)
  {
  }

  lemma VoteStep(env: Env, node: Node, peer: PeerId, msgType: MessageType, key: Key, hash: Hash, lib: nat -> bool,
                 c: Choices)
    requires MessagesKnown(env, node) && peer !in ListAt(node, key)
    requires key in node.unconfirmed ==> ItemOk(env, key, node.unconfirmed[key])
    requires ChoicesFit(env, AfterVote(node, key, peer, hash), key, lib, c)
    ensures VoteMeans(env, node, peer, msgType, key, hash, lib, ProcessVerMsg(env, node, peer, key, hash, msgType, c))
  {
    var mid := AfterVote(node, key, peer, hash);
    var list := ListAt(node, key)[peer := hash];
    VoteGives(env, node, key, peer, hash);
    assert peer in list;
    match CopyAt(node, key)
    case None => MissStep(env, node, mid, key, list, msgType, c);
    case Some(copy) =>
      ApplySettles(env, mid, key, copy, list, msgType, lib, c);
      SettlesFrom(env, node, mid, key, copy, list, msgType, lib, ApplyShare(env, mid, key, msgType, c));
  }

  lemma MissStep(env: Env, node: Node, mid: Node, key: Key, list: Ballots, msgType: MessageType, c: Choices)
    requires Has(env, mid, key, None, list) && IsMode(list, c.second)
    requires mid == node.(unconfirmed := mid.unconfirmed) && SameElsewhere(node, mid, key)
    ensures Misses(env, node, key, list, Threshold(|env.parties|), msgType,
                   Result(RequestShare(mid, Quorum(env), key, msgType, c.second), true))
  {
    var next := RequestShare(mid, Quorum(env), key, msgType, c.second);
    RequestAsks(env, mid, key, list, msgType, c.second);
    RequestKeepsRest(mid, Quorum(env), key, msgType, c.second);
    AsksFrom(env, node, mid, next, key, list, Threshold(|env.parties|), msgType);
  }

  lemma TellsOthers(env: Env, node: Node, msg: WireMessage, msgType: MessageType)
    requires msg.from in env.parties
    ensures Tells(env, node, TellPeers(env, node, msg, msgType), msg, msgType)
  {
    var others := set p | p in env.parties.Values && p != env.localPeer && p != env.parties[msg.from];
    assert others == env.parties.Values - {env.localPeer} - {env.parties[msg.from]};
    assert ConfirmedAs(msgType, VerTypeOf(msgType));
  }

  lemma ShareGives(env: Env, node: Node, told: Node, msg: WireMessage, msgType: MessageType, forward: bool)
    requires msg.from in env.parties
    requires CacheKey(msg) in node.unconfirmed ==> ItemOk(env, CacheKey(msg), node.unconfirmed[CacheKey(msg)])
    requires told == if forward then node else TellPeers(env, node, msg, msgType)
    ensures var mid := AfterShare(env, node, msg, msgType, forward); var key := CacheKey(msg);
      var copy := if CopyAt(node, key).Some? then CopyAt(node, key).value else msg;
      && Has(env, mid, key, Some(copy), ListAt(node, key)[env.localPeer := env.hash(msg.message)])
      && mid == told.(unconfirmed := mid.unconfirmed) && SameElsewhere(told, mid, key)
  {
  }

  lemma BroadcastStep(env: Env, node: Node, msg: WireMessage, msgType: MessageType, forward: bool,
                      lib: nat -> bool, c: Choices)
    requires MessagesKnown(env, node) && ShareIsValid(env, msg) && msg.isBroadcast
    requires CacheKey(msg) in node.unconfirmed ==> ItemOk(env, CacheKey(msg), node.unconfirmed[CacheKey(msg)])
    requires ChoicesFit(env, AfterShare(env, node, msg, msgType, forward), CacheKey(msg), lib, c)
    ensures BroadcastMeans(env, node, msg, msgType, forward, lib, ProcessTSSMsg(env, node, msg, msgType, forward, c))
  {
    var key := CacheKey(msg);
    var copy := if CopyAt(node, key).Some? then CopyAt(node, key).value else msg;
    var list := ListAt(node, key)[env.localPeer := env.hash(msg.message)];
    var told := if forward then node else TellPeers(env, node, msg, msgType);
    var mid := AfterShare(env, node, msg, msgType, forward);
    TellsOthers(env, node, msg, msgType);
    assert env.localPeer in list;
    ShareGives(env, node, told, msg, msgType, forward);
    ApplySettles(env, mid, key, copy, list, msgType, lib, c);
    SettlesFrom(env, told, mid, key, copy, list, msgType, lib, ApplyShare(env, mid, key, msgType, c));
    assert Told(env, node, told, msg, msgType, forward);
    assert ProcessTSSMsg(env, node, msg, msgType, forward, c) == ApplyShare(env, mid, key, msgType, c);
  }

  lemma UnicastStep(env: Env, node: Node, msg: WireMessage, lib: nat -> bool, c: Choices)
    requires msg.from in env.parties && !msg.isBroadcast && PoolFits(env, node, msg, lib, c)
    ensures UnicastMeans(env, node, msg, lib, UpdateLocal(env, node, msg, c))
  {
    if env.parse(msg.message).Some? {
      SoundResolves(env, msg);
      W.FailsIffBroken(BulkOf(env, msg.from, env.parse(msg.message).value, lib), node.accepted, node.applied, c.pool);
      PoolApplies(env, node, UpdateLocal(env, node, msg, c).node, msg, lib, c);
    }
  }

  lemma ShareStep(env: Env, members: set<PeerId>, node: Node, msg: WireMessage, msgType: MessageType, forward: bool,
                  lib: nat -> bool, c: Choices)
    requires ItemsOk(env, members, node) && MessagesKnown(env, node)
    requires ShareFits(env, node, msg, msgType, forward, lib, c)
    ensures ShareMeans(env, node, msg, msgType, forward, lib, ProcessTSSMsg(env, node, msg, msgType, forward, c))
  {
    if ShareIsValid(env, msg) {
      if msg.isBroadcast {
        BroadcastStep(env, node, msg, msgType, forward, lib, c);
      } else {
        UnicastStep(env, node, msg, lib, c);
      }
    }
  }

  /** Every inbound message means to a node what is said above, whatever choices are made. */
  lemma StepMeans(env: Env, members: set<PeerId>, node: Node, input: Input, lib: nat -> bool, c: Choices)
    requires ItemsOk(env, members, node) && MessagesKnown(env, node) && InputFits(env, node, input, lib, c)
    ensures Means(env, node, input, lib, ProcessOneMessage(env, node, input, c))
  {
    match input
    case TssShare(msgType, msg) => ShareStep(env, members, node, msg, msgType, false, lib, c);
    case VerMsg(peer, msgType, key, hash) =>
      if !AlreadyVoted(node, key, peer) {
        VoteStep(env, node, peer, msgType, key, hash, lib, c);
      }
    case Forward(hash, key, reqType, body) => ForwardStep(env, members, node, hash, key, reqType, body, lib, c);
    case Query(peer, hash, key, reqType) => QueryStep(node, peer, hash, key, reqType);
    case _ =>
  }

  lemma ForwardStep(env: Env, members: set<PeerId>, node: Node, hash: Hash, key: Key, reqType: MessageType,
                    body: Option<WireMessage>, lib: nat -> bool, c: Choices)
    requires ItemsOk(env, members, node) && MessagesKnown(env, node)
    requires InputFits(env, node, Forward(hash, key, reqType, body), lib, c)
    ensures ForwardMeans(env, node, hash, reqType, body, lib,
                         ProcessOneMessage(env, node, Forward(hash, key, reqType, body), c))
  {
    if hash in node.requested && body.Some? {
      ShareStep(env, members, node.(requested := node.requested - {hash}), body.value, reqType, true, lib, c);
    }
  }

  lemma QueryStep(node: Node, peer: PeerId, hash: Hash, key: Key, reqType: MessageType)
    ensures QueryMeans(node, peer, hash, key, reqType, Result(ProcessQuery(node, peer, key, hash, reqType), true))
  {
  }
}
