/** What every run of a node keeps, and what two nodes that accept the same share agree on. */
module Runs {
  import opened Types
  import opened Votes
  import opened Protocol
  import W = Workers

  // ------------------------------------------------------------ the acceptance invariant

  /** A cached message is a verified broadcast, sits under its own key and carries its own hash. */
  ghost predicate ItemOk(env: Env, key: Key, item: Item) {
    item.msg.Some? ==>
      && var msg := item.msg.value;
      && CacheKey(msg) == key && msg.isBroadcast && ShareIsValid(env, msg)
      && item.hash == env.hash(msg.message)
  }

  /** The message was applied on a confirm list in which its own hash was a most frequent vote,
      with enough votes and confirmers, and without a vote of its sender. */
  ghost predicate AcceptanceOk(env: Env, e: Acceptance) {
    && e.key == CacheKey(e.msg) && e.msg.isBroadcast && ShareIsValid(env, e.msg)
    && env.parties[e.msg.from] !in e.ballots
    && |e.ballots| >= Quorum(env)
    && IsMode(e.ballots, env.hash(e.msg.message))
    && Count(e.ballots, env.hash(e.msg.message)) >= Quorum(env) - 1
  }

  /** `members` are the peers that may confirm a hash. */
  ghost predicate ItemsOk(env: Env, members: set<PeerId>, node: Node) {
    forall key :: key in node.unconfirmed ==>
      ItemOk(env, key, node.unconfirmed[key]) && node.unconfirmed[key].confirmed.Keys <= members
  }

  ghost predicate LogOk(env: Env, members: set<PeerId>, node: Node) {
    forall e :: e in node.log ==> AcceptanceOk(env, e) && e.ballots.Keys <= members
  }

  ghost predicate StoredOk(node: Node) {
    forall key :: key in node.stored ==>
      exists i :: 0 <= i < |node.log| && node.log[i].key == key && node.log[i].msg == node.stored[key]
  }

  ghost predicate AcceptanceInv(env: Env, members: set<PeerId>, node: Node) {
    ItemsOk(env, members, node) && LogOk(env, members, node) && StoredOk(node)
  }

  ghost predicate InputFrom(members: set<PeerId>, input: Input) {
    input.VerMsg? ==> input.peer in members
  }

  /** Everything but the outbox, the requests and the accepted shares agrees. */
  ghost predicate SameCache(a: Node, b: Node) {
    a.unconfirmed == b.unconfirmed && a.stored == b.stored && a.log == b.log
  }

  lemma InvOfSameCache(env: Env, members: set<PeerId>, a: Node, b: Node)
    requires AcceptanceInv(env, members, a) && SameCache(a, b)
    ensures AcceptanceInv(env, members, b)
  {
  }

  lemma PutKeepsInv(env: Env, members: set<PeerId>, node: Node, key: Key, item: Item)
    requires AcceptanceInv(env, members, node) && ItemOk(env, key, item) && item.confirmed.Keys <= members
    ensures AcceptanceInv(env, members, PutItem(node, key, item))
  {
  }

  lemma TakeKeepsInv(env: Env, members: set<PeerId>, node: Node, e: Acceptance)
    requires AcceptanceInv(env, members, node) && AcceptanceOk(env, e) && e.ballots.Keys <= members
    ensures AcceptanceInv(env, members, node.(stored := node.stored[e.key := e.msg], log := node.log + [e]))
  {
    var next := node.(stored := node.stored[e.key := e.msg], log := node.log + [e]);
    forall key | key in next.stored
      ensures exists i :: 0 <= i < |next.log| && next.log[i].key == key && next.log[i].msg == next.stored[key]
    {
      if key == e.key {
        assert next.log[|node.log|] == e;
      } else {
        var i :| 0 <= i < |node.log| && node.log[i].key == key && node.log[i].msg == node.stored[key];
        assert next.log[i] == node.log[i];
      }
    }
  }

  lemma RequestKeepsInv(env: Env, members: set<PeerId>, node: Node, t: int, key: Key, msgType: MessageType, pick: Hash)
    requires AcceptanceInv(env, members, node) && key in node.unconfirmed
    ensures AcceptanceInv(env, members, RequestShare(node, t, key, msgType, pick))
  {
    InvOfSameCache(env, members, node, RequestShare(node, t, key, msgType, pick));
  }

  lemma UpdateKeepsInv(env: Env, members: set<PeerId>, node: Node, msg: WireMessage, c: Choices)
    requires AcceptanceInv(env, members, node) && msg.from in env.parties
    ensures AcceptanceInv(env, members, UpdateLocal(env, node, msg, c).node)
  {
    InvOfSameCache(env, members, node, UpdateLocal(env, node, msg, c).node);
  }

  /** A confirm list that passes the check is one that the acceptance invariant asks for. */
  lemma PassedIsOk(env: Env, key: Key, item: Item, pick: Hash)
    requires ItemOk(env, key, item) && item.msg.Some?
    requires item.confirmed != map[] ==> IsMode(item.confirmed, pick)
    ensures var (after, verdict) := HashCheck(item, env.parties[item.msg.value.from], Quorum(env), pick);
      && ItemOk(env, key, after) && after.confirmed.Keys <= item.confirmed.Keys
      && (verdict == Passed ==> after == item && AcceptanceOk(env, Acceptance(key, item.msg.value, item.confirmed)))
  {
  }

  lemma ApplyKeepsInv(env: Env, members: set<PeerId>, node: Node, key: Key, msgType: MessageType, lib: nat -> bool,
                      c: Choices)
    requires AcceptanceInv(env, members, node)
    requires key in node.unconfirmed && node.unconfirmed[key].msg.Some?
    requires ChoicesFit(env, node, key, lib, c)
    ensures AcceptanceInv(env, members, ApplyShare(env, node, key, msgType, c).node)
  {
    var item := node.unconfirmed[key];
    var msg := item.msg.value;
    var (after, verdict) := HashCheck(item, env.parties[msg.from], Quorum(env), c.first);
    PassedIsOk(env, key, item, c.first);
    PutKeepsInv(env, members, node, key, after);
    ConcludeKeepsInv(env, members, PutItem(node, key, after), key, msg, msgType, verdict, c);
  }

  lemma ConcludeKeepsInv(env: Env, members: set<PeerId>, node: Node, key: Key, msg: WireMessage, msgType: MessageType,
                         verdict: Verdict, c: Choices)
    requires AcceptanceInv(env, members, node) && key in node.unconfirmed && msg.from in env.parties
    requires verdict == Passed ==> AcceptanceOk(env, Acceptance(key, msg, node.unconfirmed[key].confirmed))
    ensures AcceptanceInv(env, members, Conclude(env, node, key, msg, msgType, verdict, c).node)
  {
    match verdict
    case NotEnoughPeer =>
    case NotMajority =>
      var dropped := node.unconfirmed[key].(msg := None);
      PutKeepsInv(env, members, node, key, dropped);
      RequestKeepsInv(env, members, PutItem(node, key, dropped), Quorum(env), key, msgType, c.second);
    case Passed =>
      TakeKeepsInv(env, members, node, Acceptance(key, msg, node.unconfirmed[key].confirmed));
      UpdateKeepsInv(env, members, Confirm(node, key, msg), msg, c);
    case _ =>
      InvOfSameCache(env, members, node, Conclude(env, node, key, msg, msgType, verdict, c).node);
  }

  lemma AfterShareKeepsInv(env: Env, members: set<PeerId>, node: Node, msg: WireMessage, msgType: MessageType,
                           forward: bool)
    requires AcceptanceInv(env, members, node) && env.localPeer in members
    requires ShareIsValid(env, msg) && msg.isBroadcast
    ensures AcceptanceInv(env, members, AfterShare(env, node, msg, msgType, forward))
    ensures AfterShare(env, node, msg, msgType, forward).unconfirmed[CacheKey(msg)].msg.Some?
  {
    var told := if forward then node else TellPeers(env, node, msg, msgType);
    InvOfSameCache(env, members, node, told);
    SharedItemOk(env, members, node, msg);
    PutKeepsInv(env, members, told, CacheKey(msg), SharedItem(env, node, msg));
  }

  lemma SharedItemOk(env: Env, members: set<PeerId>, node: Node, msg: WireMessage)
    requires ItemsOk(env, members, node) && env.localPeer in members
    requires ShareIsValid(env, msg) && msg.isBroadcast
    ensures ItemOk(env, CacheKey(msg), SharedItem(env, node, msg))
    ensures SharedItem(env, node, msg).confirmed.Keys <= members
  {
    if CacheKey(msg) in node.unconfirmed {
      assert ItemOk(env, CacheKey(msg), node.unconfirmed[CacheKey(msg)]);
    }
  }

  lemma ShareKeepsInv(env: Env, members: set<PeerId>, node: Node, msg: WireMessage, msgType: MessageType, forward: bool,
                      lib: nat -> bool, c: Choices)
    requires AcceptanceInv(env, members, node) && env.localPeer in members
    requires ShareFits(env, node, msg, msgType, forward, lib, c)
    ensures AcceptanceInv(env, members, ProcessTSSMsg(env, node, msg, msgType, forward, c).node)
  {
    if ShareIsValid(env, msg) {
      if !msg.isBroadcast {
        UpdateKeepsInv(env, members, node, msg, c);
      } else {
        AfterShareKeepsInv(env, members, node, msg, msgType, forward);
        ApplyKeepsInv(env, members, AfterShare(env, node, msg, msgType, forward), CacheKey(msg), msgType, lib, c);
      }
    }
  }

  lemma VoteKeepsInv(env: Env, members: set<PeerId>, node: Node, peer: PeerId, key: Key, hash: Hash,
                     msgType: MessageType,
                     lib: nat -> bool, c: Choices)
    requires AcceptanceInv(env, members, node) && peer in members
    requires ChoicesFit(env, AfterVote(node, key, peer, hash), key, lib, c)
    ensures AcceptanceInv(env, members, ProcessVerMsg(env, node, peer, key, hash, msgType, c).node)
  {
    var voted := AfterVote(node, key, peer, hash);
    PutKeepsInv(env, members, node, key, voted.unconfirmed[key]);
    if voted.unconfirmed[key].msg.None? {
      RequestKeepsInv(env, members, voted, Quorum(env), key, msgType, c.second);
    } else {
      ApplyKeepsInv(env, members, voted, key, msgType, lib, c);
    }
  }

  lemma ForwardKeepsInv(env: Env, members: set<PeerId>, node: Node, hash: Hash, reqType: MessageType,
                        body: Option<WireMessage>, lib: nat -> bool, c: Choices)
    requires AcceptanceInv(env, members, node) && env.localPeer in members
    requires var taken := node.(requested := node.requested - {hash});
      body.Some? ==> ShareFits(env, taken, body.value, reqType, true, lib, c)
    ensures var taken := node.(requested := node.requested - {hash});
      && AcceptanceInv(env, members, taken)
      && (body.Some? ==> AcceptanceInv(env, members, ProcessTSSMsg(env, taken, body.value, reqType, true, c).node))
  {
    var taken := node.(requested := node.requested - {hash});
    InvOfSameCache(env, members, node, taken);
    if body.Some? {
      ShareKeepsInv(env, members, taken, body.value, reqType, true, lib, c);
    }
  }

  lemma NoticeKeepsInv(env: Env, members: set<PeerId>, node: Node, input: Input, c: Choices)
    requires AcceptanceInv(env, members, node) && (input.Undecodable? || input.TaskDone? || input.Query?)
    ensures AcceptanceInv(env, members, ProcessOneMessage(env, node, input, c).node)
  {
    var next := ProcessOneMessage(env, node, input, c).node;
    match input {
      case TaskDone(peer, done) => assert next == node.(finished := next.finished, closes := next.closes);
      case Query(_, _, _, _) => assert next == node.(outbox := next.outbox);
      case _ =>
    }
    InvOfSameCache(env, members, node, next);
  }

  lemma StepKeepsInv(env: Env, members: set<PeerId>, node: Node, input: Input, lib: nat -> bool, c: Choices)
    requires AcceptanceInv(env, members, node) && env.localPeer in members && InputFrom(members, input)
    requires InputFits(env, node, input, lib, c)
    ensures AcceptanceInv(env, members, ProcessOneMessage(env, node, input, c).node)
  {
    match input
    case TssShare(msgType, msg) => ShareKeepsInv(env, members, node, msg, msgType, false, lib, c);
    case VerMsg(peer, msgType, key, hash) =>
      if !AlreadyVoted(node, key, peer) {
        VoteKeepsInv(env, members, node, peer, key, hash, msgType, lib, c);
      }
    case Forward(hash, key, reqType, msg) =>
      if hash in node.requested {
        ForwardKeepsInv(env, members, node, hash, reqType, msg, lib, c);
      }
    case _ => NoticeKeepsInv(env, members, node, input, c);
  }

  // ------------------------------------------------------------ entries of a bulk

  /** The entry is for a message of this instance, and is a share of this round of it. */
  ghost predicate EntryIs(env: Env, from: PartyId, e: BulkEntry, r: W.RoundInfo) {
    && e.msgIdentifier in env.identifiers && r.msgIdentifier == e.msgIdentifier
    && env.round(e.wired, from, e.isBroadcast) == Some((r.index, r.roundMsg))
  }

  ghost predicate EntryOk(env: Env, from: PartyId, e: BulkEntry) {
    exists r :: EntryIs(env, from, e, r)
  }

  lemma ResolvedIs(env: Env, from: PartyId, entries: seq<BulkEntry>, i: nat, r: W.RoundInfo)
    requires i < |entries|
    ensures Resolve(env, from, entries)[i] == Some(r) <==> EntryIs(env, from, entries[i], r)
  {
  }

  lemma ResolvedIff(env: Env, from: PartyId, entries: seq<BulkEntry>, i: nat)
    requires i < |entries|
    ensures Resolve(env, from, entries)[i].Some? <==> EntryOk(env, from, entries[i])
  {
    if Resolve(env, from, entries)[i].Some? {
      ResolvedIs(env, from, entries, i, Resolve(env, from, entries)[i].value);
    }
    if r :| EntryIs(env, from, entries[i], r) {
      ResolvedIs(env, from, entries, i, r);
    }
  }

  /** Nothing is wrong with the message or any of its entries. */
  ghost predicate Sound(env: Env, msg: WireMessage) {
    match env.parse(msg.message)
    case None => false
    case Some(entries) => forall i :: 0 <= i < |entries| ==> EntryOk(env, msg.from, entries[i])
  }

  lemma SoundResolves(env: Env, msg: WireMessage)
    requires env.parse(msg.message).Some?
    ensures var entries := env.parse(msg.message).value;
      Sound(env, msg) <==> forall i :: 0 <= i < |entries| ==> Resolve(env, msg.from, entries)[i].Some?
  {
    var entries := env.parse(msg.message).value;
    forall i | 0 <= i < |entries|
      ensures Resolve(env, msg.from, entries)[i].Some? <==> EntryOk(env, msg.from, entries[i])
    {
      ResolvedIff(env, msg.from, entries, i);
    }
  }

  /** The first n entries are not broken. */
  ghost predicate SoundUpTo(env: Env, from: PartyId, entries: seq<BulkEntry>, n: nat)
    requires n <= |entries|
  {
    forall j :: 0 <= j < n ==> EntryOk(env, from, entries[j])
  }

  lemma SoundIsRead(env: Env, from: PartyId, entries: seq<BulkEntry>, n: nat)
    requires n <= |entries|
    ensures SoundUpTo(env, from, entries, n) <==> n <= W.Stop(Resolve(env, from, entries))
  {
    var rounds := Resolve(env, from, entries);
    var stop := W.Stop(rounds);
    forall j | 0 <= j < stop ensures EntryOk(env, from, entries[j]) {
      ResolvedIff(env, from, entries, j);
    }
    if stop < n {
      ResolvedIff(env, from, entries, stop);
    }
  }

  /** No two entries of the message are shares of one round of one message. */
  ghost predicate DistinctBulk(env: Env, msg: WireMessage) {
    match env.parse(msg.message)
    case None => true
    case Some(entries) => DistinctEntries(env, msg.from, entries)
  }

  ghost predicate DistinctEntries(env: Env, from: PartyId, entries: seq<BulkEntry>) {
    forall i, j, r :: 0 <= i < j < |entries| && EntryIs(env, from, entries[i], r) ==> !EntryIs(env, from, entries[j], r)
  }

  lemma DistinctResolves(env: Env, from: PartyId, entries: seq<BulkEntry>)
    requires DistinctEntries(env, from, entries)
    ensures W.Distinct(Resolve(env, from, entries))
  {
    var rounds := Resolve(env, from, entries);
    forall i, j | 0 <= i < j < |rounds| && rounds[i].Some? ensures rounds[i] != rounds[j] {
      ResolvedIs(env, from, entries, i, rounds[i].value);
      ResolvedIs(env, from, entries, j, rounds[i].value);
    }
  }

  // ------------------------------------------------------------ accepted shares and applications

  /** Each application of a share is recorded once in the accepted list of its round, whatever
      the schedule of the workers. */
  ghost predicate BooksMatch(accepted: W.AcceptedShares, applied: multiset<W.Share>) {
    forall s: W.Share :: applied[s] == multiset(W.Get(accepted, s.round))[s.from]
  }

  lemma AddShareKeepsBooks(accepted: W.AcceptedShares, applied: multiset<W.Share>, r: W.RoundInfo, from: PartyId)
    requires BooksMatch(accepted, applied)
    ensures BooksMatch(W.AddShare(accepted, r, from), applied + multiset{W.Share(r, from)})
  {
    forall s: W.Share
      ensures (applied + multiset{W.Share(r, from)})[s]
        == multiset(W.Get(W.AddShare(accepted, r, from), s.round))[s.from]
    {
      AddShareCounts(accepted, applied, r, from, s);
    }
  }

  lemma AddShareCounts(accepted: W.AcceptedShares, applied: multiset<W.Share>, r: W.RoundInfo, from: PartyId,
                       s: W.Share)
    requires applied[s] == multiset(W.Get(accepted, s.round))[s.from]
    ensures (applied + multiset{W.Share(r, from)})[s] == multiset(W.Get(W.AddShare(accepted, r, from), s.round))[s.from]
  {
    if s.round == r {
      assert W.Get(W.AddShare(accepted, r, from), r) == W.Get(accepted, r) + [from];
    }
  }

  lemma {:induction false} PoolKeepsBooks(b: W.Bulk, p: W.Pool, actions: seq<W.Action>, q: W.Pool)
    requires BooksMatch(p.accepted, p.applied)
    requires W.Run(b, p, actions, q)
    ensures BooksMatch(q.accepted, q.applied)
    decreases |actions|
  {
    if actions != [] {
      match actions[0] {
        case Scan =>
        case Finish(k) => AddShareKeepsBooks(p.accepted, p.applied, p.queue[k].round, b.from);
      }
      PoolKeepsBooks(b, W.Step(b, p, actions[0]), actions[1..], q);
    }
  }

  ghost predicate AppliedOnce(applied: multiset<W.Share>) {
    forall s: W.Share :: applied[s] <= 1
  }

  lemma CleanPoolAppliesOnce(b: W.Bulk, accepted: W.AcceptedShares, applied: multiset<W.Share>, q: W.Pool)
    requires BooksMatch(accepted, applied) && AppliedOnce(applied)
    requires W.Clean(b, accepted) && W.Outcome(b, accepted, applied, q)
    ensures AppliedOnce(q.applied)
  {
    W.Confluence(b, accepted, applied, q);
    W.CleanAppliesOnce(b, accepted, applied, q);
    forall s: W.Share ensures q.applied[s] <= 1 {
      if s.from == b.from {
        assert s == W.Share(s.round, b.from);
        if b.from in W.Get(accepted, s.round) {
          assert q.applied[s] <= applied[s];
        } else {
          assert multiset(W.Get(accepted, s.round))[b.from] == 0;
        }
      } else {
        OtherSenders(W.GoodRounds(b, accepted, W.Stop(b.rounds)), b.from, s);
      }
    }
  }

  lemma OtherSenders(done: set<W.RoundInfo>, from: PartyId, s: W.Share)
    requires s.from != from
    ensures W.Shares(done, from)[s] == 0
  {
    assert s !in (set r | r in done :: W.Share(r, from));
  }

  /** The message whose bulk this step hands to the local parties, if any. */
  ghost function ShareOf(env: Env, node: Node, input: Input): Option<WireMessage> {
    match input
    case TssShare(_, msg) => if msg.isBroadcast then CachedOr(node, CacheKey(msg), msg) else Some(msg)
    case VerMsg(_, _, key, _) => if key in node.unconfirmed then node.unconfirmed[key].msg else None
    case Forward(_, _, _, body) =>
      if body.None? || !body.value.isBroadcast then body else CachedOr(node, CacheKey(body.value), body.value)
    case _ => None
  }

  ghost function CachedOr(node: Node, key: Key, msg: WireMessage): Option<WireMessage> {
    if key in node.unconfirmed && node.unconfirmed[key].msg.Some? then node.unconfirmed[key].msg else Some(msg)
  }

  /** The bulk of this step has no two entries that would be applied as the same share. */
  ghost predicate CleanInput(env: Env, node: Node, input: Input, lib: nat -> bool) {
    match ShareOf(env, node, input)
    case None => true
    case Some(msg) => CleanBulk(env, node, msg, lib)
  }

  ghost predicate CleanBulk(env: Env, node: Node, msg: WireMessage, lib: nat -> bool) {
    match env.parse(msg.message)
    case None => true
    case Some(entries) => W.Clean(BulkOf(env, msg.from, entries, lib), node.accepted)
  }

  ghost predicate OnceInv(node: Node) {
    BooksMatch(node.accepted, node.applied) && AppliedOnce(node.applied)
  }

  /** `r` has the accepted shares of `node`, or those the workers made of the bulk of `msg`. */
  ghost predicate TookPool(env: Env, node: Node, msg: WireMessage, lib: nat -> bool, c: Choices, r: Node) {
    || (r.accepted == node.accepted && r.applied == node.applied)
    || (PoolFits(env, node, msg, lib, c) && env.parse(msg.message).Some?
        && r.accepted == c.pool.accepted && r.applied == c.pool.applied)
  }

  lemma ApplyTakesPool(env: Env, node: Node, key: Key, msgType: MessageType, lib: nat -> bool, c: Choices)
    requires key in node.unconfirmed && node.unconfirmed[key].msg.Some?
    requires node.unconfirmed[key].msg.value.from in env.parties
    requires PoolFits(env, node, node.unconfirmed[key].msg.value, lib, c)
    ensures TookPool(env, node, node.unconfirmed[key].msg.value, lib, c, ApplyShare(env, node, key, msgType, c).node)
  {
    var msg := node.unconfirmed[key].msg.value;
    var (after, verdict) := HashCheck(node.unconfirmed[key], env.parties[msg.from], Quorum(env), c.first);
    var put := PutItem(node, key, after);
    if verdict == Passed {
      var taken := Confirm(put, key, msg);
      assert taken.accepted == node.accepted && taken.applied == node.applied;
    } else {
      ConcludeKeepsRest(env, put, key, msg, msgType, verdict, c);
    }
  }

  /** The message handed to the local parties by a wire message. */
  ghost function Handed(node: Node, msg: WireMessage): WireMessage {
    if msg.isBroadcast then CachedOr(node, CacheKey(msg), msg).value else msg
  }

  lemma AfterShareKeepsRest(env: Env, node: Node, msg: WireMessage, msgType: MessageType, forward: bool)
    requires msg.from in env.parties && msg.isBroadcast
    ensures var after := AfterShare(env, node, msg, msgType, forward); var key := CacheKey(msg);
      && after.accepted == node.accepted && after.applied == node.applied
      && key in after.unconfirmed && after.unconfirmed[key].msg == CachedOr(node, key, msg)
  {
  }

  lemma ShareTakesPool(env: Env, node: Node, msg: WireMessage, msgType: MessageType, forward: bool,
                       lib: nat -> bool, c: Choices)
    requires MessagesKnown(env, node) && ShareFits(env, node, msg, msgType, forward, lib, c)
    ensures TookPool(env, node, Handed(node, msg), lib, c, ProcessTSSMsg(env, node, msg, msgType, forward, c).node)
  {
    if ShareIsValid(env, msg) && msg.isBroadcast {
      var after := AfterShare(env, node, msg, msgType, forward);
      AfterShareKeepsRest(env, node, msg, msgType, forward);
      ApplyTakesPool(env, after, CacheKey(msg), msgType, lib, c);
    }
  }

  ghost predicate StepTook(env: Env, node: Node, input: Input, lib: nat -> bool, c: Choices, r: Node) {
    match ShareOf(env, node, input)
    case None => r.accepted == node.accepted && r.applied == node.applied
    case Some(msg) => TookPool(env, node, msg, lib, c, r)
  }

  lemma VoteTakesPool(env: Env, node: Node, input: Input, lib: nat -> bool, c: Choices)
    requires MessagesKnown(env, node) && InputFits(env, node, input, lib, c) && input.VerMsg?
    ensures StepTook(env, node, input, lib, c, ProcessOneMessage(env, node, input, c).node)
  {
    var VerMsg(peer, msgType, key, hash) := input;
    if !AlreadyVoted(node, key, peer) {
      var voted := AfterVote(node, key, peer, hash);
      assert voted.accepted == node.accepted && voted.applied == node.applied;
      if voted.unconfirmed[key].msg.Some? {
        ApplyTakesPool(env, voted, key, msgType, lib, c);
      }
    }
  }

  lemma ForwardTakesPool(env: Env, node: Node, input: Input, lib: nat -> bool, c: Choices)
    requires MessagesKnown(env, node) && InputFits(env, node, input, lib, c) && input.Forward?
    ensures StepTook(env, node, input, lib, c, ProcessOneMessage(env, node, input, c).node)
  {
    if input.hash in node.requested && input.body.Some? {
      ShareTakesPool(env, node.(requested := node.requested - {input.hash}),
                    input.body.value, input.reqType, true, lib, c);
    }
  }

  lemma StepTakesPool(env: Env, node: Node, input: Input, lib: nat -> bool, c: Choices)
    requires MessagesKnown(env, node) && InputFits(env, node, input, lib, c)
    ensures StepTook(env, node, input, lib, c, ProcessOneMessage(env, node, input, c).node)
  {
    match input
    case TssShare(msgType, msg) => ShareTakesPool(env, node, msg, msgType, false, lib, c);
    case VerMsg(_, _, _, _) => VoteTakesPool(env, node, input, lib, c);
    case Forward(_, _, _, _) => ForwardTakesPool(env, node, input, lib, c);
    case _ =>
  }

  // ------------------------------------------------------------ where cached messages come from

  /** The wire message an input delivers. */
  ghost function InputMsg(input: Input): Option<WireMessage> {
    match input
    case TssShare(_, msg) => Some(msg)
    case Forward(_, _, _, body) => body
    case _ => None
  }

  ghost predicate InputIn(good: iset<WireMessage>, input: Input) {
    InputMsg(input).Some? ==> InputMsg(input).value in good
  }

  ghost predicate CachedIn(good: iset<WireMessage>, node: Node) {
    forall key :: key in node.unconfirmed && node.unconfirmed[key].msg.Some? ==> node.unconfirmed[key].msg.value in good
  }

  lemma ApplyKeepsCached(env: Env, good: iset<WireMessage>, node: Node, key: Key, msgType: MessageType, c: Choices)
    requires CachedIn(good, node)
    requires key in node.unconfirmed && node.unconfirmed[key].msg.Some?
    requires node.unconfirmed[key].msg.value.from in env.parties
    ensures CachedIn(good, ApplyShare(env, node, key, msgType, c).node)
  {
    var msg := node.unconfirmed[key].msg.value;
    var (after, verdict) := HashCheck(node.unconfirmed[key], env.parties[msg.from], Quorum(env), c.first);
    ConcludeTouchesItsKey(env, PutItem(node, key, after), key, msg, msgType, verdict, c);
  }

  lemma ShareKeepsCached(env: Env, good: iset<WireMessage>, node: Node, msg: WireMessage, msgType: MessageType,
                         forward: bool, c: Choices)
    requires MessagesKnown(env, node) && CachedIn(good, node) && msg in good
    ensures CachedIn(good, ProcessTSSMsg(env, node, msg, msgType, forward, c).node)
  {
    if ShareIsValid(env, msg) && msg.isBroadcast {
      var after := AfterShare(env, node, msg, msgType, forward);
      assert CachedIn(good, after);
      ApplyKeepsCached(env, good, after, CacheKey(msg), msgType, c);
    }
  }

  lemma VoteKeepsCached(env: Env, good: iset<WireMessage>, node: Node, peer: PeerId, key: Key, hash: Hash,
                        msgType: MessageType, c: Choices)
    requires MessagesKnown(env, node) && CachedIn(good, node)
    ensures CachedIn(good, ProcessVerMsg(env, node, peer, key, hash, msgType, c).node)
  {
    var voted := AfterVote(node, key, peer, hash);
    assert CachedIn(good, voted);
    if voted.unconfirmed[key].msg.Some? {
      ApplyKeepsCached(env, good, voted, key, msgType, c);
    } else {
      RequestKeepsRest(voted, Quorum(env), key, msgType, c.second);
    }
  }

  lemma StepKeepsCached(env: Env, good: iset<WireMessage>, node: Node, input: Input, c: Choices)
    requires MessagesKnown(env, node) && CachedIn(good, node) && InputIn(good, input)
    ensures CachedIn(good, ProcessOneMessage(env, node, input, c).node)
  {
    match input
    case TssShare(msgType, msg) => ShareKeepsCached(env, good, node, msg, msgType, false, c);
    case VerMsg(peer, msgType, key, hash) =>
      if !AlreadyVoted(node, key, peer) {
        VoteKeepsCached(env, good, node, peer, key, hash, msgType, c);
      }
    case Forward(hash, key, reqType, body) =>
      if hash in node.requested && body.Some? {
        ShareKeepsCached(env, good, node.(requested := node.requested - {hash}), body.value, reqType, true, c);
      }
    case _ =>
  }

  /** Whatever is handed to the local parties was cached before or is delivered now. */
  lemma HandedIn(env: Env, good: iset<WireMessage>, node: Node, input: Input)
    requires CachedIn(good, node) && InputIn(good, input)
    ensures ShareOf(env, node, input).Some? ==> ShareOf(env, node, input).value in good
  {
  }

  lemma PoolKeepsOnce(env: Env, node: Node, msg: WireMessage, lib: nat -> bool, c: Choices, r: Node)
    requires OnceInv(node) && CleanBulk(env, node, msg, lib) && TookPool(env, node, msg, lib, c, r)
    ensures OnceInv(r)
  {
    if r.accepted != node.accepted || r.applied != node.applied {
      var b := BulkOf(env, msg.from, env.parse(msg.message).value, lib);
      var actions :| W.Run(b, W.Start(node.accepted, node.applied), actions, c.pool);
      PoolKeepsBooks(b, W.Start(node.accepted, node.applied), actions, c.pool);
      CleanPoolAppliesOnce(b, node.accepted, node.applied, c.pool);
    }
  }

  lemma StepKeepsOnce(env: Env, node: Node, input: Input, lib: nat -> bool, c: Choices)
    requires MessagesKnown(env, node) && InputFits(env, node, input, lib, c)
    requires OnceInv(node) && CleanInput(env, node, input, lib)
    ensures OnceInv(ProcessOneMessage(env, node, input, c).node)
  {
    StepTakesPool(env, node, input, lib, c);
    if ShareOf(env, node, input).Some? {
      PoolKeepsOnce(env, node, ShareOf(env, node, input).value, lib, c, ProcessOneMessage(env, node, input, c).node);
    }
  }
}
