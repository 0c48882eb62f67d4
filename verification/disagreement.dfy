/** Below the quorum-intersection bound disagreement is reachable: a sender that hands out two
    different broadcasts gets two nodes to apply different ones. */
module Disagreement {
  import opened Types
  import opened Votes
  import opened Protocol
  import opened Runs
  import opened Agreement
  import W = Workers

  function Append(tr: Trace, input: Input, lib: nat -> bool, next: Node): Trace {
    Trace(tr.nodes + [next], tr.inputs + [input], tr.libs + [lib])
  }

  lemma AppendIsRun(env: Env, members: set<PeerId>, tr: Trace, input: Input, lib: nat -> bool, next: Node)
    requires IsRun(env, tr) && RunFrom(env, members, tr)
    requires Next(env, Last(tr), input, lib, next) && InputFrom(members, input)
    ensures IsRun(env, Append(tr, input, lib, next)) && Last(Append(tr, input, lib, next)) == next
    ensures RunFrom(env, members, Append(tr, input, lib, next))
  {
    var r := Append(tr, input, lib, next);
    forall i | 0 <= i < |r.inputs| ensures Next(env, r.nodes[i], r.inputs[i], r.libs[i], r.nodes[i + 1]) {
      AppendStep(env, tr, input, lib, next, i);
    }
  }

  lemma AppendStep(env: Env, tr: Trace, input: Input, lib: nat -> bool, next: Node, i: nat)
    requires IsRun(env, tr) && Next(env, Last(tr), input, lib, next) && i <= |tr.inputs|
    ensures var r := Append(tr, input, lib, next);
      |r.nodes| == |r.inputs| + 1 == |r.libs| + 1 && Next(env, r.nodes[i], r.inputs[i], r.libs[i], r.nodes[i + 1])
  {
    var r := Append(tr, input, lib, next);
    if i < |tr.inputs| {
      assert r.nodes[i] == tr.nodes[i] && r.nodes[i + 1] == tr.nodes[i + 1];
    } else {
      assert r.nodes[i] == Last(tr) && r.nodes[i + 1] == next;
    }
  }

  function Restrict(ballots: Ballots, done: set<PeerId>): Ballots {
    map p | p in ballots && p in done :: ballots[p]
  }

  /** Confirmations of `done` were recorded under `key`, and nothing else happened. */
  ghost predicate Collected(key: Key, ballots: Ballots, done: set<PeerId>, node: Node) {
    && node.log == [] && node.stored == map[] && node.accepted == map[] && node.applied == multiset{}
    && (done == {} ==> node.unconfirmed == map[])
    && (done != {} ==>
        && node.unconfirmed.Keys == {key} && node.unconfirmed[key].msg == None
        && node.unconfirmed[key].confirmed == Restrict(ballots, done))
  }

  lemma RecordVote(env: Env, key: Key, ballots: Ballots, done: set<PeerId>, p: PeerId, node: Node)
      returns (input: Input, next: Node)
    requires done <= ballots.Keys && p in ballots && p !in done
    requires Collected(key, ballots, done, node)
    ensures Next(env, node, input, (i: nat) => true, next)
    ensures input == VerMsg(p, TSSKeySignVerMsg, key, ballots[p])
    ensures Collected(key, ballots, done + {p}, next)
  {
    input := VerMsg(p, TSSKeySignVerMsg, key, ballots[p]);
    var voted := AfterVote(node, key, p, ballots[p]);
    CollectedVote(key, ballots, done, p, node);
    assert p in voted.unconfirmed[key].confirmed;
    var h := ModeExists(voted.unconfirmed[key].confirmed);
    var c := Choices(h, h, W.Start(map[], multiset{}));
    next := RequestShare(voted, Quorum(env), key, TSSKeySignVerMsg, h);
    VoteSteps(env, node, p, key, ballots[p], c);
    assert Collected(key, ballots, done + {p}, next) by {
      RequestKeepsRest(voted, Quorum(env), key, TSSKeySignVerMsg, h);
    }
  }

  lemma CollectedVote(key: Key, ballots: Ballots, done: set<PeerId>, p: PeerId, node: Node)
    requires done <= ballots.Keys && p in ballots && p !in done
    requires Collected(key, ballots, done, node)
    ensures Collected(key, ballots, done + {p}, AfterVote(node, key, p, ballots[p]))
    ensures !AlreadyVoted(node, key, p)
  {
    assert AfterVote(node, key, p, ballots[p]).unconfirmed[key].confirmed == Restrict(ballots, done + {p});
  }

  /** A confirmation for a message that is not cached yet only requests it. */
  lemma VoteSteps(env: Env, node: Node, p: PeerId, key: Key, h: Hash, c: Choices)
    requires !AlreadyVoted(node, key, p)
    requires forall k :: k in node.unconfirmed ==> node.unconfirmed[k].msg.None?
    requires var item := AfterVote(node, key, p, h).unconfirmed[key];
      IsMode(item.confirmed, c.first) && IsMode(item.confirmed, c.second)
    ensures Next(env, node, VerMsg(p, TSSKeySignVerMsg, key, h), (i: nat) => true,
                 RequestShare(AfterVote(node, key, p, h), Quorum(env), key, TSSKeySignVerMsg, c.second))
  {
    var input := VerMsg(p, TSSKeySignVerMsg, key, h);
    assert AfterVote(node, key, p, h).unconfirmed[key].msg.None?;
    assert InputFits(env, node, input, (i: nat) => true, c);
    assert ProcessOneMessage(env, node, input, c).node
        == RequestShare(AfterVote(node, key, p, h), Quorum(env), key, TSSKeySignVerMsg, c.second);
  }

  /** Any set of confirmations can arrive before the message does. */
  lemma {:induction false} CollectVotes(env: Env, members: set<PeerId>, key: Key, ballots: Ballots, todo: set<PeerId>)
      returns (tr: Trace)
    requires todo <= ballots.Keys && todo <= members && env.localPeer in members
    ensures IsRun(env, tr) && RunFrom(env, members, tr) && Collected(key, ballots, todo, Last(tr))
    decreases todo
  {
    if todo == {} {
      tr := Trace([FRESH], [], []);
    } else {
      var p :| p in todo;
      var before := CollectVotes(env, members, key, ballots, todo - {p});
      var input, next := RecordVote(env, key, ballots, todo - {p}, p, Last(before));
      AppendIsRun(env, members, before, input, (i: nat) => true, next);
      tr := Append(before, input, (i: nat) => true, next);
      assert todo - {p} + {p} == todo;
    }
  }

  /** Rounds of the entries that the scan reads. */
  function RoundsRead(rounds: seq<Option<W.RoundInfo>>): set<W.RoundInfo> {
    set i | 0 <= i < W.Stop(rounds) :: rounds[i].value
  }

  /** The message is what peers are answered with, and each of its entries up to the first broken
      one was applied once and nothing else was, if they are for distinct rounds and identifiers. */
  ghost predicate Took(env: Env, node: Node, msg: WireMessage) {
    && node.stored == map[CacheKey(msg) := msg]
    && match env.parse(msg.message)
       case None => node.applied == multiset{}
       case Some(entries) =>
         DistinctEntries(env, msg.from, entries) ==>
           forall s: W.Share :: node.applied[s] == if IsRead(env, msg.from, entries, s) then 1 else 0
  }

  /** The share is an entry, and no entry up to it is broken. */
  ghost predicate IsRead(env: Env, from: PartyId, entries: seq<BulkEntry>, s: W.Share) {
    && s.from == from
    && exists i :: 0 <= i < |entries| && EntryIs(env, from, entries[i], s.round) && SoundUpTo(env, from, entries, i)
  }

  lemma ReadOnce(env: Env, from: PartyId, entries: seq<BulkEntry>, s: W.Share)
    ensures W.Shares(RoundsRead(Resolve(env, from, entries)), from)[s] == if IsRead(env, from, entries, s) then 1 else 0
  {
    var rounds := Resolve(env, from, entries);
    var shares := set r | r in RoundsRead(rounds) :: W.Share(r, from);
    if s in shares {
      var i :| 0 <= i < W.Stop(rounds) && rounds[i].value == s.round;
      ResolvedIs(env, from, entries, i, s.round);
      SoundIsRead(env, from, entries, i);
      assert IsRead(env, from, entries, s);
    }
    if IsRead(env, from, entries, s) {
      var i :| 0 <= i < |entries| && EntryIs(env, from, entries[i], s.round) && SoundUpTo(env, from, entries, i);
      ResolvedIs(env, from, entries, i, s.round);
      assert EntryOk(env, from, entries[i]);
      SoundIsRead(env, from, entries, i + 1);
      assert rounds[i].value == s.round;
      assert s.round in RoundsRead(rounds);
    }
  }

  lemma AllGood(b: W.Bulk, pool: W.Pool)
    requires W.Distinct(b.rounds) && (forall i :: b.ok(i)) && W.Outcome(b, map[], multiset{}, pool)
    ensures pool.applied == W.Shares(RoundsRead(b.rounds), b.from)
  {
    W.DistinctIsClean(b, map[]);
    W.Confluence(b, map[], multiset{}, pool);
    assert W.GoodRounds(b, map[], W.Stop(b.rounds)) == RoundsRead(b.rounds);
  }

  lemma PassedIsTaken(env: Env, node: Node, key: Key, msgType: MessageType, lib: nat -> bool, c: Choices)
    requires key in node.unconfirmed && node.unconfirmed[key].msg.Some?
    requires node.unconfirmed[key].msg.value.from in env.parties && CacheKey(node.unconfirmed[key].msg.value) == key
    requires HashCheck(node.unconfirmed[key], env.parties[node.unconfirmed[key].msg.value.from], Quorum(env),
                       c.first).1 == Passed
    requires node.stored == map[] && node.accepted == map[] && node.applied == multiset{}
    requires PoolFits(env, node, node.unconfirmed[key].msg.value, lib, c) && forall i :: lib(i)
    ensures Took(env, ApplyShare(env, node, key, msgType, c).node, node.unconfirmed[key].msg.value)
  {
    var msg := node.unconfirmed[key].msg.value;
    PassedUpdates(env, node, key, msgType, c);
    if env.parse(msg.message).Some? {
      var b := BulkOf(env, msg.from, env.parse(msg.message).value, lib);
      if DistinctEntries(env, msg.from, env.parse(msg.message).value) {
        DistinctResolves(env, msg.from, env.parse(msg.message).value);
        AllGood(b, c.pool);
        forall s { ReadOnce(env, msg.from, env.parse(msg.message).value, s); }
      }
    }
  }

  lemma PassedUpdates(env: Env, node: Node, key: Key, msgType: MessageType, c: Choices)
    requires key in node.unconfirmed && node.unconfirmed[key].msg.Some?
    requires node.unconfirmed[key].msg.value.from in env.parties
    requires HashCheck(node.unconfirmed[key], env.parties[node.unconfirmed[key].msg.value.from], Quorum(env),
                       c.first).1 == Passed
    ensures var (next, msg) := (ApplyShare(env, node, key, msgType, c).node, node.unconfirmed[key].msg.value);
      && next.stored == node.stored[key := msg]
      && next.applied == if env.parse(msg.message).Some? then c.pool.applied else node.applied
  {
  }

  lemma PassedHere(env: Env, node: Node, key: Key, msgType: MessageType, lib: nat -> bool, c: Choices)
    requires key in node.unconfirmed && node.unconfirmed[key].msg.Some?
    requires node.unconfirmed[key].msg.value.from in env.parties && CacheKey(node.unconfirmed[key].msg.value) == key
    requires HashCheck(node.unconfirmed[key], env.parties[node.unconfirmed[key].msg.value.from], Quorum(env),
                       c.first).1 == Passed
    requires node.log == [] && node.stored == map[] && node.accepted == map[] && node.applied == multiset{}
    requires PoolFits(env, node, node.unconfirmed[key].msg.value, lib, c) && forall i :: lib(i)
    ensures var (next, item) := (ApplyShare(env, node, key, msgType, c).node, node.unconfirmed[key]);
      next.log == [Acceptance(key, item.msg.value, item.confirmed)] && Took(env, next, item.msg.value)
  {
    PassedIsLogged(env, node, key, msgType, c);
    PassedIsTaken(env, node, key, msgType, lib, c);
  }

  lemma DeliverShare(env: Env, members: set<PeerId>, msg: WireMessage, ballots: Ballots,
                     node: Node) returns (next: Node)
    requires msg.isBroadcast && ShareIsValid(env, msg)
    requires env.localPeer in ballots && ballots[env.localPeer] == env.hash(msg.message)
    requires Accepts(ballots, VotersFor(env, msg.from), Quorum(env), env.hash(msg.message))
    requires Collected(CacheKey(msg), ballots, ballots.Keys - {env.localPeer}, node)
    ensures Next(env, node, TssShare(TSSKeySignMsg, msg), (i: nat) => true, next)
    ensures next.log == [Acceptance(CacheKey(msg), msg, ballots)] && Took(env, next, msg)
  {
    var lib := (i: nat) => true;
    var key, h := CacheKey(msg), env.hash(msg.message);
    var after := AfterShare(env, node, msg, TSSKeySignMsg, false);
    SharedCollected(env, msg, ballots, node);
    var pool := SomePool(env, after, msg, lib);
    var c := Choices(h, h, pool);
    assert ChoicesFit(env, after, key, lib, c);
    next := ApplyShare(env, after, key, TSSKeySignMsg, c).node;
    PassedHere(env, after, key, TSSKeySignMsg, lib, c);
    assert MessagesKnown(env, node);
    ShareSteps(env, node, msg, lib, c);
  }

  lemma SomePool(env: Env, node: Node, msg: WireMessage, lib: nat -> bool) returns (pool: W.Pool)
    ensures forall x, y :: PoolFits(env, node, msg, lib, Choices(x, y, pool))
  {
    pool := W.Start(map[], multiset{});
    if env.parse(msg.message).Some? {
      pool := W.OutcomeExists(BulkOf(env, msg.from, env.parse(msg.message).value, lib), node.accepted, node.applied);
    }
  }

  lemma SharedCollected(env: Env, msg: WireMessage, ballots: Ballots, node: Node)
    requires msg.from in env.parties
    requires env.localPeer in ballots && ballots[env.localPeer] == env.hash(msg.message)
    requires Collected(CacheKey(msg), ballots, ballots.Keys - {env.localPeer}, node)
    ensures SharedItem(env, node, msg) == Item(Some(msg), env.hash(msg.message), ballots)
  {
    var key, h := CacheKey(msg), env.hash(msg.message);
    WithOwnVote(ballots, env.localPeer);
    if ballots.Keys - {env.localPeer} == {} {
      assert key !in node.unconfirmed;
      assert Restrict(ballots, {}) == map[];
    } else {
      assert key in node.unconfirmed.Keys;
    }
  }

  lemma WithOwnVote(ballots: Ballots, p: PeerId)
    requires p in ballots
    ensures Restrict(ballots, ballots.Keys - {p})[p := ballots[p]] == ballots
  {
    assert Restrict(ballots, ballots.Keys - {p})[p := ballots[p]].Keys == ballots.Keys;
  }

  lemma PassedIsLogged(env: Env, node: Node, key: Key, msgType: MessageType, c: Choices)
    requires key in node.unconfirmed && node.unconfirmed[key].msg.Some?
    requires node.unconfirmed[key].msg.value.from in env.parties
    requires HashCheck(node.unconfirmed[key], env.parties[node.unconfirmed[key].msg.value.from], Quorum(env),
                       c.first).1 == Passed
    ensures ApplyShare(env, node, key, msgType, c).node.log
      == node.log + [Acceptance(key, node.unconfirmed[key].msg.value, node.unconfirmed[key].confirmed)]
  {
  }

  lemma ShareSteps(env: Env, node: Node, msg: WireMessage, lib: nat -> bool, c: Choices)
    requires msg.isBroadcast && ShareIsValid(env, msg) && MessagesKnown(env, node)
    requires ChoicesFit(env, AfterShare(env, node, msg, TSSKeySignMsg, false), CacheKey(msg), lib, c)
    ensures SharedItem(env, node, msg).msg.value.from in env.parties
    ensures Next(env, node, TssShare(TSSKeySignMsg, msg), lib,
                 ApplyShare(env, AfterShare(env, node, msg, TSSKeySignMsg, false), CacheKey(msg),
                            TSSKeySignMsg, c).node)
  {
    assert InputFits(env, node, TssShare(TSSKeySignMsg, msg), lib, c);
  }

  /** Every confirm list that passes the check, and that a node can have, leads some run of the
      node to apply the message on exactly that list. */
  lemma AcceptanceReachable(env: Env, msg: WireMessage, ballots: Ballots) returns (tr: Trace)
    requires msg.isBroadcast && ShareIsValid(env, msg)
    requires env.localPeer in ballots && ballots[env.localPeer] == env.hash(msg.message)
    requires Accepts(ballots, VotersFor(env, msg.from), Quorum(env), env.hash(msg.message))
    ensures IsRun(env, tr) && RunFrom(env, env.parties.Values, tr)
    ensures Last(tr).log == [Acceptance(CacheKey(msg), msg, ballots)] && Took(env, Last(tr), msg)
  {
    var members := env.parties.Values;
    var before := CollectVotes(env, members, CacheKey(msg), ballots, ballots.Keys - {env.localPeer});
    var next := DeliverShare(env, members, msg, ballots, Last(before));
    AppendIsRun(env, members, before, TssShare(TSSKeySignMsg, msg), (i: nat) => true, next);
    tr := Append(before, TssShare(TSSKeySignMsg, msg), (i: nat) => true, next);
  }

  /** The same for a given node of the instance. */
  lemma AcceptanceAt(env: Env, p: PeerId, msg: WireMessage, ballots: Ballots) returns (tr: Trace)
    requires msg.isBroadcast && ShareIsValid(env, msg)
    requires p in ballots && ballots[p] == env.hash(msg.message)
    requires Accepts(ballots, VotersFor(env, msg.from), Quorum(env), env.hash(msg.message))
    ensures var at := env.(localPeer := p);
      && IsRun(at, tr) && RunFrom(at, env.parties.Values, tr)
      && Acceptance(CacheKey(msg), msg, ballots) in Last(tr).log && Took(at, Last(tr), msg)
  {
    tr := AcceptanceReachable(env.(localPeer := p), msg, ballots);
  }

  /** The converse of `NodesAgree`. With three parties or more the nodes are two nodes, neither is
      the sender, and neither is recorded with different hashes. */
  lemma NodesDisagree(env: Env, m1: WireMessage, m2: WireMessage, f: nat)
      returns (a: Env, b: Env, trA: Trace, trB: Trace, ea: Acceptance, eb: Acceptance)
    requires PartiesOk(env) && f <= |env.parties| - 1
    requires !QuorumsIntersect(|env.parties|, f)
    requires m1.isBroadcast && m2.isBroadcast && m1.from == m2.from && m1.roundInfo == m2.roundInfo
    requires ShareIsValid(env, m1) && ShareIsValid(env, m2)
    requires env.hash(m1.message) != env.hash(m2.message)
    ensures SameInstance(env, a) && SameInstance(env, b)
    ensures IsRun(a, trA) && RunFrom(a, a.parties.Values, trA) && ea in Last(trA).log
    ensures IsRun(b, trB) && RunFrom(b, b.parties.Values, trB) && eb in Last(trB).log
    ensures ea.key == eb.key && |Conflicts(ea.ballots, eb.ballots)| <= f
    ensures ea.msg == m1 && eb.msg == m2 && Took(a, Last(trA), m1) && Took(b, Last(trB), m2)
    ensures |env.parties| >= 3 ==>
      && a.localPeer != b.localPeer
      && {a.localPeer, b.localPeer} !! Conflicts(ea.ballots, eb.ballots) + {env.parties[m1.from]}
  {
    VotersForSize(env, m1.from);
    var ba, bb, pa, pb := DisagreementWitness(VotersFor(env, m1.from), |env.parties|, f,
                                              env.hash(m1.message), env.hash(m2.message));
    a, b := env.(localPeer := pa), env.(localPeer := pb);
    ea, eb := Acceptance(CacheKey(m1), m1, ba), Acceptance(CacheKey(m2), m2, bb);
    trA := AcceptanceAt(env, pa, m1, ba);
    trB := AcceptanceAt(env, pb, m2, bb);
  }
}
