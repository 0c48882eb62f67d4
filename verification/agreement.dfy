/** Whole runs of a node, and when two nodes must have accepted the same broadcast share. */
module Agreement {
  import opened Types
  import opened Votes
  import opened Protocol
  import opened Runs
  import W = Workers

  datatype Trace = Trace(nodes: seq<Node>, inputs: seq<Input>, libs: seq<nat -> bool>)

  ghost predicate IsRun(env: Env, tr: Trace) {
    && |tr.nodes| == |tr.inputs| + 1 && |tr.libs| == |tr.inputs|
    && tr.nodes[0] == FRESH
    && forall i :: 0 <= i < |tr.inputs| ==> Next(env, tr.nodes[i], tr.inputs[i], tr.libs[i], tr.nodes[i + 1])
  }

  function Last(tr: Trace): Node
    requires tr.nodes != []
  {
    tr.nodes[|tr.nodes| - 1]
  }

  /** Every confirmation of the run comes from one of `members`, and so does the node itself. */
  ghost predicate RunFrom(env: Env, members: set<PeerId>, tr: Trace) {
    env.localPeer in members && forall i :: 0 <= i < |tr.inputs| ==> InputFrom(members, tr.inputs[i])
  }

  lemma ChoiceOf(env: Env, node: Node, input: Input, lib: nat -> bool, next: Node) returns (c: Choices)
    requires Next(env, node, input, lib, next)
    ensures MessagesKnown(env, node) && InputFits(env, node, input, lib, c)
    ensures next == ProcessOneMessage(env, node, input, c).node
  {
    c :| InputFits(env, node, input, lib, c) && next == ProcessOneMessage(env, node, input, c).node;
  }

  lemma {:induction false} AcceptanceAlways(env: Env, members: set<PeerId>, tr: Trace, i: nat)
    requires IsRun(env, tr) && RunFrom(env, members, tr) && i < |tr.nodes|
    ensures AcceptanceInv(env, members, tr.nodes[i])
  {
    if i > 0 {
      AcceptanceAlways(env, members, tr, i - 1);
      var c := ChoiceOf(env, tr.nodes[i - 1], tr.inputs[i - 1], tr.libs[i - 1], tr.nodes[i]);
      StepKeepsInv(env, members, tr.nodes[i - 1], tr.inputs[i - 1], tr.libs[i - 1], c);
    }
  }

  ghost predicate CleanRun(env: Env, tr: Trace)
    requires |tr.nodes| == |tr.inputs| + 1 && |tr.libs| == |tr.inputs|
  {
    forall i :: 0 <= i < |tr.inputs| ==> CleanInput(env, tr.nodes[i], tr.inputs[i], tr.libs[i])
  }

  /** With re-deliveries, late confirmations and forwarded copies in any order, no share is
      applied twice, and the accepted lists record exactly what was applied. */
  lemma {:induction false} SharesAppliedAtMostOnce(env: Env, tr: Trace, i: nat)
    requires IsRun(env, tr) && CleanRun(env, tr) && i < |tr.nodes|
    ensures AppliedOnce(tr.nodes[i].applied)
    ensures BooksMatch(tr.nodes[i].accepted, tr.nodes[i].applied)
  {
    if i > 0 {
      SharesAppliedAtMostOnce(env, tr, i - 1);
      var c := ChoiceOf(env, tr.nodes[i - 1], tr.inputs[i - 1], tr.libs[i - 1], tr.nodes[i]);
      StepKeepsOnce(env, tr.nodes[i - 1], tr.inputs[i - 1], tr.libs[i - 1], c);
    }
  }

  lemma AcceptedListsAreDuplicateFree(env: Env, tr: Trace, r: W.RoundInfo)
    requires IsRun(env, tr) && CleanRun(env, tr)
    ensures NoDuplicates(W.Get(Last(tr).accepted, r))
  {
    SharesAppliedAtMostOnce(env, tr, |tr.nodes| - 1);
    var s := W.Get(Last(tr).accepted, r);
    forall i, j | 0 <= i < j < |s| ensures s[i] != s[j] {
      assert Last(tr).applied[W.Share(r, s[i])] <= 1;
      if s[i] == s[j] {
        CountedTwice(s, i, j);
      }
    }
  }

  lemma CountedTwice(s: seq<PartyId>, i: nat, j: nat)
    requires i < j < |s| && s[i] == s[j]
    ensures multiset(s)[s[i]] >= 2
  {
    assert s == s[..i] + [s[i]] + s[i + 1..j] + [s[j]] + s[j + 1..];
  }

  // ------------------------------------------------------------ the end-of-task notification

  /** The channel is closed once all other parties have reported, and never a second time. */
  ghost predicate ClosesOk(env: Env, node: Node) {
    node.closes == if |node.finished| >= |env.parties| - 1 >= 1 then 1 else 0
  }

  lemma StepKeepsCloses(env: Env, node: Node, input: Input, c: Choices)
    requires ClosesOk(env, node) && MessagesKnown(env, node)
    ensures ClosesOk(env, ProcessOneMessage(env, node, input, c).node)
  {
    match input
    case TssShare(msgType, msg) => ShareKeepsFinished(env, node, msg, msgType, false, c);
    case VerMsg(peer, msgType, key, hash) => VoteKeepsFinished(env, node, peer, key, hash, msgType, c);
    case Forward(hash, key, reqType, body) =>
      if hash in node.requested && body.Some? {
        ShareKeepsFinished(env, node.(requested := node.requested - {hash}), body.value, reqType, true, c);
      }
    case _ =>
  }

  lemma ApplyKeepsFinished(env: Env, node: Node, key: Key, msgType: MessageType, c: Choices)
    requires key in node.unconfirmed && node.unconfirmed[key].msg.Some?
    requires node.unconfirmed[key].msg.value.from in env.parties
    ensures var r := ApplyShare(env, node, key, msgType, c).node; r.finished == node.finished && r.closes == node.closes
  {
    var msg := node.unconfirmed[key].msg.value;
    var (after, verdict) := HashCheck(node.unconfirmed[key], env.parties[msg.from], Quorum(env), c.first);
    ConcludeKeepsRest(env, PutItem(node, key, after), key, msg, msgType, verdict, c);
  }

  lemma VoteKeepsFinished(env: Env, node: Node, peer: PeerId, key: Key, hash: Hash, msgType: MessageType, c: Choices)
    requires MessagesKnown(env, node)
    ensures var r := ProcessVerMsg(env, node, peer, key, hash, msgType, c).node;
      r.finished == node.finished && r.closes == node.closes
  {
    var voted := AfterVote(node, key, peer, hash);
    if voted.unconfirmed[key].msg.Some? {
      ApplyKeepsFinished(env, voted, key, msgType, c);
    } else {
      RequestKeepsRest(voted, Quorum(env), key, msgType, c.second);
    }
  }

  lemma ShareKeepsFinished(env: Env, node: Node, msg: WireMessage, msgType: MessageType, forward: bool, c: Choices)
    requires MessagesKnown(env, node)
    ensures var r := ProcessTSSMsg(env, node, msg, msgType, forward, c).node;
      r.finished == node.finished && r.closes == node.closes
  {
    if ShareIsValid(env, msg) && msg.isBroadcast {
      ApplyKeepsFinished(env, AfterShare(env, node, msg, msgType, forward), CacheKey(msg), msgType, c);
    }
  }

  lemma {:induction false} TaskDoneClosedAtMostOnce(env: Env, tr: Trace, i: nat)
    requires IsRun(env, tr) && i < |tr.nodes|
    ensures ClosesOk(env, tr.nodes[i])
  {
    if i > 0 {
      TaskDoneClosedAtMostOnce(env, tr, i - 1);
      var c := ChoiceOf(env, tr.nodes[i - 1], tr.inputs[i - 1], tr.libs[i - 1], tr.nodes[i]);
      StepKeepsCloses(env, tr.nodes[i - 1], tr.inputs[i - 1], c);
    }
  }

  // ------------------------------------------------------------ votes are final

  /** While a key stays cached, no step changes the recorded vote of another peer; only the vote
      of the sender itself can disappear. */
  ghost predicate VotesKept(env: Env, before: Node, after: Node) {
    forall key, p :: key in before.unconfirmed && key in after.unconfirmed
        && p in before.unconfirmed[key].confirmed && p != env.localPeer
      ==> VoteKept(env, before.unconfirmed[key], after.unconfirmed[key], p)
  }

  ghost predicate VoteKept(env: Env, before: Item, after: Item, p: PeerId)
    requires p in before.confirmed
  {
    || (p in after.confirmed && after.confirmed[p] == before.confirmed[p])
    || (after.msg.Some? && after.msg.value.from in env.parties && p == env.parties[after.msg.value.from])
  }

  lemma ApplyKeepsVote(env: Env, node: Node, key: Key, msgType: MessageType, c: Choices, k: Key, p: PeerId)
    requires key in node.unconfirmed && node.unconfirmed[key].msg.Some?
    requires node.unconfirmed[key].msg.value.from in env.parties
    requires k in node.unconfirmed && p in node.unconfirmed[k].confirmed
    ensures var next := ApplyShare(env, node, key, msgType, c).node;
      k in next.unconfirmed ==> VoteKept(env, node.unconfirmed[k], next.unconfirmed[k], p)
  {
    var item := node.unconfirmed[key];
    var msg := item.msg.value;
    var (after, verdict) := HashCheck(item, env.parties[msg.from], Quorum(env), c.first);
    var put := PutItem(node, key, after);
    CheckRemovesOwner(item, env.parties[msg.from], Quorum(env), c.first);
    if verdict != HashFromOwner {
      ConcludeTouchesItsKey(env, put, key, msg, msgType, verdict, c);
    }
  }

  lemma CheckRemovesOwner(item: Item, owner: PeerId, t: int, pick: Hash)
    ensures var (after, verdict) := HashCheck(item, owner, t, pick);
      after == if verdict == HashFromOwner then item.(confirmed := item.confirmed - {owner}) else item
  {
  }

  lemma AfterShareKeepsVote(env: Env, node: Node, msg: WireMessage, msgType: MessageType, forward: bool, k: Key,
                            p: PeerId)
    requires msg.from in env.parties && k in node.unconfirmed && p in node.unconfirmed[k].confirmed
      && p != env.localPeer
    ensures var after := AfterShare(env, node, msg, msgType, forward);
      && k in after.unconfirmed && p in after.unconfirmed[k].confirmed
      && after.unconfirmed[k].confirmed[p] == node.unconfirmed[k].confirmed[p]
      && CacheKey(msg) in after.unconfirmed && after.unconfirmed[CacheKey(msg)].msg.Some?
  {
  }

  lemma ShareKeepsVote(env: Env, node: Node, msg: WireMessage, msgType: MessageType, forward: bool, c: Choices,
                       k: Key, p: PeerId)
    requires MessagesKnown(env, node)
    requires k in node.unconfirmed && p in node.unconfirmed[k].confirmed && p != env.localPeer
    ensures var next := ProcessTSSMsg(env, node, msg, msgType, forward, c).node;
      k in next.unconfirmed ==> VoteKept(env, node.unconfirmed[k], next.unconfirmed[k], p)
  {
    if ShareIsValid(env, msg) && msg.isBroadcast {
      var after := AfterShare(env, node, msg, msgType, forward);
      AfterShareKeepsVote(env, node, msg, msgType, forward, k, p);
      ApplyKeepsVote(env, after, CacheKey(msg), msgType, c, k, p);
    }
  }

  lemma VoteKeepsVote(env: Env, node: Node, peer: PeerId, key: Key, hash: Hash, msgType: MessageType, c: Choices,
                      k: Key, p: PeerId)
    requires MessagesKnown(env, node) && !AlreadyVoted(node, key, peer)
    requires k in node.unconfirmed && p in node.unconfirmed[k].confirmed
    ensures var next := ProcessVerMsg(env, node, peer, key, hash, msgType, c).node;
      k in next.unconfirmed ==> VoteKept(env, node.unconfirmed[k], next.unconfirmed[k], p)
  {
    var voted := AfterVote(node, key, peer, hash);
    assert k in voted.unconfirmed && p in voted.unconfirmed[k].confirmed
      && voted.unconfirmed[k].confirmed[p] == node.unconfirmed[k].confirmed[p];
    if voted.unconfirmed[key].msg.Some? {
      ApplyKeepsVote(env, voted, key, msgType, c, k, p);
    }
  }

  lemma VotesAreFinal(env: Env, node: Node, input: Input, lib: nat -> bool, next: Node)
    requires Next(env, node, input, lib, next)
    ensures VotesKept(env, node, next)
  {
    var c := ChoiceOf(env, node, input, lib, next);
    forall k, p | k in node.unconfirmed && k in next.unconfirmed
        && p in node.unconfirmed[k].confirmed && p != env.localPeer
      ensures VoteKept(env, node.unconfirmed[k], next.unconfirmed[k], p)
    {
      StepKeepsVote(env, node, input, c, k, p);
    }
  }

  lemma StepKeepsVote(env: Env, node: Node, input: Input, c: Choices, k: Key, p: PeerId)
    requires MessagesKnown(env, node)
    requires k in node.unconfirmed && p in node.unconfirmed[k].confirmed && p != env.localPeer
    ensures var next := ProcessOneMessage(env, node, input, c).node;
      k in next.unconfirmed ==> VoteKept(env, node.unconfirmed[k], next.unconfirmed[k], p)
  {
    match input
    case TssShare(msgType, msg) => ShareKeepsVote(env, node, msg, msgType, false, c, k, p);
    case VerMsg(peer, msgType, key, hash) =>
      if !AlreadyVoted(node, key, peer) {
        VoteKeepsVote(env, node, peer, key, hash, msgType, c, k, p);
      }
    case Forward(hash, key, reqType, body) =>
      if hash in node.requested && body.Some? {
        ShareKeepsVote(env, node.(requested := node.requested - {hash}), body.value, reqType, true, c, k, p);
      }
    case _ =>
  }

  // ------------------------------------------------------------ two nodes

  /** Distinct parties have distinct peers, and no party id contains the key separator. */
  ghost predicate PartiesOk(env: Env) {
    && (forall a, b :: a in env.parties && b in env.parties && env.parties[a] == env.parties[b] ==> a == b)
    && (forall a :: a in env.parties ==> '-' !in a)
  }

  lemma {:induction false} PeersAreAsManyAsParties(parties: map<PartyId, PeerId>)
    requires forall a, b :: a in parties && b in parties && parties[a] == parties[b] ==> a == b
    ensures |parties.Values| == |parties|
  {
    if parties != map[] {
      var a :| a in parties;
      var rest := parties - {a};
      PeersAreAsManyAsParties(rest);
      ValuesWithout(parties, a);
      assert parties[a] !in rest.Values;
      assert parties.Keys == rest.Keys + {a};
    } else {
      assert parties.Values == {};
    }
  }

  lemma ValuesWithout(parties: map<PartyId, PeerId>, a: PartyId)
    requires a in parties
    ensures parties.Values == (parties - {a}).Values + {parties[a]}
  {
    var rest := parties - {a};
    forall v | v in parties.Values ensures v in rest.Values + {parties[a]} {
      var x :| x in parties && parties[x] == v;
      assert x == a || x in rest;
    }
  }

  /** The cache key names the sender and the round. */
  lemma CacheKeyInjective(env: Env, m1: WireMessage, m2: WireMessage)
    requires PartiesOk(env) && m1.from in env.parties && m2.from in env.parties
    requires CacheKey(m1) == CacheKey(m2)
    ensures m1.from == m2.from && m1.roundInfo == m2.roundInfo
  {
    SeparatorSplits('-', m1.from, m2.from, m1.roundInfo, m2.roundInfo);
  }

  /** The peers that may confirm the hash of a message of `from`. */
  function VotersFor(env: Env, from: PartyId): set<PeerId>
    requires from in env.parties
  {
    env.parties.Values - {env.parties[from]}
  }

  lemma AcceptanceIsAccepted(env: Env, e: Acceptance)
    requires AcceptanceOk(env, e) && e.ballots.Keys <= env.parties.Values
    ensures Accepts(e.ballots, VotersFor(env, e.msg.from), Quorum(env), env.hash(e.msg.message))
  {
  }

  lemma VotersForSize(env: Env, from: PartyId)
    requires PartiesOk(env) && from in env.parties
    ensures |VotersFor(env, from)| == |env.parties| - 1
  {
    PeersAreAsManyAsParties(env.parties);
    assert env.parties[from] in env.parties.Values;
  }

  /** Two nodes of one instance: only the local peer differs. */
  ghost predicate SameInstance(a: Env, b: Env) {
    a.parties == b.parties && b == a.(localPeer := b.localPeer)
  }

  /** If the quorums are forced to intersect, two nodes that applied a broadcast under the same
      key applied the same bytes of the same sender, whatever either of them received before. */
  lemma NodesAgree(a: Env, b: Env, trA: Trace, trB: Trace, ea: Acceptance, eb: Acceptance, f: nat)
    requires SameInstance(a, b) && PartiesOk(a)
    requires Separates(a.hash, ea.msg.message, eb.msg.message)
    requires IsRun(a, trA) && RunFrom(a, a.parties.Values, trA) && ea in Last(trA).log
    requires IsRun(b, trB) && RunFrom(b, b.parties.Values, trB) && eb in Last(trB).log
    requires ea.key == eb.key
    requires |Conflicts(ea.ballots, eb.ballots)| <= f
    requires QuorumsIntersect(|a.parties|, f)
    ensures ea.msg.from == eb.msg.from && ea.msg.roundInfo == eb.msg.roundInfo
    ensures ea.msg.message == eb.msg.message
  {
    AcceptanceAlways(a, a.parties.Values, trA, |trA.nodes| - 1);
    AcceptanceAlways(b, b.parties.Values, trB, |trB.nodes| - 1);
    CacheKeyInjective(a, ea.msg, eb.msg);
    AcceptanceIsAccepted(a, ea);
    AcceptanceIsAccepted(b, eb);
    VotersForSize(a, ea.msg.from);
    QuorumIntersection(VotersFor(a, ea.msg.from), |a.parties|, f, ea.ballots, eb.ballots,
                       a.hash(ea.msg.message), a.hash(eb.msg.message));
  }
}
