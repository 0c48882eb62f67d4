/** Where the recorded state of a node comes from: every applied share goes back to a confirmed
    broadcast or a verified unicast, every recorded vote to a message that was received. */
module Provenance {
  import opened Types
  import opened Votes
  import opened Protocol
  import opened Runs
  import opened Agreement
  import W = Workers

  lemma {:induction false} CachedAlways(env: Env, good: iset<WireMessage>, tr: Trace, i: nat)
    requires IsRun(env, tr) && i < |tr.nodes|
    requires forall j :: 0 <= j < |tr.inputs| ==> InputIn(good, tr.inputs[j])
    ensures CachedIn(good, tr.nodes[i])
  {
    if i > 0 {
      CachedAlways(env, good, tr, i - 1);
      var c := ChoiceOf(env, tr.nodes[i - 1], tr.inputs[i - 1], tr.libs[i - 1], tr.nodes[i]);
      StepKeepsCached(env, good, tr.nodes[i - 1], tr.inputs[i - 1], c);
    }
  }

  // ------------------------------------------------------------ runs whose bulks have distinct entries

  ghost function DistinctBulks(env: Env): iset<WireMessage> {
    iset msg: WireMessage | DistinctBulk(env, msg)
  }

  /** A condition on the received messages alone. */
  ghost predicate DistinctRun(env: Env, tr: Trace) {
    forall i :: 0 <= i < |tr.inputs| ==> InputIn(DistinctBulks(env), tr.inputs[i])
  }

  lemma DistinctRunIsClean(env: Env, tr: Trace)
    requires IsRun(env, tr) && DistinctRun(env, tr)
    ensures CleanRun(env, tr)
  {
    forall i | 0 <= i < |tr.inputs| ensures CleanInput(env, tr.nodes[i], tr.inputs[i], tr.libs[i]) {
      CachedAlways(env, DistinctBulks(env), tr, i);
      HandedIn(env, DistinctBulks(env), tr.nodes[i], tr.inputs[i]);
      var handed := ShareOf(env, tr.nodes[i], tr.inputs[i]);
      if handed.Some? && env.parse(handed.value.message).Some? {
        DistinctResolves(env, handed.value.from, env.parse(handed.value.message).value);
        W.DistinctIsClean(BulkOf(env, handed.value.from, env.parse(handed.value.message).value, tr.libs[i]),
                          tr.nodes[i].accepted);
      }
    }
  }

  /** If every received bulk has distinct entries, no share is ever applied twice and no accepted
      list names a party twice, whatever the library decides. */
  lemma DistinctRunsApplyOnce(env: Env, tr: Trace, r: W.RoundInfo)
    requires IsRun(env, tr) && DistinctRun(env, tr)
    ensures AppliedOnce(Last(tr).applied)
    ensures NoDuplicates(W.Get(Last(tr).accepted, r))
  {
    DistinctRunIsClean(env, tr);
    SharesAppliedAtMostOnce(env, tr, |tr.nodes| - 1);
    AcceptedListsAreDuplicateFree(env, tr, r);
  }

  // ------------------------------------------------------------ applied shares

  /** Some entry of the message is this share. */
  ghost predicate CarriesShare(env: Env, msg: WireMessage, s: W.Share) {
    match env.parse(msg.message)
    case None => false
    case Some(entries) =>
      s.from == msg.from && exists i :: 0 <= i < |entries| && EntryIs(env, msg.from, entries[i], s.round)
  }

  ghost predicate QueueOf(b: W.Bulk, queue: seq<W.Job>) {
    forall k :: 0 <= k < |queue| ==> Some(queue[k].round) in b.rounds
  }

  lemma {:induction false} PoolAddsEntries(b: W.Bulk, p: W.Pool, actions: seq<W.Action>, q: W.Pool, s: W.Share)
    requires W.Run(b, p, actions, q) && QueueOf(b, p.queue)
    ensures q.applied[s] > p.applied[s] ==> s.from == b.from && Some(s.round) in b.rounds
    decreases |actions|
  {
    if actions != [] {
      var next := W.Step(b, p, actions[0]);
      StepAddsEntries(b, p, actions[0], s);
      PoolAddsEntries(b, next, actions[1..], q, s);
    }
  }

  lemma StepAddsEntries(b: W.Bulk, p: W.Pool, a: W.Action, s: W.Share)
    requires W.Enabled(b, p, a) && QueueOf(b, p.queue)
    ensures QueueOf(b, W.Step(b, p, a).queue)
    ensures W.Step(b, p, a).applied[s] > p.applied[s] ==> s.from == b.from && Some(s.round) in b.rounds
  {
    match a
    case Scan => assert b.rounds[p.next] in b.rounds;
    case Finish(k) =>
  }

  lemma TookCarries(env: Env, node: Node, msg: WireMessage, lib: nat -> bool, c: Choices, r: Node, s: W.Share)
    requires TookPool(env, node, msg, lib, c, r) && r.applied[s] > node.applied[s]
    ensures CarriesShare(env, msg, s)
  {
    var b := BulkOf(env, msg.from, env.parse(msg.message).value, lib);
    var actions :| W.Run(b, W.Start(node.accepted, node.applied), actions, c.pool);
    PoolAddsEntries(b, W.Start(node.accepted, node.applied), actions, c.pool, s);
    var i :| 0 <= i < |b.rounds| && b.rounds[i] == Some(s.round);
    ResolvedIs(env, msg.from, env.parse(msg.message).value, i, s.round);
  }

  /** Only a passed check is logged, and only a logged message reaches the local parties. */
  lemma ConcludeLogs(env: Env, node: Node, key: Key, msg: WireMessage, msgType: MessageType, verdict: Verdict,
                     c: Choices)
    requires key in node.unconfirmed && msg.from in env.parties
    ensures var next := Conclude(env, node, key, msg, msgType, verdict, c).node;
      if verdict == Passed then next.log == node.log + [Acceptance(key, msg, node.unconfirmed[key].confirmed)]
      else next.log == node.log && next.applied == node.applied
  {
    ConcludeKeepsRest(env, node, key, msg, msgType, verdict, c);
    if verdict == NotMajority {
      RequestKeepsRest(PutItem(node, key, node.unconfirmed[key].(msg := None)), Quorum(env), key, msgType, c.second);
    }
  }

  /** The log gained nothing and neither did the local parties, or it gained this message. */
  ghost predicate Logged(node: Node, next: Node, msg: WireMessage) {
    || (next.log == node.log && next.applied == node.applied)
    || (|next.log| == |node.log| + 1 && next.log[..|node.log|] == node.log && next.log[|node.log|].msg == msg)
  }

  lemma ApplyLogs(env: Env, node: Node, key: Key, msgType: MessageType, c: Choices)
    requires key in node.unconfirmed && node.unconfirmed[key].msg.Some?
    requires node.unconfirmed[key].msg.value.from in env.parties
    ensures Logged(node, ApplyShare(env, node, key, msgType, c).node, node.unconfirmed[key].msg.value)
  {
    var msg := node.unconfirmed[key].msg.value;
    var (after, verdict) := HashCheck(node.unconfirmed[key], env.parties[msg.from], Quorum(env), c.first);
    ConcludeLogs(env, PutItem(node, key, after), key, msg, msgType, verdict, c);
  }

  /** What the step handed to the local parties, if anything, is logged or a verified unicast. */
  ghost predicate StepLogs(env: Env, node: Node, input: Input, next: Node) {
    match ShareOf(env, node, input)
    case None => next.log == node.log && next.applied == node.applied
    case Some(msg) =>
      || Logged(node, next, msg)
      || (next.log == node.log && !msg.isBroadcast && ShareIsValid(env, msg) && InputMsg(input) == Some(msg))
  }

  lemma AfterShareKeepsLog(env: Env, node: Node, msg: WireMessage, msgType: MessageType, forward: bool)
    requires msg.from in env.parties
    ensures var after := AfterShare(env, node, msg, msgType, forward);
      after.log == node.log && after.applied == node.applied
  {
  }

  lemma ShareLogs(env: Env, node: Node, msg: WireMessage, msgType: MessageType, forward: bool, c: Choices)
    requires MessagesKnown(env, node)
    ensures var next := ProcessTSSMsg(env, node, msg, msgType, forward, c).node;
      || Logged(node, next, Handed(node, msg))
      || (next.log == node.log && !msg.isBroadcast && ShareIsValid(env, msg))
  {
    if ShareIsValid(env, msg) && msg.isBroadcast {
      var after := AfterShare(env, node, msg, msgType, forward);
      AfterShareKeepsLog(env, node, msg, msgType, forward);
      AfterShareKeepsRest(env, node, msg, msgType, forward);
      ApplyLogs(env, after, CacheKey(msg), msgType, c);
    }
  }

  lemma VoteLogs(env: Env, node: Node, peer: PeerId, key: Key, hash: Hash, msgType: MessageType, c: Choices)
    requires MessagesKnown(env, node) && !AlreadyVoted(node, key, peer)
    ensures var next := ProcessVerMsg(env, node, peer, key, hash, msgType, c).node;
      if key in node.unconfirmed && node.unconfirmed[key].msg.Some?
      then Logged(node, next, node.unconfirmed[key].msg.value)
      else next.log == node.log && next.applied == node.applied
  {
    var voted := AfterVote(node, key, peer, hash);
    if voted.unconfirmed[key].msg.Some? {
      ApplyLogs(env, voted, key, msgType, c);
    } else {
      RequestKeepsRest(voted, Quorum(env), key, msgType, c.second);
    }
  }

  lemma StepIsLogged(env: Env, node: Node, input: Input, c: Choices)
    requires MessagesKnown(env, node)
    ensures StepLogs(env, node, input, ProcessOneMessage(env, node, input, c).node)
  {
    match input
    case TssShare(msgType, msg) => ShareLogs(env, node, msg, msgType, false, c);
    case VerMsg(peer, msgType, key, hash) =>
      if !AlreadyVoted(node, key, peer) {
        VoteLogs(env, node, peer, key, hash, msgType, c);
      }
    case Forward(hash, key, reqType, body) =>
      if hash in node.requested && body.Some? {
        ShareLogs(env, node.(requested := node.requested - {hash}), body.value, reqType, true, c);
      }
    case _ =>
  }

  ghost predicate UnicastCarries(env: Env, input: Input, s: W.Share) {
    && InputMsg(input).Some?
    && !InputMsg(input).value.isBroadcast && ShareIsValid(env, InputMsg(input).value)
    && CarriesShare(env, InputMsg(input).value, s)
  }

  /** The share is an entry of a broadcast of its sender that passed the hash check, or of a
      verified unicast message of its sender. */
  ghost predicate Sourced(env: Env, tr: Trace, i: nat, s: W.Share)
    requires i < |tr.nodes| && i <= |tr.inputs|
  {
    || (exists k :: 0 <= k < |tr.nodes[i].log| && LogCarries(env, tr.nodes[i].log[k], s))
    || (exists j :: 0 <= j < i && UnicastCarries(env, tr.inputs[j], s))
  }

  ghost predicate LogCarries(env: Env, e: Acceptance, s: W.Share) {
    AcceptanceOk(env, e) && CarriesShare(env, e.msg, s)
  }

  lemma StepKeepsSources(env: Env, members: set<PeerId>, tr: Trace, i: nat, s: W.Share)
    requires IsRun(env, tr) && i < |tr.inputs|
    requires LogOk(env, members, tr.nodes[i + 1])
    requires tr.nodes[i].applied[s] > 0 ==> Sourced(env, tr, i, s)
    ensures tr.nodes[i + 1].applied[s] > 0 ==> Sourced(env, tr, i + 1, s)
  {
    var node, next, input := tr.nodes[i], tr.nodes[i + 1], tr.inputs[i];
    var c := ChoiceOf(env, node, input, tr.libs[i], next);
    StepTakesPool(env, node, input, tr.libs[i], c);
    StepIsLogged(env, node, input, c);
    if node.applied[s] > 0 {
      SourcesStay(env, tr, i, s);
    } else if next.applied[s] > 0 {
      var msg := ShareOf(env, node, input).value;
      TookCarries(env, node, msg, tr.libs[i], c, next, s);
      if |next.log| == |node.log| + 1 && next.log[|node.log|].msg == msg {
        assert next.log[|node.log|] in next.log;
        assert LogCarries(env, next.log[|node.log|], s);
      } else {
        assert UnicastCarries(env, tr.inputs[i], s);
      }
    }
  }

  lemma SourcesStay(env: Env, tr: Trace, i: nat, s: W.Share)
    requires |tr.nodes| == |tr.inputs| + 1 && i < |tr.inputs| && Sourced(env, tr, i, s)
    requires StepLogs(env, tr.nodes[i], tr.inputs[i], tr.nodes[i + 1])
    ensures Sourced(env, tr, i + 1, s)
  {
    var before, after := tr.nodes[i].log, tr.nodes[i + 1].log;
    assert |before| <= |after| && after[..|before|] == before;
    if k :| 0 <= k < |before| && LogCarries(env, before[k], s) {
      assert after[k] == after[..|before|][k];
      assert LogCarries(env, after[k], s);
    }
  }

  /** Nothing reaches the local parties in any run but entries of confirmed broadcasts and of
      verified unicasts, each as a share of the party that sent it. */
  lemma {:induction false} AppliedSharesAreSourced(env: Env, members: set<PeerId>, tr: Trace, i: nat, s: W.Share)
    requires IsRun(env, tr) && RunFrom(env, members, tr) && i < |tr.nodes|
    ensures tr.nodes[i].applied[s] > 0 ==> Sourced(env, tr, i, s)
  {
    if i > 0 {
      AppliedSharesAreSourced(env, members, tr, i - 1, s);
      AcceptanceAlways(env, members, tr, i);
      StepKeepsSources(env, members, tr, i - 1, s);
    }
  }

  lemma PoolKeepsBooksOf(env: Env, node: Node, msg: WireMessage, lib: nat -> bool, c: Choices, r: Node)
    requires BooksMatch(node.accepted, node.applied) && TookPool(env, node, msg, lib, c, r)
    ensures BooksMatch(r.accepted, r.applied)
  {
    if r.accepted != node.accepted || r.applied != node.applied {
      var b := BulkOf(env, msg.from, env.parse(msg.message).value, lib);
      var actions :| W.Run(b, W.Start(node.accepted, node.applied), actions, c.pool);
      PoolKeepsBooks(b, W.Start(node.accepted, node.applied), actions, c.pool);
    }
  }

  lemma {:induction false} BooksAlwaysMatch(env: Env, tr: Trace, i: nat)
    requires IsRun(env, tr) && i < |tr.nodes|
    ensures BooksMatch(tr.nodes[i].accepted, tr.nodes[i].applied)
  {
    if i == 0 {
      FreshBooksMatch();
    } else {
      BooksAlwaysMatch(env, tr, i - 1);
      RunStep(env, tr, i - 1);
      StepKeepsBooks(env, tr.nodes[i - 1], tr.inputs[i - 1], tr.libs[i - 1], tr.nodes[i]);
    }
  }

  lemma FreshBooksMatch()
    ensures BooksMatch(FRESH.accepted, FRESH.applied)
  {
  }

  lemma RunStep(env: Env, tr: Trace, i: nat)
    requires IsRun(env, tr) && i < |tr.inputs|
    ensures Next(env, tr.nodes[i], tr.inputs[i], tr.libs[i], tr.nodes[i + 1])
  {
  }

  lemma StepKeepsBooks(env: Env, node: Node, input: Input, lib: nat -> bool, next: Node)
    requires Next(env, node, input, lib, next) && BooksMatch(node.accepted, node.applied)
    ensures BooksMatch(next.accepted, next.applied)
  {
    var c := ChoiceOf(env, node, input, lib, next);
    StepTakesPool(env, node, input, lib, c);
    if ShareOf(env, node, input).Some? {
      PoolKeepsBooksOf(env, node, ShareOf(env, node, input).value, lib, c, next);
    }
  }

  /** In every run a party is on an accepted list only for a share that it sent. */
  lemma AcceptedSharesAreSourced(env: Env, members: set<PeerId>, tr: Trace, r: W.RoundInfo, p: PartyId)
    requires IsRun(env, tr) && RunFrom(env, members, tr) && p in W.Get(Last(tr).accepted, r)
    ensures Sourced(env, tr, |tr.inputs|, W.Share(r, p))
  {
    BooksAlwaysMatch(env, tr, |tr.inputs|);
    AppliedSharesAreSourced(env, members, tr, |tr.inputs|, W.Share(r, p));
    assert Last(tr).applied[W.Share(r, p)] == multiset(W.Get(Last(tr).accepted, r))[p];
  }

  // ------------------------------------------------------------ votes

  /** A peer stands for a hash under a cache key. */
  datatype Report = Report(key: Key, peer: PeerId, hash: Hash)

  /** The input makes the report: a confirmation of that peer, or a verified broadcast that this
      node hashes itself. */
  ghost predicate Makes(env: Env, input: Input, v: Report) {
    || (input.VerMsg? && v == Report(input.key, input.peer, input.hash))
    || (v.peer == env.localPeer && InputMsg(input).Some? && HashedBy(env, InputMsg(input).value, v))
  }

  ghost predicate HashedBy(env: Env, msg: WireMessage, v: Report) {
    msg.isBroadcast && ShareIsValid(env, msg) && v == Report(CacheKey(msg), env.localPeer, env.hash(msg.message))
  }

  ghost predicate BallotsIn(reports: iset<Report>, key: Key, ballots: Ballots) {
    forall p :: p in ballots ==> Report(key, p, ballots[p]) in reports
  }

  ghost predicate CacheIn(reports: iset<Report>, node: Node) {
    forall key :: key in node.unconfirmed ==> BallotsIn(reports, key, node.unconfirmed[key].confirmed)
  }

  ghost predicate LogIn(reports: iset<Report>, node: Node) {
    forall k :: 0 <= k < |node.log| ==> BallotsIn(reports, node.log[k].key, node.log[k].ballots)
  }

  ghost predicate ReportedIn(reports: iset<Report>, node: Node) {
    CacheIn(reports, node) && LogIn(reports, node)
  }

  lemma PutKeepsReports(reports: iset<Report>, node: Node, key: Key, item: Item)
    requires ReportedIn(reports, node) && BallotsIn(reports, key, item.confirmed)
    ensures ReportedIn(reports, PutItem(node, key, item))
  {
  }

  lemma ConcludeKeepsReports(env: Env, reports: iset<Report>, node: Node, key: Key, msg: WireMessage,
                             msgType: MessageType, verdict: Verdict, c: Choices)
    requires key in node.unconfirmed && msg.from in env.parties && ReportedIn(reports, node)
    ensures ReportedIn(reports, Conclude(env, node, key, msg, msgType, verdict, c).node)
  {
    ConcludeTouchesItsKey(env, node, key, msg, msgType, verdict, c);
    ConcludeLogs(env, node, key, msg, msgType, verdict, c);
    var next := Conclude(env, node, key, msg, msgType, verdict, c).node;
    assert CacheIn(reports, next);
    if verdict == Passed {
      assert BallotsIn(reports, key, node.unconfirmed[key].confirmed);
    }
  }

  lemma ApplyKeepsReports(env: Env, reports: iset<Report>, node: Node, key: Key, msgType: MessageType, c: Choices)
    requires key in node.unconfirmed && node.unconfirmed[key].msg.Some?
    requires node.unconfirmed[key].msg.value.from in env.parties && ReportedIn(reports, node)
    ensures ReportedIn(reports, ApplyShare(env, node, key, msgType, c).node)
  {
    var item := node.unconfirmed[key];
    var msg := item.msg.value;
    var (after, verdict) := HashCheck(item, env.parties[msg.from], Quorum(env), c.first);
    CheckRemovesOwner(item, env.parties[msg.from], Quorum(env), c.first);
    assert BallotsIn(reports, key, item.confirmed);
    PutKeepsReports(reports, node, key, after);
    ConcludeKeepsReports(env, reports, PutItem(node, key, after), key, msg, msgType, verdict, c);
  }

  lemma VoteKeepsReports(env: Env, reports: iset<Report>, node: Node, peer: PeerId, key: Key, hash: Hash,
                         msgType: MessageType, c: Choices)
    requires MessagesKnown(env, node) && ReportedIn(reports, node) && Report(key, peer, hash) in reports
    ensures ReportedIn(reports, ProcessVerMsg(env, node, peer, key, hash, msgType, c).node)
  {
    var voted := AfterVote(node, key, peer, hash);
    assert key in node.unconfirmed ==> BallotsIn(reports, key, node.unconfirmed[key].confirmed);
    PutKeepsReports(reports, node, key, voted.unconfirmed[key]);
    if voted.unconfirmed[key].msg.Some? {
      ApplyKeepsReports(env, reports, voted, key, msgType, c);
    } else {
      RequestKeepsRest(voted, Quorum(env), key, msgType, c.second);
    }
  }

  lemma AfterShareKeepsReports(env: Env, reports: iset<Report>, node: Node, msg: WireMessage, msgType: MessageType,
                               forward: bool)
    requires ReportedIn(reports, node) && ShareIsValid(env, msg) && msg.isBroadcast
    requires forall v :: HashedBy(env, msg, v) ==> v in reports
    ensures ReportedIn(reports, AfterShare(env, node, msg, msgType, forward))
  {
    var key := CacheKey(msg);
    var told := if forward then node else TellPeers(env, node, msg, msgType);
    assert told.unconfirmed == node.unconfirmed && told.log == node.log;
    assert HashedBy(env, msg, Report(key, env.localPeer, env.hash(msg.message)));
    assert key in node.unconfirmed ==> BallotsIn(reports, key, node.unconfirmed[key].confirmed);
    PutKeepsReports(reports, told, key, SharedItem(env, node, msg));
  }

  lemma ShareKeepsReports(env: Env, reports: iset<Report>, node: Node, msg: WireMessage, msgType: MessageType,
                          forward: bool, c: Choices)
    requires MessagesKnown(env, node) && ReportedIn(reports, node)
    requires forall v :: HashedBy(env, msg, v) ==> v in reports
    ensures ReportedIn(reports, ProcessTSSMsg(env, node, msg, msgType, forward, c).node)
  {
    if ShareIsValid(env, msg) && msg.isBroadcast {
      AfterShareKeepsReports(env, reports, node, msg, msgType, forward);
      AfterShareKeepsRest(env, node, msg, msgType, forward);
      ApplyKeepsReports(env, reports, AfterShare(env, node, msg, msgType, forward), CacheKey(msg), msgType, c);
    } else if ShareIsValid(env, msg) {
      var next := UpdateLocal(env, node, msg, c).node;
      assert next.unconfirmed == node.unconfirmed && next.log == node.log;
    }
  }

  lemma StepKeepsReports(env: Env, reports: iset<Report>, node: Node, input: Input, c: Choices)
    requires MessagesKnown(env, node) && ReportedIn(reports, node)
    requires forall v :: Makes(env, input, v) ==> v in reports
    ensures ReportedIn(reports, ProcessOneMessage(env, node, input, c).node)
  {
    match input
    case TssShare(msgType, msg) =>
      forall v | HashedBy(env, msg, v) ensures v in reports {
        assert Makes(env, input, v);
      }
      ShareKeepsReports(env, reports, node, msg, msgType, false, c);
    case VerMsg(peer, msgType, key, hash) =>
      assert Makes(env, input, Report(key, peer, hash));
      if !AlreadyVoted(node, key, peer) {
        VoteKeepsReports(env, reports, node, peer, key, hash, msgType, c);
      }
    case Forward(hash, key, reqType, body) =>
      if hash in node.requested && body.Some? {
        forall v | HashedBy(env, body.value, v) ensures v in reports {
          assert Makes(env, input, v);
        }
        ShareKeepsReports(env, reports, node.(requested := node.requested - {hash}), body.value, reqType, true, c);
      }
    case _ =>
  }

  ghost predicate MadeBy(env: Env, tr: Trace, v: Report) {
    exists j :: 0 <= j < |tr.inputs| && Makes(env, tr.inputs[j], v)
  }

  /** Every report that some input of the run makes. */
  ghost function ReportsOf(env: Env, tr: Trace): iset<Report> {
    iset v: Report | MadeBy(env, tr, v)
  }

  /** Every vote a node records or decides on goes back to a message it received. */
  lemma {:induction false} VotesAreReported(env: Env, tr: Trace, i: nat)
    requires IsRun(env, tr) && i < |tr.nodes|
    ensures ReportedIn(ReportsOf(env, tr), tr.nodes[i])
  {
    if i > 0 {
      VotesAreReported(env, tr, i - 1);
      RunStep(env, tr, i - 1);
      var c := ChoiceOf(env, tr.nodes[i - 1], tr.inputs[i - 1], tr.libs[i - 1], tr.nodes[i]);
      forall v | Makes(env, tr.inputs[i - 1], v) ensures v in ReportsOf(env, tr) {
        assert MadeBy(env, tr, v);
      }
      StepKeepsReports(env, ReportsOf(env, tr), tr.nodes[i - 1], tr.inputs[i - 1], c);
    }
  }

  // ------------------------------------------------------------ agreement by behaviour

  /** `p` stands for different hashes of one broadcast towards the two nodes. A node that told its
      peers about one copy and was forwarded another one later can be two-faced as well. */
  ghost predicate TwoFaced(a: Env, trA: Trace, b: Env, trB: Trace, key: Key, p: PeerId) {
    exists h, g :: h != g && MadeBy(a, trA, Report(key, p, h)) && MadeBy(b, trB, Report(key, p, g))
  }

  ghost function TwoFacedPeers(a: Env, trA: Trace, b: Env, trB: Trace, key: Key): set<PeerId> {
    set p | p in a.parties.Values && TwoFaced(a, trA, b, trB, key, p)
  }

  lemma LoggedVote(env: Env, tr: Trace, e: Acceptance, p: PeerId)
    requires IsRun(env, tr) && e in Last(tr).log && p in e.ballots
    ensures MadeBy(env, tr, Report(e.key, p, e.ballots[p]))
  {
    VotesAreReported(env, tr, |tr.inputs|);
    var k :| 0 <= k < |Last(tr).log| && Last(tr).log[k] == e;
    assert BallotsIn(ReportsOf(env, tr), Last(tr).log[k].key, Last(tr).log[k].ballots);
    assert Report(e.key, p, e.ballots[p]) in ReportsOf(env, tr);
  }

  lemma ConflictsAreTwoFaced(a: Env, b: Env, trA: Trace, trB: Trace, ea: Acceptance, eb: Acceptance)
    requires IsRun(a, trA) && RunFrom(a, a.parties.Values, trA) && ea in Last(trA).log
    requires IsRun(b, trB) && eb in Last(trB).log && ea.key == eb.key
    ensures Conflicts(ea.ballots, eb.ballots) <= TwoFacedPeers(a, trA, b, trB, ea.key)
  {
    AcceptanceAlways(a, a.parties.Values, trA, |trA.inputs|);
    assert ea.ballots.Keys <= a.parties.Values;
    forall p | p in Conflicts(ea.ballots, eb.ballots) ensures p in TwoFacedPeers(a, trA, b, trB, ea.key) {
      LoggedVote(a, trA, ea, p);
      LoggedVote(b, trB, eb, p);
    }
  }

  /** Agreement in terms of what peers send: if at most f of them stand for different hashes of the
      broadcast towards the two nodes, and f is below the bound, the nodes applied the same copy. */
  lemma NodesAgreeDespiteTwoFaced(a: Env, b: Env, trA: Trace, trB: Trace, ea: Acceptance, eb: Acceptance, f: nat)
    requires SameInstance(a, b) && PartiesOk(a)
    requires Separates(a.hash, ea.msg.message, eb.msg.message)
    requires IsRun(a, trA) && RunFrom(a, a.parties.Values, trA) && ea in Last(trA).log
    requires IsRun(b, trB) && RunFrom(b, b.parties.Values, trB) && eb in Last(trB).log
    requires ea.key == eb.key
    requires |TwoFacedPeers(a, trA, b, trB, ea.key)| <= f && QuorumsIntersect(|a.parties|, f)
    ensures ea.msg.from == eb.msg.from && ea.msg.roundInfo == eb.msg.roundInfo
    ensures ea.msg.message == eb.msg.message
  {
    ConflictsAreTwoFaced(a, b, trA, trB, ea, eb);
    SubsetSize(Conflicts(ea.ballots, eb.ballots), TwoFacedPeers(a, trA, b, trB, ea.key));
    NodesAgree(a, b, trA, trB, ea, eb, f);
  }
}
