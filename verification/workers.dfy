/** The job pool that applies the entries of one bulk message to the local parties.

    The dispatcher scans the entries in order, skips shares it has already accepted and
    queues the rest; several workers take jobs off the queue and finish them in any order,
    while the scan is still going on. A finished job records the share as accepted when the
    library took it. */
module Workers {
  import opened Types

  datatype RoundInfo = RoundInfo(index: nat, roundMsg: string, msgIdentifier: string)

  /** A share as seen by the local party: its round, its message identifier, its sender. */
  datatype Share = Share(round: RoundInfo, from: PartyId)

  type AcceptedShares = map<RoundInfo, seq<PartyId>>

  function Get(accepted: AcceptedShares, r: RoundInfo): seq<PartyId> {
    if r in accepted then accepted[r] else []
  }

  predicate IsDuplicate(accepted: AcceptedShares, r: RoundInfo, from: PartyId) {
    from in Get(accepted, r)
  }

  function AddShare(accepted: AcceptedShares, r: RoundInfo, from: PartyId): AcceptedShares {
    accepted[r := Get(accepted, r) + [from]]
  }

  /** One bulk from one sender. An entry is `None` when it stops the scan (its local party is
      unknown or its bytes are broken). `ok(i)` is whether the library takes entry `i`. */
  datatype Bulk = Bulk(from: PartyId, rounds: seq<Option<RoundInfo>>, ok: nat -> bool)

  datatype Job = Job(index: nat, round: RoundInfo)

  datatype Pool = Pool(next: nat, failed: bool, queue: seq<Job>,
                       accepted: AcceptedShares, applied: multiset<Share>)

  function Start(accepted: AcceptedShares, applied: multiset<Share>): Pool {
    Pool(0, false, [], accepted, applied)
  }

  datatype Action = Scan | Finish(k: nat)

  predicate Enabled(b: Bulk, p: Pool, a: Action) {
    match a
    case Scan => !p.failed && p.next < |b.rounds|
    case Finish(k) => k < |p.queue|
  }

  function ScanNext(b: Bulk, p: Pool): Pool
    requires p.next < |b.rounds|
  {
    match b.rounds[p.next]
    case None => p.(failed := true)
    case Some(r) =>
      if IsDuplicate(p.accepted, r, b.from) then p.(next := p.next + 1)
      else p.(next := p.next + 1, queue := p.queue + [Job(p.next, r)])
  }

  function FinishJob(b: Bulk, p: Pool, k: nat): Pool
    requires k < |p.queue|
  {
    var job := p.queue[k];
    var rest := p.(queue := p.queue[..k] + p.queue[k + 1..]);
    if b.ok(job.index) then
      rest.(accepted := AddShare(p.accepted, job.round, b.from),
            applied := p.applied + multiset{Share(job.round, b.from)})
    else rest
  }

  function Step(b: Bulk, p: Pool, a: Action): Pool
    requires Enabled(b, p, a)
  {
    match a
    case Scan => ScanNext(b, p)
    case Finish(k) => FinishJob(b, p, k)
  }

  /** `actions` lead from `p` to `q`. */
  ghost predicate Run(b: Bulk, p: Pool, actions: seq<Action>, q: Pool)
    decreases |actions|
  {
    if actions == [] then p == q
    else Enabled(b, p, actions[0]) && Run(b, Step(b, p, actions[0]), actions[1..], q)
  }

  predicate Terminal(b: Bulk, p: Pool) {
    p.queue == [] && (p.failed || p.next == |b.rounds|)
  }

  /** What some schedule of the dispatcher and its workers ends in. */
  ghost predicate Outcome(b: Bulk, accepted: AcceptedShares, applied: multiset<Share>, q: Pool) {
    Terminal(b, q) && exists actions :: Run(b, Start(accepted, applied), actions, q)
  }

  lemma {:induction false} RunExtend(b: Bulk, p: Pool, actions: seq<Action>, q: Pool, a: Action)
    requires Run(b, p, actions, q)
    requires Enabled(b, q, a)
    ensures Run(b, p, actions + [a], Step(b, q, a))
    decreases |actions|
  {
    if actions == [] {
      assert ([a])[1..] == [];
      assert Run(b, Step(b, p, a), [], Step(b, q, a));
    } else {
      RunExtend(b, Step(b, p, actions[0]), actions[1..], q, a);
      assert (actions + [a])[1..] == actions[1..] + [a];
    }
  }

  // ---------------------------------------------------------------- the sequential meaning

  /** Number of entries that the scan reads before it stops. */
  function Stop(rounds: seq<Option<RoundInfo>>): (n: nat)
    ensures n <= |rounds|
    ensures forall i :: 0 <= i < n ==> rounds[i].Some?
    ensures n < |rounds| ==> rounds[n].None?
  {
    if rounds == [] || rounds[0].None? then 0 else 1 + Stop(rounds[1..])
  }

  /** Entry i is read, new with respect to `accepted`, and taken by the library. */
  predicate Good(b: Bulk, accepted: AcceptedShares, i: nat) {
    i < Stop(b.rounds) && b.from !in Get(accepted, b.rounds[i].value) && b.ok(i)
  }

  /** Rounds of the good entries before n. */
  function GoodRounds(b: Bulk, accepted: AcceptedShares, n: nat): set<RoundInfo>
    requires n <= Stop(b.rounds)
  {
    set i | 0 <= i < n && Good(b, accepted, i) :: b.rounds[i].value
  }

  /** No two good entries carry the same round and message identifier. */
  ghost predicate Clean(b: Bulk, accepted: AcceptedShares) {
    forall i, j :: 0 <= i < j && Good(b, accepted, i) && Good(b, accepted, j) ==>
      b.rounds[i] != b.rounds[j]
  }

  /** A bulk whose entries have pairwise distinct (round, identifier), as honest senders produce. */
  ghost predicate Distinct(rounds: seq<Option<RoundInfo>>) {
    forall i, j :: 0 <= i < j < |rounds| && rounds[i].Some? ==> rounds[i] != rounds[j]
  }

  function Extend(accepted: AcceptedShares, done: set<RoundInfo>, from: PartyId): AcceptedShares {
    map r | r in accepted.Keys + done ::
      if r in done then Get(accepted, r) + [from] else accepted[r]
  }

  function Shares(done: set<RoundInfo>, from: PartyId): multiset<Share> {
    multiset(set r | r in done :: Share(r, from))
  }

  // ---------------------------------------------------------------- every schedule agrees

  ghost predicate JobFits(b: Bulk, accepted0: AcceptedShares, next: nat, job: Job)
    requires next <= Stop(b.rounds)
  {
    job.index < next && b.rounds[job.index] == Some(job.round) && !IsDuplicate(accepted0, job.round, b.from)
  }

  /** Rounds of the good entries that were scanned and are no longer in the queue. */
  ghost function DoneRounds(b: Bulk, accepted0: AcceptedShares, next: nat, queue: seq<Job>): set<RoundInfo>
    requires next <= Stop(b.rounds)
  {
    set i | 0 <= i < next && Good(b, accepted0, i) && Job(i, b.rounds[i].value) !in queue :: b.rounds[i].value
  }

  ghost predicate PoolInv(b: Bulk, accepted0: AcceptedShares, applied0: multiset<Share>, p: Pool) {
    && p.next <= Stop(b.rounds)
    && (p.failed ==> p.next == Stop(b.rounds) < |b.rounds|)
    && QueueFits(b, accepted0, p.next, p.queue)
    && p.accepted == Extend(accepted0, DoneRounds(b, accepted0, p.next, p.queue), b.from)
    && p.applied == applied0 + Shares(DoneRounds(b, accepted0, p.next, p.queue), b.from)
  }

  ghost predicate QueueFits(b: Bulk, accepted0: AcceptedShares, next: nat, queue: seq<Job>)
    requires next <= Stop(b.rounds)
  {
    && (forall k :: 0 <= k < |queue| ==> JobFits(b, accepted0, next, queue[k]))
    && (forall k, l :: 0 <= k < l < |queue| ==> queue[k] != queue[l])
  }

  lemma QueueFitsAfterFinish(b: Bulk, accepted0: AcceptedShares, next: nat, queue: seq<Job>, k: nat)
    requires next <= Stop(b.rounds) && QueueFits(b, accepted0, next, queue)
    requires k < |queue|
    ensures QueueFits(b, accepted0, next, queue[..k] + queue[k + 1..])
    ensures forall x :: x in queue[..k] + queue[k + 1..] <==> x in queue && x != queue[k]
  {
    RemoveAt(queue, k);
  }

  lemma ScanKeepsInv(b: Bulk, accepted0: AcceptedShares, applied0: multiset<Share>, p: Pool)
    requires Clean(b, accepted0) && PoolInv(b, accepted0, applied0, p)
    requires Enabled(b, p, Scan)
    ensures PoolInv(b, accepted0, applied0, ScanNext(b, p))
  {
    match b.rounds[p.next]
    case None =>
      assert p.next == Stop(b.rounds);
    case Some(r) =>
      StopPast(b.rounds, p.next);
      ScanKeepsDone(b, accepted0, p, r);
      ScanKeepsQueue(b, accepted0, p, r, DoneRounds(b, accepted0, p.next, p.queue));
  }

  lemma ScanKeepsQueue(b: Bulk, accepted0: AcceptedShares, p: Pool, r: RoundInfo, done: set<RoundInfo>)
    requires p.next < Stop(b.rounds) && b.rounds[p.next] == Some(r) && QueueFits(b, accepted0, p.next, p.queue)
    requires p.accepted == Extend(accepted0, done, b.from)
    ensures QueueFits(b, accepted0, p.next + 1, ScanNext(b, p).queue)
  {
    if !IsDuplicate(p.accepted, r, b.from) {
      assert !IsDuplicate(accepted0, r, b.from);
      assert JobFits(b, accepted0, p.next + 1, Job(p.next, r));
    }
  }

  lemma ScanKeepsJobs(b: Bulk, p: Pool, r: RoundInfo)
    requires p.next < |b.rounds| && b.rounds[p.next] == Some(r)
    ensures forall job: Job :: job.index < p.next ==> (job in ScanNext(b, p).queue <==> job in p.queue)
  {
  }

  lemma ScanKeepsDone(b: Bulk, accepted0: AcceptedShares, p: Pool, r: RoundInfo)
    requires p.next < Stop(b.rounds) && b.rounds[p.next] == Some(r)
    requires Clean(b, accepted0)
    requires forall k :: 0 <= k < |p.queue| ==> p.queue[k].index < p.next
    requires p.accepted == Extend(accepted0, DoneRounds(b, accepted0, p.next, p.queue), b.from)
    ensures var q := ScanNext(b, p);
      DoneRounds(b, accepted0, q.next, q.queue) == DoneRounds(b, accepted0, p.next, p.queue)
  {
    var q := ScanNext(b, p);
    if Good(b, accepted0, p.next) {
      assert r !in DoneRounds(b, accepted0, p.next, p.queue);
      assert Job(p.next, r) == q.queue[|p.queue|];
    }
    ScanKeepsJobs(b, p, r);
    DoneWithOneMore(b, accepted0, p.next, p.queue, q.queue);
  }

  lemma DoneWithOneMore(b: Bulk, accepted0: AcceptedShares, next: nat, queue: seq<Job>, after: seq<Job>)
    requires next < Stop(b.rounds)
    requires forall job: Job :: job.index < next ==> (job in after <==> job in queue)
    requires Good(b, accepted0, next) ==> Job(next, b.rounds[next].value) in after
    ensures DoneRounds(b, accepted0, next + 1, after) == DoneRounds(b, accepted0, next, queue)
  {
  }

  lemma {:induction false} StopPast(rounds: seq<Option<RoundInfo>>, n: nat)
    requires n <= Stop(rounds) && n < |rounds| && rounds[n].Some?
    ensures n < Stop(rounds)
  {
  }

  lemma ExtendShares(done: set<RoundInfo>, r: RoundInfo, from: PartyId, accepted0: AcceptedShares)
    requires r !in done
    ensures AddShare(Extend(accepted0, done, from), r, from) == Extend(accepted0, done + {r}, from)
    ensures Shares(done + {r}, from) == Shares(done, from) + multiset{Share(r, from)}
  {
    var a := set x | x in done :: Share(x, from);
    var c := set x | x in done + {r} :: Share(x, from);
    assert c == a + {Share(r, from)};
    assert Share(r, from) !in a;
  }

  lemma FinishKeepsInv(b: Bulk, accepted0: AcceptedShares, applied0: multiset<Share>, p: Pool, k: nat)
    requires Clean(b, accepted0) && PoolInv(b, accepted0, applied0, p)
    requires k < |p.queue|
    ensures PoolInv(b, accepted0, applied0, FinishJob(b, p, k))
  {
    var q := FinishJob(b, p, k);
    assert QueueFits(b, accepted0, q.next, q.queue) by {
      QueueFitsAfterFinish(b, accepted0, p.next, p.queue, k);
    }
    FinishBooks(b, accepted0, applied0, p, k);
  }

  lemma FinishBooks(b: Bulk, accepted0: AcceptedShares, applied0: multiset<Share>, p: Pool, k: nat)
    requires Clean(b, accepted0) && PoolInv(b, accepted0, applied0, p)
    requires k < |p.queue|
    ensures var q := FinishJob(b, p, k); var done := DoneRounds(b, accepted0, q.next, q.queue);
      q.accepted == Extend(accepted0, done, b.from) && q.applied == applied0 + Shares(done, b.from)
  {
    QueueFitsAfterFinish(b, accepted0, p.next, p.queue, k);
    FinishDone(b, accepted0, p, p.queue[k], p.queue[..k] + p.queue[k + 1..]);
    BooksStep(b, accepted0, applied0, p, k, DoneRounds(b, accepted0, p.next, p.queue),
              DoneRounds(b, accepted0, p.next, p.queue[..k] + p.queue[k + 1..]));
  }

  lemma BooksStep(b: Bulk, accepted0: AcceptedShares, applied0: multiset<Share>, p: Pool, k: nat,
                  done: set<RoundInfo>, after: set<RoundInfo>)
    requires k < |p.queue|
    requires p.accepted == Extend(accepted0, done, b.from) && p.applied == applied0 + Shares(done, b.from)
    requires b.ok(p.queue[k].index) ==> p.queue[k].round !in done
    requires after == done + if b.ok(p.queue[k].index) then {p.queue[k].round} else {}
    ensures FinishJob(b, p, k).accepted == Extend(accepted0, after, b.from)
    ensures FinishJob(b, p, k).applied == applied0 + Shares(after, b.from)
  {
    if b.ok(p.queue[k].index) {
      ExtendShares(done, p.queue[k].round, b.from, accepted0);
    } else {
      assert after == done;
    }
  }

  lemma FinishDone(b: Bulk, accepted0: AcceptedShares, p: Pool, job: Job, rest: seq<Job>)
    requires Clean(b, accepted0) && p.next <= Stop(b.rounds) && JobFits(b, accepted0, p.next, job)
    requires job in p.queue && forall x :: x in rest <==> x in p.queue && x != job
    ensures var done := DoneRounds(b, accepted0, p.next, p.queue);
      && (b.ok(job.index) ==> job.round !in done)
      && DoneRounds(b, accepted0, p.next, rest) == done + if b.ok(job.index) then {job.round} else {}
  {
    if b.ok(job.index) {
      assert Good(b, accepted0, job.index);
    }
    var done, after := DoneRounds(b, accepted0, p.next, p.queue), DoneRounds(b, accepted0, p.next, rest);
    forall r | r in after ensures r in done || (b.ok(job.index) && r == job.round) {
      var j: int :| 0 <= j < p.next && Good(b, accepted0, j) && b.rounds[j].value == r && Job(j, r) !in rest;
      assert j != job.index ==> Job(j, r) !in p.queue;
    }
  }

  lemma RemoveAt<T>(s: seq<T>, k: nat)
    requires k < |s|
    requires forall i, j :: 0 <= i < j < |s| ==> s[i] != s[j]
    ensures forall x :: x in s[..k] + s[k + 1..] <==> x in s && x != s[k]
    ensures var t := s[..k] + s[k + 1..]; forall i, j :: 0 <= i < j < |t| ==> t[i] != t[j]
  {
    var t := s[..k] + s[k + 1..];
    forall x ensures x in t <==> x in s && x != s[k] {
      if x in s && x != s[k] {
        var i :| 0 <= i < |s| && s[i] == x;
        assert t[if i < k then i else i - 1] == x;
      }
    }
  }

  lemma {:induction false} RunKeepsInv(b: Bulk, accepted0: AcceptedShares, applied0: multiset<Share>,
                                       p: Pool, actions: seq<Action>, q: Pool)
    requires Clean(b, accepted0) && PoolInv(b, accepted0, applied0, p)
    requires Run(b, p, actions, q)
    ensures PoolInv(b, accepted0, applied0, q)
    decreases |actions|
  {
    if actions != [] {
      match actions[0] {
        case Scan => ScanKeepsInv(b, accepted0, applied0, p);
        case Finish(k) => FinishKeepsInv(b, accepted0, applied0, p, k);
      }
      RunKeepsInv(b, accepted0, applied0, Step(b, p, actions[0]), actions[1..], q);
    }
  }

  lemma RunFromStart(b: Bulk, accepted: AcceptedShares, applied: multiset<Share>, actions: seq<Action>, q: Pool)
    requires Clean(b, accepted) && Run(b, Start(accepted, applied), actions, q)
    ensures PoolInv(b, accepted, applied, q)
  {
    assert DoneRounds(b, accepted, 0, []) == {};
    assert Extend(accepted, {}, b.from) == accepted;
    assert Shares({}, b.from) == multiset{};
    RunKeepsInv(b, accepted, applied, Start(accepted, applied), actions, q);
  }

  /** For a clean bulk the result does not depend on the schedule: every good share is added
      once to its round, nothing else changes, and the error is that of the scan. A share that the
      library refuses is only skipped here; the code also remembers its culprits, and a dispatcher
      that sees one of them in time stops early. */
  lemma Confluence(b: Bulk, accepted: AcceptedShares, applied: multiset<Share>, q: Pool)
    requires Clean(b, accepted)
    requires Outcome(b, accepted, applied, q)
    ensures q.accepted == Extend(accepted, GoodRounds(b, accepted, Stop(b.rounds)), b.from)
    ensures q.applied == applied + Shares(GoodRounds(b, accepted, Stop(b.rounds)), b.from)
    ensures q.failed <==> Stop(b.rounds) < |b.rounds|
  {
    var actions :| Run(b, Start(accepted, applied), actions, q);
    RunFromStart(b, accepted, applied, actions, q);
    assert q.next == Stop(b.rounds);
    assert DoneRounds(b, accepted, q.next, q.queue) == GoodRounds(b, accepted, Stop(b.rounds));
  }

  // ---------------------------------------------------------------- the error of the scan

  lemma {:induction false} StopsAtBroken(b: Bulk, p: Pool, actions: seq<Action>, q: Pool)
    requires Run(b, p, actions, q)
    requires p.next <= Stop(b.rounds) && (p.failed ==> p.next == Stop(b.rounds) < |b.rounds|)
    ensures q.next <= Stop(b.rounds) && (q.failed ==> q.next == Stop(b.rounds) < |b.rounds|)
    decreases |actions|
  {
    if actions != [] {
      if actions[0].Scan? && b.rounds[p.next].Some? {
        StopPast(b.rounds, p.next);
      }
      StopsAtBroken(b, Step(b, p, actions[0]), actions[1..], q);
    }
  }

  /** Whatever the bulk, the pool ends in an error exactly if the bulk has a broken entry. */
  lemma FailsIffBroken(b: Bulk, accepted: AcceptedShares, applied: multiset<Share>, q: Pool)
    requires Outcome(b, accepted, applied, q)
    ensures q.failed <==> exists i :: 0 <= i < |b.rounds| && b.rounds[i].None?
  {
    var actions :| Run(b, Start(accepted, applied), actions, q);
    StopsAtBroken(b, Start(accepted, applied), actions, q);
    if Stop(b.rounds) < |b.rounds| {
      assert b.rounds[Stop(b.rounds)].None?;
    }
  }

  // ---------------------------------------------------------------- schedules exist

  lemma {:induction false} RunAppend(b: Bulk, p: Pool, first: seq<Action>, q: Pool, second: seq<Action>, r: Pool)
    requires Run(b, p, first, q) && Run(b, q, second, r)
    ensures Run(b, p, first + second, r)
    decreases |first|
  {
    var both := first + second;
    if first == [] {
      assert both == second;
    } else {
      RunAppend(b, Step(b, p, first[0]), first[1..], q, second, r);
      assert both[0] == first[0] && both[1..] == first[1..] + second;
    }
  }

  lemma {:induction false} AppliedGrows(b: Bulk, p: Pool, actions: seq<Action>, q: Pool)
    requires Run(b, p, actions, q)
    ensures p.applied <= q.applied
    decreases |actions|
  {
    if actions != [] {
      AppliedGrows(b, Step(b, p, actions[0]), actions[1..], q);
    }
  }

  /** From any pool the workers can finish. */
  lemma {:induction false} CanFinish(b: Bulk, p: Pool) returns (actions: seq<Action>, q: Pool)
    requires p.next <= |b.rounds|
    ensures Run(b, p, actions, q) && Terminal(b, q)
    decreases if p.failed then 0 else |b.rounds| - p.next + 1, |p.queue|
  {
    if Terminal(b, p) {
      actions, q := [], p;
    } else {
      var a := if Enabled(b, p, Scan) then Scan else Finish(0);
      assert Enabled(b, p, a);
      var rest;
      rest, q := CanFinish(b, Step(b, p, a));
      actions := [a] + rest;
      assert actions[1..] == rest;
    }
  }

  lemma OutcomeExists(b: Bulk, accepted: AcceptedShares, applied: multiset<Share>) returns (q: Pool)
    ensures Outcome(b, accepted, applied, q)
  {
    var actions;
    actions, q := CanFinish(b, Start(accepted, applied));
  }

  /** The schedule in which no worker runs before the scan has stopped. */
  lemma {:induction false} ScanAhead(b: Bulk, p: Pool,
                                     accepted0: AcceptedShares) returns (actions: seq<Action>, q: Pool)
    requires p.accepted == accepted0 && !p.failed && p.next <= Stop(b.rounds)
    ensures Run(b, p, actions, q)
    ensures q.applied == p.applied && q.accepted == p.accepted && q.next == Stop(b.rounds) && !q.failed
    ensures forall job :: job in p.queue ==> job in q.queue
    ensures forall i :: p.next <= i < Stop(b.rounds) && !IsDuplicate(accepted0, b.rounds[i].value, b.from) ==>
      Job(i, b.rounds[i].value) in q.queue
    decreases Stop(b.rounds) - p.next
  {
    if p.next == Stop(b.rounds) {
      actions, q := [], p;
    } else {
      var rest;
      rest, q := ScanAhead(b, ScanNext(b, p), accepted0);
      actions := [Scan] + rest;
      assert actions[1..] == rest;
    }
  }

  // ---------------------------------------------------------------- at most once

  /** The run added each share of the sender at most once, and none that was accepted before. */
  ghost predicate AppliedAtMostOnce(b: Bulk, accepted: AcceptedShares, applied: multiset<Share>, q: Pool) {
    forall r :: q.applied[Share(r, b.from)] <=
      applied[Share(r, b.from)] + if b.from in Get(accepted, r) then 0 else 1
  }

  /** This holds at every moment of the pool, so also wherever a scan stops that has recognised the
      sender as a culprit. */
  lemma CleanAppliesOnceSoFar(b: Bulk, accepted: AcceptedShares, applied: multiset<Share>, actions: seq<Action>,
                              q: Pool)
    requires Clean(b, accepted) && Run(b, Start(accepted, applied), actions, q)
    ensures AppliedAtMostOnce(b, accepted, applied, q)
  {
    RunFromStart(b, accepted, applied, actions, q);
    var done := DoneRounds(b, accepted, q.next, q.queue);
    forall r ensures Shares(done, b.from)[Share(r, b.from)] == if r in done then 1 else 0 {
      var shares := set x | x in done :: Share(x, b.from);
      assert Share(r, b.from) in shares <==> r in done;
    }
  }

  lemma CleanAppliesOnce(b: Bulk, accepted: AcceptedShares, applied: multiset<Share>, q: Pool)
    requires Clean(b, accepted) && Outcome(b, accepted, applied, q)
    ensures AppliedAtMostOnce(b, accepted, applied, q)
  {
    var actions :| Run(b, Start(accepted, applied), actions, q);
    CleanAppliesOnceSoFar(b, accepted, applied, actions, q);
  }

  /** Two good entries for one round are both applied when the workers lag behind the scan. */
  lemma UncleanAppliesTwice(b: Bulk, accepted: AcceptedShares, applied: multiset<Share>, i: nat, j: nat)
      returns (q: Pool)
    requires i < j && Good(b, accepted, i) && Good(b, accepted, j) && b.rounds[i] == b.rounds[j]
    ensures Outcome(b, accepted, applied, q)
    ensures q.applied[Share(b.rounds[i].value, b.from)] >= applied[Share(b.rounds[i].value, b.from)] + 2
  {
    var p := Start(accepted, applied);
    var r := b.rounds[i].value;
    var scans, p1 := ScanAhead(b, p, accepted);
    assert Job(i, r) in p1.queue && Job(j, r) in p1.queue;
    var p2 := FinishOne(b, p, scans, p1, Job(i, r));
    var p3 := FinishOne(b, p, scans + [Finish(IndexOf(p1.queue, Job(i, r)))], p2, Job(j, r));
    var rest;
    rest, q := CanFinish(b, p3);
    AppliedGrows(b, p3, rest, q);
    RunAppend(b, p, scans + [Finish(IndexOf(p1.queue, Job(i, r)))] + [Finish(IndexOf(p2.queue, Job(j, r)))],
              p3, rest, q);
  }

  function IndexOf<T(==)>(s: seq<T>, x: T): (k: nat)
    requires x in s
    ensures k < |s| && s[k] == x
  {
    if s[0] == x then 0 else 1 + IndexOf(s[1..], x)
  }

  /** A worker finishes a queued job that the library takes. */
  lemma FinishOne(b: Bulk, p: Pool, actions: seq<Action>, mid: Pool, job: Job) returns (q: Pool)
    requires Run(b, p, actions, mid) && job in mid.queue && b.ok(job.index)
    ensures Run(b, p, actions + [Finish(IndexOf(mid.queue, job))], q) && q.next == mid.next
    ensures q.applied == mid.applied + multiset{Share(job.round, b.from)}
    ensures forall other :: other in mid.queue && other != job ==> other in q.queue
  {
    var k := IndexOf(mid.queue, job);
    q := FinishJob(b, mid, k);
    RunExtend(b, p, actions, mid, Finish(k));
    OthersStay(mid.queue, k);
  }

  lemma OthersStay<T>(s: seq<T>, k: nat)
    requires k < |s|
    ensures forall x :: x in s && x != s[k] ==> x in s[..k] + s[k + 1..]
  {
    forall x | x in s && x != s[k] ensures x in s[..k] + s[k + 1..] {
      var l :| 0 <= l < |s| && s[l] == x;
      assert (s[..k] + s[k + 1..])[if l < k then l else l - 1] == x;
    }
  }

  /** Exactly the clean bulks are applied at most once under every schedule. */
  lemma AtMostOnceIffClean(b: Bulk, accepted: AcceptedShares, applied: multiset<Share>)
    ensures (forall q :: Outcome(b, accepted, applied, q) ==> AppliedAtMostOnce(b, accepted, applied, q))
      <==> Clean(b, accepted)
  {
    if Clean(b, accepted) {
      forall q | Outcome(b, accepted, applied, q) ensures AppliedAtMostOnce(b, accepted, applied, q) {
        CleanAppliesOnce(b, accepted, applied, q);
      }
    } else {
      var i, j :| 0 <= i < j && Good(b, accepted, i) && Good(b, accepted, j) && b.rounds[i] == b.rounds[j];
      var q := UncleanAppliesTwice(b, accepted, applied, i, j);
      assert !AppliedAtMostOnce(b, accepted, applied, q) by {
        assert q.applied[Share(b.rounds[i].value, b.from)] >= applied[Share(b.rounds[i].value, b.from)] + 2;
      }
    }
  }

  lemma DistinctIsClean(b: Bulk, accepted: AcceptedShares)
    requires Distinct(b.rounds)
    ensures Clean(b, accepted)
  {
  }

  // ---------------------------------------------------------------- jobs that outlive the call

  /** The scan met a broken entry: the call returns, whatever the workers still hold. */
  ghost predicate ReturnsEarly(b: Bulk, accepted: AcceptedShares, applied: multiset<Share>, p: Pool) {
    p.failed && exists actions :: Run(b, Start(accepted, applied), actions, p)
  }

  /** Entry i is still queued when the call returns early, and the same bulk handed on once more
      applies it before that job is done. */
  ghost predicate Redone(b: Bulk, accepted: AcceptedShares, applied: multiset<Share>, i: nat, p: Pool, q: Pool) {
    && ReturnsEarly(b, accepted, applied, p)
    && i < |b.rounds| && b.rounds[i].Some? && b.ok(i) && Job(i, b.rounds[i].value) in p.queue
    && Outcome(b, p.accepted, p.applied, q)
    && var share := Share(b.rounds[i].value, b.from); q.applied[share] > p.applied[share]
  }

  lemma RedoneNeedsBroken(b: Bulk, accepted: AcceptedShares, applied: multiset<Share>, i: nat, p: Pool, q: Pool)
    requires Clean(b, accepted) && Redone(b, accepted, applied, i, p, q)
    ensures Stop(b.rounds) < |b.rounds| && Good(b, accepted, i)
  {
    var actions :| Run(b, Start(accepted, applied), actions, p);
    RunFromStart(b, accepted, applied, actions, p);
    var k := IndexOf(p.queue, Job(i, b.rounds[i].value));
    assert JobFits(b, accepted, p.next, p.queue[k]);
  }

  lemma GoodIsRedone(b: Bulk, accepted: AcceptedShares, applied: multiset<Share>, i: nat) returns (p: Pool, q: Pool)
    requires Clean(b, accepted) && Stop(b.rounds) < |b.rounds| && Good(b, accepted, i)
    ensures Redone(b, accepted, applied, i, p, q)
  {
    var start := Start(accepted, applied);
    var scans, mid := ScanAhead(b, start, accepted);
    p := EarlyReturn(b, accepted, applied, scans, mid);
    q := OutcomeExists(b, p.accepted, p.applied);
    assert p.accepted == accepted && p.applied == applied;
    Confluence(b, accepted, applied, q);
    var done := GoodRounds(b, accepted, Stop(b.rounds));
    assert b.rounds[i].value in done;
    assert Share(b.rounds[i].value, b.from) in (set r | r in done :: Share(r, b.from));
  }

  lemma EarlyReturn(b: Bulk, accepted: AcceptedShares, applied: multiset<Share>, scans: seq<Action>, mid: Pool)
      returns (p: Pool)
    requires Run(b, Start(accepted, applied), scans, mid) && mid.next == Stop(b.rounds) < |b.rounds| && !mid.failed
    ensures ReturnsEarly(b, accepted, applied, p) && p == mid.(failed := true)
  {
    p := ScanNext(b, mid);
    RunExtend(b, Start(accepted, applied), scans, mid, Scan);
  }

  /** A clean bulk that is handed on again after an early return can have an entry applied twice,
      by the job left over and by the second call, exactly if the entry is good and the bulk has a
      broken one. */
  lemma RedoneIffBroken(b: Bulk, accepted: AcceptedShares, applied: multiset<Share>, i: nat)
    requires Clean(b, accepted)
    ensures (exists p, q :: Redone(b, accepted, applied, i, p, q))
      <==> Stop(b.rounds) < |b.rounds| && Good(b, accepted, i)
  {
    if p, q :| Redone(b, accepted, applied, i, p, q) {
      RedoneNeedsBroken(b, accepted, applied, i, p, q);
    }
    if Stop(b.rounds) < |b.rounds| && Good(b, accepted, i) {
      var p, q := GoodIsRedone(b, accepted, applied, i);
    }
  }
}
