/** Grouping of signing tasks: once a second every pool with waiting tasks hands at most fifteen
    of them to a signer. */
module SigningQueue {
  import opened Types
  import opened Sorting

  const MAX_KEYSIGN_PER_REQUEST := 15

  datatype Task = Task(id: nat, msg: string, blockHeight: int)

  function MsgOf(t: Task): string {
    t.msg
  }

  function Msgs(tasks: seq<Task>): (r: seq<string>)
    ensures |r| == |tasks|
  {
    Keys(tasks, MsgOf)
  }

  // ------------------------------------------------------------ one pool, on values

  /** Tasks that wait, and the batches handed out so far. */
  datatype Pool = Pool(waiting: seq<Task>, batches: seq<seq<Task>>)

  const IDLE := Pool([], [])

  function Arrive(p: Pool, t: Task): Pool {
    p.(waiting := p.waiting + [t])
  }

  /** With more than fifteen tasks waiting they are sorted first, so that all nodes pick the same. */
  function InOrder(waiting: seq<Task>): (r: seq<Task>)
    ensures |r| == |waiting|
  {
    if |waiting| > MAX_KEYSIGN_PER_REQUEST then StableSort(waiting, MsgOf) else waiting
  }

  function BatchSize(waiting: seq<Task>): nat {
    if |waiting| > MAX_KEYSIGN_PER_REQUEST then MAX_KEYSIGN_PER_REQUEST else |waiting|
  }

  function NextBatch(waiting: seq<Task>): seq<Task> {
    InOrder(waiting)[..BatchSize(waiting)]
  }

  function Remainder(waiting: seq<Task>): seq<Task> {
    InOrder(waiting)[BatchSize(waiting)..]
  }

  function Tick(p: Pool): Pool {
    if p.waiting == [] then p else Pool(Remainder(p.waiting), p.batches + [NextBatch(p.waiting)])
  }

  lemma InOrderKeeps(waiting: seq<Task>)
    ensures multiset(InOrder(waiting)) == multiset(waiting)
  {
    StableSortSorts(waiting, MsgOf);
  }

  // ------------------------------------------------------------ runs of one pool

  datatype Event = Arrival(task: Task) | Ticked

  function Run(events: seq<Event>): Pool {
    if events == [] then IDLE
    else
      var p := Run(events[..|events| - 1]);
      match events[|events| - 1]
      case Arrival(t) => Arrive(p, t)
      case Ticked => Tick(p)
  }

  function Submitted(events: seq<Event>): seq<Task> {
    if events == [] then []
    else
      Submitted(events[..|events| - 1]) +
      match events[|events| - 1]
      case Arrival(t) => [t]
      case Ticked => []
  }

  lemma TickKeeps(p: Pool)
    ensures multiset(Flatten(Tick(p).batches)) + multiset(Tick(p).waiting)
      == multiset(Flatten(p.batches)) + multiset(p.waiting)
  {
    if p.waiting != [] {
      var all := InOrder(p.waiting);
      InOrderKeeps(p.waiting);
      FlattenAppend(p.batches, NextBatch(p.waiting));
      assert all == NextBatch(p.waiting) + Remainder(p.waiting);
    }
  }

  ghost predicate AllSized(batches: seq<seq<Task>>) {
    forall b :: b in batches ==> 1 <= |b| <= MAX_KEYSIGN_PER_REQUEST
  }

  lemma TickKeepsSizes(p: Pool)
    requires AllSized(p.batches)
    ensures AllSized(Tick(p).batches)
  {
    if p.waiting != [] {
      assert 1 <= |NextBatch(p.waiting)| <= MAX_KEYSIGN_PER_REQUEST;
    }
  }

  /** Every submitted task is in exactly one batch or still waiting; no batch is empty or above fifteen. */
  lemma {:induction false} TasksConserved(events: seq<Event>)
    ensures multiset(Flatten(Run(events).batches)) + multiset(Run(events).waiting) == multiset(Submitted(events))
    ensures AllSized(Run(events).batches)
  {
    if events != [] {
      var rest, last := events[..|events| - 1], events[|events| - 1];
      TasksConserved(rest);
      if last.Ticked? {
        TickKeeps(Run(rest));
        TickKeepsSizes(Run(rest));
      }
    }
  }

  /** After any events a tick hands out the least waiting tasks: fifteen of them, sorted, if there are
      more, and all of them in the order of arrival otherwise. */
  lemma TickTakesLeast(events: seq<Event>)
    ensures var before, after := Run(events), Run(events + [Ticked]);
      if before.waiting == [] then after == before
      else
        && |after.batches| == |before.batches| + 1 && after.batches[..|before.batches|] == before.batches
        && var batch := after.batches[|before.batches|];
        && multiset(batch) + multiset(after.waiting) == multiset(before.waiting)
        && (|before.waiting| <= 15 ==> batch == before.waiting)
        && (|before.waiting| > 15 ==> |batch| == 15 && Sorted(Msgs(batch + after.waiting)))
        && forall x, y :: x in batch && y in after.waiting ==> Leq(x.msg, y.msg)
  {
    var p := Run(events);
    RunAppend(events, Ticked);
    if p.waiting != [] {
      InOrderKeeps(p.waiting);
      assert InOrder(p.waiting) == NextBatch(p.waiting) + Remainder(p.waiting);
      if |p.waiting| > MAX_KEYSIGN_PER_REQUEST {
        StableSortSorts(p.waiting, MsgOf);
        SplitSorted(NextBatch(p.waiting), Remainder(p.waiting));
      }
    }
  }

  lemma SplitSorted(a: seq<Task>, b: seq<Task>)
    requires Sorted(Msgs(a + b))
    ensures forall x, y :: x in a && y in b ==> Leq(x.msg, y.msg)
  {
    forall x, y | x in a && y in b ensures Leq(x.msg, y.msg) {
      var i :| 0 <= i < |a| && a[i] == x;
      var j :| 0 <= j < |b| && b[j] == y;
      assert Msgs(a + b)[i] == x.msg && Msgs(a + b)[|a| + j] == y.msg;
    }
  }

  function Ticks(p: Pool, n: nat): Pool {
    if n == 0 then p else Tick(Ticks(p, n - 1))
  }

  lemma TickLength(p: Pool)
    ensures |Tick(p).waiting| == Max(|p.waiting| - MAX_KEYSIGN_PER_REQUEST, 0)
  {
  }

  lemma TickShortens(p: Pool, q: Pool, n: nat)
    requires n > 0 && |q.waiting| == Max(|p.waiting| - (n - 1) * MAX_KEYSIGN_PER_REQUEST, 0)
    ensures |Tick(q).waiting| == Max(|p.waiting| - n * MAX_KEYSIGN_PER_REQUEST, 0)
  {
    TickLength(q);
  }

  lemma {:induction false} WaitingAfter(p: Pool, n: nat)
    ensures |Ticks(p, n).waiting| == Max(|p.waiting| - n * MAX_KEYSIGN_PER_REQUEST, 0)
  {
    if n > 0 {
      WaitingAfter(p, n - 1);
      TickShortens(p, Ticks(p, n - 1), n);
    }
  }

  /** Without arrivals a queue of length L is empty after n ticks exactly if n >= ceil(L / 15). */
  lemma DrainTime(p: Pool, n: nat)
    ensures Ticks(p, n).waiting == [] <==> n >= (|p.waiting| + MAX_KEYSIGN_PER_REQUEST - 1) / MAX_KEYSIGN_PER_REQUEST
  {
    WaitingAfter(p, n);
  }

  // ------------------------------------------------------------ the same batches on every node

  /** Waiting tasks of two nodes are for the same messages, each as often. */
  ghost predicate SameMessages(a: seq<Task>, b: seq<Task>) {
    multiset(Msgs(a)) == multiset(Msgs(b))
  }

  lemma InOrderSame(a: seq<Task>, b: seq<Task>)
    requires SameMessages(a, b)
    ensures |a| == |b|
    ensures |a| > MAX_KEYSIGN_PER_REQUEST ==> Msgs(InOrder(a)) == Msgs(InOrder(b))
  {
    assert |Msgs(a)| == |multiset(Msgs(a))| == |multiset(Msgs(b))| == |Msgs(b)|;
    if |a| > MAX_KEYSIGN_PER_REQUEST {
      StableSortSorts(a, MsgOf);
      StableSortSorts(b, MsgOf);
      MultisetOfKeys(InOrder(a), a, MsgOf);
      MultisetOfKeys(InOrder(b), b, MsgOf);
      SortedUnique(Msgs(InOrder(a)), Msgs(InOrder(b)));
    }
  }

  lemma SliceMsgs(s: seq<Task>, n: nat)
    requires n <= |s|
    ensures Msgs(s[..n]) == Msgs(s)[..n] && Msgs(s[n..]) == Msgs(s)[n..]
  {
  }

  lemma TickSame(a: seq<Task>, b: seq<Task>)
    requires SameMessages(a, b)
    ensures SameMessages(NextBatch(a), NextBatch(b)) && SameMessages(Remainder(a), Remainder(b))
  {
    InOrderSame(a, b);
    if |a| > MAX_KEYSIGN_PER_REQUEST {
      SliceMsgs(InOrder(a), MAX_KEYSIGN_PER_REQUEST);
      SliceMsgs(InOrder(b), MAX_KEYSIGN_PER_REQUEST);
    } else {
      assert a[..|a|] == a && b[..|b|] == b;
    }
  }

  function Arrivals(tasks: seq<Task>): seq<Event> {
    seq(|tasks|, i requires 0 <= i < |tasks| => Arrival(tasks[i]))
  }

  /** Between two ticks a node receives a group of tasks; `rounds` lists the groups. */
  function EventsOf(rounds: seq<seq<Task>>): seq<Event> {
    if rounds == [] then []
    else EventsOf(rounds[..|rounds| - 1]) + Arrivals(rounds[|rounds| - 1]) + [Ticked]
  }

  lemma {:induction false} ArrivalsWait(events: seq<Event>, tasks: seq<Task>)
    ensures var p := Run(events); Run(events + Arrivals(tasks)) == p.(waiting := p.waiting + tasks)
  {
    if tasks == [] {
      assert events + Arrivals(tasks) == events;
    } else {
      var init, last := tasks[..|tasks| - 1], tasks[|tasks| - 1];
      ArrivalsWait(events, init);
      ArrivalsSplit(tasks);
      assert events + Arrivals(tasks) == (events + Arrivals(init)) + [Arrival(last)];
      RunAppend(events + Arrivals(init), Arrival(last));
      ArriveLast(Run(events), init, last);
    }
  }

  lemma ArrivalsSplit(tasks: seq<Task>)
    requires tasks != []
    ensures var init, last := tasks[..|tasks| - 1], tasks[|tasks| - 1];
      tasks == init + [last] && Arrivals(tasks) == Arrivals(init) + [Arrival(last)]
  {
  }

  lemma ArriveLast(p: Pool, init: seq<Task>, last: Task)
    ensures Arrive(p.(waiting := p.waiting + init), last) == p.(waiting := p.waiting + (init + [last]))
  {
    assert p.waiting + (init + [last]) == (p.waiting + init) + [last];
  }

  lemma RunAppend(events: seq<Event>, e: Event)
    ensures Run(events + [e]) == match e case Arrival(t) => Arrive(Run(events), t) case Ticked => Tick(Run(events))
  {
    assert (events + [e])[..|events|] == events;
  }

  lemma RoundRuns(rounds: seq<seq<Task>>)
    requires rounds != []
    ensures var p := Run(EventsOf(rounds[..|rounds| - 1]));
      Run(EventsOf(rounds)) == Tick(p.(waiting := p.waiting + rounds[|rounds| - 1]))
  {
    ArrivalsWait(EventsOf(rounds[..|rounds| - 1]), rounds[|rounds| - 1]);
    RunAppend(EventsOf(rounds[..|rounds| - 1]) + Arrivals(rounds[|rounds| - 1]), Ticked);
  }

  ghost predicate SameRounds(a: seq<seq<Task>>, b: seq<seq<Task>>) {
    |a| == |b| && forall i :: 0 <= i < |a| ==> SameMessages(a[i], b[i])
  }

  ghost predicate SameBatches(a: seq<seq<Task>>, b: seq<seq<Task>>) {
    |a| == |b| && forall i :: 0 <= i < |a| ==> SameMessages(a[i], b[i])
  }

  /** Two nodes that get the same messages between ticks, in any order, hand out batches with the
      same messages, and keep the same messages waiting. */
  lemma {:induction false} NodesBatchAlike(a: seq<seq<Task>>, b: seq<seq<Task>>)
    requires SameRounds(a, b)
    ensures SameBatches(Run(EventsOf(a)).batches, Run(EventsOf(b)).batches)
    ensures SameMessages(Run(EventsOf(a)).waiting, Run(EventsOf(b)).waiting)
  {
    if a != [] {
      var n := |a| - 1;
      NodesBatchAlike(a[..n], b[..n]);
      RoundSame(Run(EventsOf(a[..n])), Run(EventsOf(b[..n])), a[n], b[n]);
      RoundRuns(a);
      RoundRuns(b);
    }
  }

  lemma RoundSame(pa: Pool, pb: Pool, ra: seq<Task>, rb: seq<Task>)
    requires SameBatches(pa.batches, pb.batches) && SameMessages(pa.waiting, pb.waiting) && SameMessages(ra, rb)
    ensures var qa, qb := Tick(pa.(waiting := pa.waiting + ra)), Tick(pb.(waiting := pb.waiting + rb));
      SameBatches(qa.batches, qb.batches) && SameMessages(qa.waiting, qb.waiting)
  {
    JoinSame(pa.waiting, ra, pb.waiting, rb);
    TickKeepsSame(pa.(waiting := pa.waiting + ra), pb.(waiting := pb.waiting + rb));
  }

  lemma JoinSame(a: seq<Task>, ra: seq<Task>, b: seq<Task>, rb: seq<Task>)
    requires SameMessages(a, b) && SameMessages(ra, rb)
    ensures SameMessages(a + ra, b + rb)
  {
    assert Msgs(a + ra) == Msgs(a) + Msgs(ra);
    assert Msgs(b + rb) == Msgs(b) + Msgs(rb);
  }

  lemma TickKeepsSame(p: Pool, q: Pool)
    requires SameBatches(p.batches, q.batches) && SameMessages(p.waiting, q.waiting)
    ensures SameBatches(Tick(p).batches, Tick(q).batches) && SameMessages(Tick(p).waiting, Tick(q).waiting)
  {
    TickSame(p.waiting, q.waiting);
    InOrderSame(p.waiting, q.waiting);
  }

  // ------------------------------------------------------------ slices over shared arrays

  /** A window into an array that runs up to the end of the array's capacity. */
  datatype Slice = Slice(arr: array<Task>, off: nat, len: nat)

  ghost predicate InBounds(s: Slice) {
    s.off + s.len <= s.arr.Length
  }

  ghost function View(s: Slice): seq<Task>
    reads s.arr
  {
    if InBounds(s) then s.arr[s.off..s.off + s.len] else []
  }

  lemma SplitView(s: Slice, n: nat)
    requires InBounds(s) && n <= s.len
    ensures View(s.(len := n)) == View(s)[..n]
    ensures View(Slice(s.arr, s.off + n, s.len - n)) == View(s)[n..]
  {
  }

  /** A slice given to a signer, and what it held at that moment. */
  datatype Batch = Batch(pool: string, slice: Slice, tasks: seq<Task>)

  function BatchesOf(handed: seq<Batch>, pool: string): seq<seq<Task>> {
    if handed == [] then []
    else
      var last := handed[|handed| - 1];
      BatchesOf(handed[..|handed| - 1], pool) + if last.pool == pool then [last.tasks] else []
  }

  /** One more batch was handed out, for pool k. */
  ghost predicate GaveAway(before: seq<Batch>, after: seq<Batch>, k: string, tasks: seq<Task>) {
    |after| == |before| + 1 && after[..|before|] == before
    && after[|before|].pool == k && after[|before|].tasks == tasks
  }

  ghost predicate Kept(before: seq<Batch>, after: seq<Batch>) {
    forall b :: b in before ==> b in after
  }

  lemma GaveAwayBatches(before: seq<Batch>, after: seq<Batch>, k: string, tasks: seq<Task>)
    requires GaveAway(before, after, k, tasks)
    ensures BatchesOf(after, k) == BatchesOf(before, k) + [tasks]
    ensures forall p :: p != k ==> BatchesOf(after, p) == BatchesOf(before, p)
    ensures Kept(before, after)
  {
    forall b | b in before ensures b in after {
      var i :| 0 <= i < |before| && before[i] == b;
      assert after[..|before|][i] == b;
    }
  }

  /** Waiting tasks of different pools are in different arrays, and a slice that was given away
      lies before the waiting tasks of its array. */
  ghost predicate Apart(tasks: map<string, Slice>, handed: seq<Batch>) {
    && (forall k :: k in tasks ==> InBounds(tasks[k]))
    && (forall k, l :: k in tasks && l in tasks && k != l ==> tasks[k].arr != tasks[l].arr)
    && (forall b :: b in handed ==> InBounds(b.slice))
    && (forall b, k :: b in handed && k in tasks && b.slice.arr == tasks[k].arr ==>
          b.slice.off + b.slice.len <= tasks[k].off)
  }

  lemma ApartAfterAppend(tasks: map<string, Slice>, handed: seq<Batch>, pool: string, r: Slice)
    requires Apart(tasks, handed) && InBounds(r)
    requires || (pool in tasks && r.arr == tasks[pool].arr && r.off == tasks[pool].off)
             || ((forall k :: k in tasks ==> tasks[k].arr != r.arr) && forall b :: b in handed ==> b.slice.arr != r.arr)
    ensures Apart(tasks[pool := r], handed)
  {
  }

  /** The worker loop of the signing queue. */
  class Keysign {
    var tasks: map<string, Slice>
    ghost var handed: seq<Batch>

    ghost function Arrays(): set<array<Task>>
      reads this
    {
      (set k | k in tasks :: tasks[k].arr) + (set b | b in handed :: b.slice.arr)
    }

    /** A slice that was given away still holds what it held then. */
    ghost predicate Valid()
      reads this, Arrays()
    {
      Apart(tasks, handed) && forall b :: b in handed ==> View(b.slice) == b.tasks
    }

    ghost function PoolAt(pool: string): Pool
      reads this, Arrays()
    {
      Pool(if pool in tasks then View(tasks[pool]) else [], BatchesOf(handed, pool))
    }

    constructor ()
      ensures Valid() && forall pool :: PoolAt(pool) == IDLE
      ensures Arrays() == {} && handed == []
    {
      tasks, handed := map[], [];
    }

    /** Go's append: in place while there is capacity, else into a larger array. */
    method Append(s: Slice, t: Task) returns (r: Slice)
      requires InBounds(s)
      modifies s.arr
      ensures InBounds(r) && View(r) == old(View(s)) + [t]
      ensures (r.arr == s.arr && r.off == s.off) || (fresh(r.arr) && r.off == 0)
      ensures forall i :: 0 <= i < s.off + s.len ==> s.arr[i] == old(s.arr[i])
    {
      if s.off + s.len < s.arr.Length {
        s.arr[s.off + s.len] := t;
        r := Slice(s.arr, s.off, s.len + 1);
      } else {
        var cap: nat :| s.len < cap;
        var bigger := new Task[cap](_ => t);
        forall i | 0 <= i < s.len {
          bigger[i] := s.arr[s.off + i];
        }
        r := Slice(bigger, 0, s.len + 1);
      }
    }

    /** A task arrives: the pool gets it last, and no slice of a signer changes. */
    method Enqueue(pool: string, t: Task)
      requires Valid()
      modifies this, Arrays()
      ensures Valid() && handed == old(handed)
      ensures fresh(Arrays() - old(Arrays()))
      ensures PoolAt(pool) == Arrive(old(PoolAt(pool)), t)
      ensures forall p :: p != pool ==> PoolAt(p) == old(PoolAt(p))
    {
      if pool !in tasks {
        OpenPool(pool, t);
      } else {
        Extend(pool, t);
      }
    }

    method OpenPool(pool: string, t: Task)
      requires Valid() && pool !in tasks
      modifies this`tasks
      ensures Valid() && handed == old(handed)
      ensures fresh(Arrays() - old(Arrays()))
      ensures PoolAt(pool) == Arrive(old(PoolAt(pool)), t)
      ensures forall p :: p != pool ==> PoolAt(p) == old(PoolAt(p))
    {
      var arr := new Task[1](_ => t);
      tasks := tasks[pool := Slice(arr, 0, 1)];
      assert View(tasks[pool]) == [] + [t];
    }

    method Extend(pool: string, t: Task)
      requires Valid() && pool in tasks
      modifies this`tasks, tasks[pool].arr
      ensures Valid() && handed == old(handed)
      ensures fresh(Arrays() - old(Arrays()))
      ensures PoolAt(pool) == Arrive(old(PoolAt(pool)), t)
      ensures forall p :: p != pool ==> PoolAt(p) == old(PoolAt(p))
    {
      var r := AppendTo(pool, t);
      ApartAfterAppend(tasks, handed, pool, r);
      tasks := tasks[pool := r];
    }

    /** Appending to the waiting tasks of one pool writes over nobody's tasks. */
    method AppendTo(pool: string, t: Task) returns (r: Slice)
      requires Valid() && pool in tasks
      modifies tasks[pool].arr
      ensures Valid()
      ensures InBounds(r) && View(r) == old(View(tasks[pool])) + [t]
      ensures (r.arr == tasks[pool].arr && r.off == tasks[pool].off) || fresh(r.arr)
      ensures forall p :: p in tasks && p != pool ==> View(tasks[p]) == old(View(tasks[p]))
    {
      r := Append(tasks[pool], t);
      assert forall b :: b in handed ==> View(b.slice) == b.tasks;
    }

    /** The library's stable sort, writing its result back into the window. */
    method SortSlice(s: Slice)
      requires InBounds(s)
      modifies s.arr
      ensures View(s) == StableSort(old(View(s)), MsgOf)
      ensures forall i :: 0 <= i < s.arr.Length && !(s.off <= i < s.off + s.len) ==> s.arr[i] == old(s.arr[i])
    {
      WriteBack(s, StableSort(s.arr[s.off..s.off + s.len], MsgOf));
    }

    method WriteBack(s: Slice, tasks: seq<Task>)
      requires InBounds(s) && |tasks| == s.len
      modifies s.arr
      ensures View(s) == tasks
      ensures forall i :: 0 <= i < s.arr.Length && !(s.off <= i < s.off + s.len) ==> s.arr[i] == old(s.arr[i])
    {
      forall i | 0 <= i < s.len {
        s.arr[s.off + i] := tasks[i];
      }
    }

    /** Sorting the waiting tasks of one pool in place moves nothing else. */
    method SortPool(k: string)
      requires Valid() && k in tasks
      modifies tasks[k].arr
      ensures Valid()
      ensures View(tasks[k]) == StableSort(old(View(tasks[k])), MsgOf)
      ensures forall p :: p in tasks && p != k ==> View(tasks[p]) == old(View(tasks[p]))
    {
      SortSlice(tasks[k]);
      forall b | b in handed ensures View(b.slice) == b.tasks {
        assert b.slice.arr == tasks[k].arr ==> b.slice.off + b.slice.len <= tasks[k].off;
        assert View(b.slice) == old(View(b.slice));
      }
    }

    /** The first tasks of the window go to a signer; the rest of the same array keeps waiting. */
    method HandOver(k: string, totalTasks: nat)
      requires Valid() && k in tasks && totalTasks <= tasks[k].len
      modifies this
      ensures Valid() && Arrays() <= old(Arrays())
      ensures tasks.Keys == old(tasks.Keys)
      ensures View(tasks[k]) == old(View(tasks[k]))[totalTasks..]
      ensures forall p :: p in tasks && p != k ==> tasks[p] == old(tasks[p])
      ensures handed == old(handed) + [Batch(k, old(tasks[k]).(len := totalTasks), old(View(tasks[k]))[..totalTasks])]
    {
      var v := tasks[k];
      var signingTask := v.(len := totalTasks);
      SplitView(v, totalTasks);
      handed := handed + [Batch(k, signingTask, View(v)[..totalTasks])];
      tasks := tasks[k := Slice(v.arr, v.off + totalTasks, v.len - totalTasks)];
      assert tasks[k].arr == v.arr;
      assert Arrays() <= old(Arrays());
    }

    /** A pool with nothing waiting is forgotten. */
    method DropPool(k: string)
      requires Valid() && k in tasks && tasks[k].len == 0
      modifies this`tasks
      ensures Valid() && Arrays() <= old(Arrays()) && tasks == old(tasks) - {k}
      ensures forall p :: PoolAt(p) == old(PoolAt(p))
    {
      assert View(tasks[k]) == [];
      tasks := tasks - {k};
    }

    /** At most fifteen waiting tasks of a pool go to a signer. */
    method SendBatch(k: string)
      requires Valid() && k in tasks && tasks[k].len > 0
      modifies this, tasks[k].arr
      ensures Valid() && Arrays() <= old(Arrays()) && tasks.Keys == old(tasks.Keys)
      ensures View(tasks[k]) == Remainder(old(View(tasks[k])))
      ensures forall p :: p in tasks && p != k ==> View(tasks[p]) == old(View(tasks[p]))
      ensures GaveAway(old(handed), handed, k, NextBatch(old(View(tasks[k]))))
    {
      ghost var before := View(tasks[k]);
      var totalTasks := tasks[k].len;
      if totalTasks > MAX_KEYSIGN_PER_REQUEST {
        totalTasks := MAX_KEYSIGN_PER_REQUEST;
        SortPool(k);
      }
      assert View(tasks[k]) == InOrder(before);
      HandOver(k, totalTasks);
    }

    /** One pool of one tick. */
    method DispatchPool(k: string)
      requires Valid() && k in tasks
      modifies this, tasks[k].arr
      ensures Valid() && Arrays() <= old(Arrays())
      ensures Kept(old(handed), handed)
      ensures old(tasks.Keys) - {k} <= tasks.Keys <= old(tasks.Keys)
      ensures PoolAt(k) == Tick(old(PoolAt(k)))
      ensures forall p :: p != k ==> PoolAt(p) == old(PoolAt(p))
    {
      if tasks[k].len == 0 {
        DropPool(k);
      } else {
        ghost var before, was := View(tasks[k]), handed;
        SendBatch(k);
        GaveAwayBatches(was, handed, k, NextBatch(before));
      }
    }

    /** Every pool as it is now. */
    ghost function Pools(): (pools: string -> Pool)
      reads this, Arrays()
      ensures forall p :: pools(p) == PoolAt(p)
    {
      var waiting := map k | k in tasks :: View(tasks[k]);
      var given := handed;
      p => Pool(if p in waiting then waiting[p] else [], BatchesOf(given, p))
    }

    /** The next pool of a tick; `before` are the pools at its start, `keys` those it goes through. */
    method DispatchNext(todo: set<string>, ghost keys: set<string>,
                        ghost before: string -> Pool) returns (rest: set<string>)
      requires Valid() && todo != {} && todo <= tasks.Keys && todo <= keys
      requires forall p :: PoolAt(p) == PartlyTicked(before, keys - todo, p)
      modifies this, Arrays()
      ensures Valid() && Arrays() <= old(Arrays()) && Kept(old(handed), handed)
      ensures rest < todo && rest <= tasks.Keys <= old(tasks.Keys)
      ensures forall p :: PoolAt(p) == PartlyTicked(before, keys - rest, p)
    {
      var k :| k in todo;
      DispatchPool(k);
      rest := todo - {k};
    }

    /** Once a second: every pool, in an arbitrary order. */
    method ProcessTick()
      requires Valid()
      modifies this, Arrays()
      ensures Valid() && Arrays() <= old(Arrays())
      ensures Kept(old(handed), handed)
      ensures forall p :: PoolAt(p) == Tick(old(PoolAt(p)))
    {
      var todo := tasks.Keys;
      ghost var before, keys := Pools(), tasks.Keys;
      while todo != {}
        invariant Valid() && Arrays() <= old(Arrays())
        invariant Kept(old(handed), handed)
        invariant todo <= tasks.Keys && todo <= keys
        invariant forall p :: PoolAt(p) == PartlyTicked(before, keys - todo, p)
        decreases todo
      {
        todo := DispatchNext(todo, keys, before);
      }
    }
  }

  /** A pool in the middle of a tick that has gone through `done`. */
  function PartlyTicked(before: string -> Pool, done: set<string>, pool: string): Pool {
    if pool in done then Tick(before(pool)) else before(pool)
  }
}
