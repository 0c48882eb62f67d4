/** Go's stable sort: insertion sort on blocks of twenty elements, then merges of neighbouring blocks
    in rounds of growing size. The comparator is that of a keysign, which answers true on equal keys
    and so is not a strict order; what the library still guarantees follows from its steps. */
module LibrarySort {
  import opened Sorting

  const BLOCK_SIZE := 20

  /** Keys never grow. */
  predicate Descending(keys: seq<int>) {
    forall i, j :: 0 <= i < j < |keys| ==> keys[i] >= keys[j]
  }

  /** The comparator: "x goes before y", also when the keys are equal. */
  predicate Before<T>(x: T, y: T, key: T -> int) {
    key(x) >= key(y)
  }

  // ------------------------------------------------------------ one block

  /** x moves down past every element that it goes before. */
  function Sink<T>(s: seq<T>, x: T, key: T -> int): (r: seq<T>)
    ensures |r| == |s| + 1
  {
    if s != [] && Before(x, s[|s| - 1], key) then Sink(s[..|s| - 1], x, key) + [s[|s| - 1]] else s + [x]
  }

  function InsertionSort<T>(s: seq<T>, key: T -> int): (r: seq<T>)
    ensures |r| == |s|
  {
    if s == [] then [] else Sink(InsertionSort(s[..|s| - 1], key), s[|s| - 1], key)
  }

  function SortBlocks<T>(s: seq<T>, key: T -> int): (r: seq<T>)
    ensures |r| == |s|
  {
    if |s| < BLOCK_SIZE then InsertionSort(s, key)
    else InsertionSort(s[..BLOCK_SIZE], key) + SortBlocks(s[BLOCK_SIZE..], key)
  }

  // ------------------------------------------------------------ merging two blocks

  /** Binary search: where the answers of `test` turn from true to false. */
  function Search(lo: nat, hi: nat, test: nat -> bool): (r: nat)
    requires lo <= hi
    ensures lo <= r <= hi
    ensures r > lo ==> test(r - 1)
    ensures r < hi ==> !test(r)
    decreases hi - lo
  {
    if lo == hi then lo
    else
      var h := (lo + hi) / 2;
      if test(h) then Search(h + 1, hi, test) else Search(lo, h, test)
  }

  function KeyAt<T>(s: seq<T>, i: int, key: T -> int): int {
    if 0 <= i < |s| then key(s[i]) else 0
  }

  /** Where a single element before a block goes: behind everything that goes before it. */
  function PlaceFirst<T>(e: T, s: seq<T>, key: T -> int): (i: nat)
    ensures i <= |s|
    ensures i > 0 ==> Before(s[i - 1], e, key)
    ensures i < |s| ==> !Before(s[i], e, key)
  {
    Search(0, |s|, (h: nat) => KeyAt(s, h, key) >= key(e))
  }

  /** Where a single element behind a block goes: before everything that it goes before. */
  function PlaceLast<T>(s: seq<T>, e: T, key: T -> int): (i: nat)
    ensures i <= |s|
    ensures i > 0 ==> !Before(e, s[i - 1], key)
    ensures i < |s| ==> Before(e, s[i], key)
  {
    Search(0, |s|, (h: nat) => !(key(e) >= KeyAt(s, h, key)))
  }

  /** How many elements of x go to the left half of the merge. */
  function Pivot<T>(x: seq<T>, y: seq<T>, key: T -> int): (start: nat)
    requires |x| >= 2 && |y| >= 2
    ensures start <= |x| && start <= (|x| + |y|) / 2 <= start + |y|
    ensures var e := (|x| + |y|) / 2 - start;
      && (start > 0 && e < |y| ==> !Before(y[e], x[start - 1], key))
      && (start < |x| && e > 0 ==> Before(y[e - 1], x[start], key))
  {
    var mid := (|x| + |y|) / 2;
    var test := (c: nat) => Crosses(x, y, mid, c, key);
    var start := if |x| > mid then Search(mid - |y|, mid, test) else Search(0, |x|, test);
    assert start > 0 && mid - start < |y| ==> Crosses(x, y, mid, start - 1, key);
    assert start < |x| && mid - start > 0 ==> !Crosses(x, y, mid, start, key);
    start
  }

  predicate Crosses<T>(x: seq<T>, y: seq<T>, mid: nat, c: nat, key: T -> int) {
    !(KeyAt(y, mid - 1 - c, key) >= KeyAt(x, c, key))
  }

  /** The symmetric merge of two neighbouring blocks. */
  function SymMerge<T>(x: seq<T>, y: seq<T>, key: T -> int): (r: seq<T>)
    ensures |r| == |x| + |y|
    decreases |x| + |y|
  {
    if x == [] || y == [] then x + y
    else if |x| == 1 then
      var i := PlaceFirst(x[0], y, key);
      y[..i] + x + y[i..]
    else if |y| == 1 then
      var i := PlaceLast(x, y[0], key);
      x[..i] + y + x[i..]
    else
      var start, mid := Pivot(x, y, key), (|x| + |y|) / 2;
      SymMerge(x[..start], y[..mid - start], key) + SymMerge(x[start..], y[mid - start..], key)
  }

  // ------------------------------------------------------------ the whole list

  /** One round: blocks of this size are merged in pairs; a last block without a partner stays. */
  function MergeBlocks<T>(s: seq<T>, size: nat, key: T -> int): (r: seq<T>)
    requires size > 0
    ensures |r| == |s|
    decreases |s|
  {
    if |s| <= size then s
    else if |s| < 2 * size then SymMerge(s[..size], s[size..], key)
    else SymMerge(s[..size], s[size..2 * size], key) + MergeBlocks(s[2 * size..], size, key)
  }

  function MergeRounds<T>(s: seq<T>, size: nat, key: T -> int): (r: seq<T>)
    requires size > 0
    ensures |r| == |s|
    decreases |s| - size
  {
    if |s| <= size then s else MergeRounds(MergeBlocks(s, size, key), 2 * size, key)
  }

  function StableSortDescending<T>(s: seq<T>, key: T -> int): (r: seq<T>)
    ensures |r| == |s|
  {
    MergeRounds(SortBlocks(s, key), BLOCK_SIZE, key)
  }

  // ------------------------------------------------------------ what it guarantees

  /** s is a descending rearrangement of t. */
  ghost predicate Sorts<T>(s: seq<T>, t: seq<T>, key: T -> int) {
    multiset(s) == multiset(t) && Descending(Keys(s, key))
  }

  ghost predicate NotBelow<T>(x: seq<T>, y: seq<T>, key: T -> int) {
    forall p, q :: p in x && q in y ==> key(p) >= key(q)
  }

  lemma Joined<T>(x: seq<T>, y: seq<T>, key: T -> int)
    requires Descending(Keys(x, key)) && Descending(Keys(y, key)) && NotBelow(x, y, key)
    ensures Descending(Keys(x + y, key))
  {
    forall i, j | 0 <= i < j < |x + y| ensures key((x + y)[i]) >= key((x + y)[j]) {
      if i < |x| <= j {
        assert x[i] in x && y[j - |x|] in y;
      } else if j < |x| {
        assert Keys(x, key)[i] >= Keys(x, key)[j];
      } else {
        assert Keys(y, key)[i - |x|] >= Keys(y, key)[j - |x|];
      }
    }
  }

  /** A part of a descending list is not below what follows it. */
  lemma Parts<T>(s: seq<T>, i: nat, key: T -> int)
    requires i <= |s| && Descending(Keys(s, key))
    ensures Descending(Keys(s[..i], key)) && Descending(Keys(s[i..], key))
    ensures NotBelow(s[..i], s[i..], key)
  {
    assert Keys(s[..i], key) == Keys(s, key)[..i] && Keys(s[i..], key) == Keys(s, key)[i..];
    forall p, q | p in s[..i] && q in s[i..] ensures key(p) >= key(q) {
      var a :| 0 <= a < i && s[a] == p;
      var b :| i <= b < |s| && s[b] == q;
      assert Keys(s, key)[a] >= Keys(s, key)[b];
    }
  }

  lemma Rearranged<T>(x: seq<T>, x': seq<T>, y: seq<T>, y': seq<T>, key: T -> int)
    requires multiset(x) == multiset(x') && multiset(y) == multiset(y') && NotBelow(x, y, key)
    ensures NotBelow(x', y', key)
  {
    forall p, q | p in x' && q in y' ensures key(p) >= key(q) {
      assert p in multiset(x) && q in multiset(y);
    }
  }

  /** Some element of the first list is not above some element of the second one, and the lists
      are ordered towards them. */
  lemma Across<T>(x: seq<T>, y: seq<T>, key: T -> int)
    requires Descending(Keys(x, key)) && Descending(Keys(y, key))
    requires x == [] || y == [] || key(x[|x| - 1]) >= key(y[0])
    ensures NotBelow(x, y, key)
  {
    forall p, q | p in x && q in y ensures key(p) >= key(q) {
      var i :| 0 <= i < |x| && x[i] == p;
      var j :| 0 <= j < |y| && y[j] == q;
      assert Keys(x, key)[i] >= Keys(x, key)[|x| - 1];
      assert Keys(y, key)[0] >= Keys(y, key)[j];
    }
  }

  lemma AcrossCuts<T>(x: seq<T>, i: nat, y: seq<T>, j: nat, key: T -> int)
    requires i <= |x| && j <= |y| && Descending(Keys(x, key)) && Descending(Keys(y, key))
    requires i > 0 && j < |y| ==> key(x[i - 1]) >= key(y[j])
    ensures NotBelow(x[..i], y[j..], key)
  {
    Parts(x, i, key);
    Parts(y, j, key);
    Across(x[..i], y[j..], key);
  }

  lemma NotBelowJoined<T>(a: seq<T>, b: seq<T>, c: seq<T>, d: seq<T>, key: T -> int)
    requires NotBelow(a, c, key) && NotBelow(a, d, key) && NotBelow(b, c, key) && NotBelow(b, d, key)
    ensures NotBelow(a + b, c + d, key)
  {
  }

  /** The pivot separates: nothing in the left half is below anything in the right half. */
  lemma PivotSeparates<T>(x: seq<T>, y: seq<T>, key: T -> int)
    requires |x| >= 2 && |y| >= 2 && Descending(Keys(x, key)) && Descending(Keys(y, key))
    ensures var start := Pivot(x, y, key); var e := (|x| + |y|) / 2 - start;
      NotBelow(x[..start] + y[..e], x[start..] + y[e..], key)
  {
    var start := Pivot(x, y, key);
    CutsSeparate(x, start, y, (|x| + |y|) / 2 - start, key);
  }

  lemma CutsSeparate<T>(x: seq<T>, i: nat, y: seq<T>, j: nat, key: T -> int)
    requires i <= |x| && j <= |y| && Descending(Keys(x, key)) && Descending(Keys(y, key))
    requires i > 0 && j < |y| ==> key(x[i - 1]) >= key(y[j])
    requires j > 0 && i < |x| ==> key(y[j - 1]) >= key(x[i])
    ensures NotBelow(x[..i] + y[..j], x[i..] + y[j..], key)
  {
    Parts(x, i, key);
    Parts(y, j, key);
    AcrossCuts(x, i, y, j, key);
    AcrossCuts(y, j, x, i, key);
    NotBelowJoined(x[..i], y[..j], x[i..], y[j..], key);
  }

  lemma SymMergeOne<T>(x: seq<T>, y: seq<T>, key: T -> int)
    requires x != [] && y != [] && (|x| == 1 || |y| == 1)
    ensures var r := SymMerge(x, y, key);
      if |x| == 1 then r == y[..PlaceFirst(x[0], y, key)] + [x[0]] + y[PlaceFirst(x[0], y, key)..]
      else r == x[..PlaceLast(x, y[0], key)] + [y[0]] + x[PlaceLast(x, y[0], key)..]
  {
  }

  lemma MergeOne<T>(x: seq<T>, y: seq<T>, key: T -> int)
    requires x != [] && y != [] && (|x| == 1 || |y| == 1)
    requires Descending(Keys(x, key)) && Descending(Keys(y, key))
    ensures Sorts(SymMerge(x, y, key), x + y, key)
  {
    SymMergeOne(x, y, key);
    assert multiset(x + y) == multiset(x) + multiset(y);
    if |x| == 1 {
      OneElement(x);
      Placed(y, PlaceFirst(x[0], y, key), x[0], key);
      Spliced(y, PlaceFirst(x[0], y, key), x[0]);
    } else {
      OneElement(y);
      Placed(x, PlaceLast(x, y[0], key), y[0], key);
      Spliced(x, PlaceLast(x, y[0], key), y[0]);
    }
  }

  lemma OneElement<T>(s: seq<T>)
    requires |s| == 1
    ensures multiset(s) == multiset{s[0]}
  {
    assert s == [s[0]];
  }

  lemma Spliced<T>(s: seq<T>, i: nat, e: T)
    requires i <= |s|
    ensures multiset(s[..i] + [e] + s[i..]) == multiset(s) + multiset{e}
  {
    assert s == s[..i] + s[i..];
  }

  lemma Placed<T>(s: seq<T>, i: nat, e: T, key: T -> int)
    requires i <= |s| && Descending(Keys(s, key))
    requires i > 0 ==> key(s[i - 1]) >= key(e)
    requires i < |s| ==> key(e) >= key(s[i])
    ensures Descending(Keys(s[..i] + [e] + s[i..], key))
  {
    Parts(s, i, key);
    Across(s[..i], [e], key);
    Joined(s[..i], [e], key);
    Across([e], s[i..], key);
    NotBelowJoined(s[..i], [e], s[i..], [], key);
    assert s[i..] + [] == s[i..];
    Joined(s[..i] + [e], s[i..], key);
  }

  lemma {:induction false} SymMergeSorts<T>(x: seq<T>, y: seq<T>, key: T -> int)
    requires Descending(Keys(x, key)) && Descending(Keys(y, key))
    ensures Sorts(SymMerge(x, y, key), x + y, key)
    decreases |x| + |y|
  {
    if x == [] {
      assert x + y == y;
    } else if y == [] {
      assert x + y == x;
    } else if |x| == 1 || |y| == 1 {
      MergeOne(x, y, key);
    } else {
      var start := Pivot(x, y, key);
      var e := (|x| + |y|) / 2 - start;
      Parts(x, start, key);
      Parts(y, e, key);
      SymMergeSorts(x[..start], y[..e], key);
      SymMergeSorts(x[start..], y[e..], key);
      HalvesSort(x, y, start, e, SymMerge(x[..start], y[..e], key), SymMerge(x[start..], y[e..], key), key);
    }
  }

  lemma HalvesSort<T>(x: seq<T>, y: seq<T>, start: nat, e: nat, left: seq<T>, right: seq<T>, key: T -> int)
    requires |x| >= 2 && |y| >= 2 && Descending(Keys(x, key)) && Descending(Keys(y, key))
    requires start == Pivot(x, y, key) && e == (|x| + |y|) / 2 - start
    requires Sorts(left, x[..start] + y[..e], key) && Sorts(right, x[start..] + y[e..], key)
    ensures Sorts(left + right, x + y, key)
  {
    PivotSeparates(x, y, key);
    Rearranged(x[..start] + y[..e], left, x[start..] + y[e..], right, key);
    Joined(left, right, key);
    CutBoth(x, y, start, e);
  }

  lemma CutBoth<T>(x: seq<T>, y: seq<T>, i: nat, j: nat)
    requires i <= |x| && j <= |y|
    ensures multiset(x[..i] + y[..j]) + multiset(x[i..] + y[j..]) == multiset(x + y)
  {
    assert x == x[..i] + x[i..] && y == y[..j] + y[j..];
  }

  lemma {:induction false} SinkSorts<T>(s: seq<T>, x: T, key: T -> int)
    requires Descending(Keys(s, key))
    ensures Sorts(Sink(s, x, key), s + [x], key)
  {
    if s != [] && Before(x, s[|s| - 1], key) {
      var init, last := s[..|s| - 1], s[|s| - 1];
      assert s == init + [last];
      Parts(s, |s| - 1, key);
      SinkSorts(init, x, key);
      Across([x], [last], key);
      NotBelowJoined(init, [x], [last], [], key);
      assert [last] + [] == [last] && s[|s| - 1..] == [last];
      Rearranged(init + [x], Sink(init, x, key), [last], [last], key);
      Joined(Sink(init, x, key), [last], key);
    } else {
      Across(s, [x], key);
      Joined(s, [x], key);
    }
  }

  lemma {:induction false} InsertionSortSorts<T>(s: seq<T>, key: T -> int)
    ensures Sorts(InsertionSort(s, key), s, key)
  {
    if s != [] {
      var init, last := s[..|s| - 1], s[|s| - 1];
      InsertionSortSorts(init, key);
      SinkSorts(InsertionSort(init, key), last, key);
      assert s == init + [last];
    }
  }

  /** Every block of this size is descending. */
  ghost predicate InBlocks<T>(s: seq<T>, size: nat, key: T -> int)
    requires size > 0
    decreases |s|
  {
    if |s| <= size then Descending(Keys(s, key)) else Descending(Keys(s[..size], key)) && InBlocks(s[size..], size, key)
  }

  lemma {:induction false} SortBlocksSorts<T>(s: seq<T>, key: T -> int)
    ensures multiset(SortBlocks(s, key)) == multiset(s) && InBlocks(SortBlocks(s, key), BLOCK_SIZE, key)
    decreases |s|
  {
    if |s| < BLOCK_SIZE {
      InsertionSortSorts(s, key);
    } else {
      var first, rest := InsertionSort(s[..BLOCK_SIZE], key), SortBlocks(s[BLOCK_SIZE..], key);
      InsertionSortSorts(s[..BLOCK_SIZE], key);
      SortBlocksSorts(s[BLOCK_SIZE..], key);
      assert s == s[..BLOCK_SIZE] + s[BLOCK_SIZE..];
      BlockBefore(first, rest, BLOCK_SIZE, key);
    }
  }

  lemma BlockBefore<T>(first: seq<T>, rest: seq<T>, size: nat, key: T -> int)
    requires size > 0 && |first| == size && Descending(Keys(first, key)) && InBlocks(rest, size, key)
    ensures InBlocks(first + rest, size, key)
  {
    assert (first + rest)[..size] == first && (first + rest)[size..] == rest;
    if rest == [] {
      assert first + rest == first;
    }
  }

  lemma {:induction false} MergeBlocksSorts<T>(s: seq<T>, size: nat, key: T -> int)
    requires size > 0 && InBlocks(s, size, key)
    ensures multiset(MergeBlocks(s, size, key)) == multiset(s) && InBlocks(MergeBlocks(s, size, key), 2 * size, key)
    decreases |s|
  {
    if |s| <= size {
    } else if |s| < 2 * size {
      SymMergeSorts(s[..size], s[size..], key);
      assert s == s[..size] + s[size..];
    } else {
      var second, rest := s[size..2 * size], s[2 * size..];
      assert s[size..][..size] == second && s[size..][size..] == rest;
      assert s == s[..size] + second + rest;
      TwoBlocks(s, size, key);
      SymMergeSorts(s[..size], second, key);
      MergeBlocksSorts(rest, size, key);
      BlockBefore(SymMerge(s[..size], second, key), MergeBlocks(rest, size, key), 2 * size, key);
    }
  }

  lemma TwoBlocks<T>(s: seq<T>, size: nat, key: T -> int)
    requires size > 0 && InBlocks(s, size, key) && |s| >= 2 * size
    ensures Descending(Keys(s[..size], key)) && Descending(Keys(s[size..2 * size], key))
    ensures InBlocks(s[2 * size..], size, key)
  {
    var tail := s[size..];
    assert tail[..size] == s[size..2 * size] && tail[size..] == s[2 * size..];
    if |tail| == size {
      assert tail == s[size..2 * size] && s[2 * size..] == [];
    }
  }

  lemma {:induction false} MergeRoundsSorts<T>(s: seq<T>, size: nat, key: T -> int)
    requires size > 0 && InBlocks(s, size, key)
    ensures Sorts(MergeRounds(s, size, key), s, key)
    decreases |s| - size
  {
    if |s| > size {
      MergeBlocksSorts(s, size, key);
      MergeRoundsSorts(MergeBlocks(s, size, key), 2 * size, key);
    }
  }

  /** The whole sort yields a descending rearrangement, of lists of any length. */
  lemma StableSortDescendingSorts<T>(s: seq<T>, key: T -> int)
    ensures Sorts(StableSortDescending(s, key), s, key)
  {
    SortBlocksSorts(s, key);
    MergeRoundsSorts(SortBlocks(s, key), BLOCK_SIZE, key);
  }

  /** What `sort.SliceStable` leaves in the array. */
  method SortDescending<T>(a: array<T>, key: T -> int)
    modifies a
    ensures a[..] == StableSortDescending(old(a[..]), key)
    ensures Descending(Keys(a[..], key)) && multiset(a[..]) == multiset(old(a[..]))
  {
    StableSortDescendingSorts(a[..], key);
    var sorted := StableSortDescending(a[..], key);
    forall i | 0 <= i < a.Length {
      a[i] := sorted[i];
    }
    assert a[..] == sorted;
  }
}
