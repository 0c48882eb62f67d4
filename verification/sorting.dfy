/** Byte-wise order on strings, and stable sorting by a string key. */
module Sorting {
  predicate Leq(a: string, b: string) {
    a == [] || (b != [] && (a[0] < b[0] || (a[0] == b[0] && Leq(a[1..], b[1..]))))
  }

  /** The strings agree up to this place, and the first has the smaller character there. */
  ghost predicate SmallerAt(a: string, b: string, i: nat) {
    i < |a| && i < |b| && a[..i] == b[..i] && a[i] < b[i]
  }

  /** The order of Go's strings: a prefix comes first, else the first difference decides. */
  lemma {:induction false} LeqIsLexicographic(a: string, b: string)
    ensures Leq(a, b) <==> a <= b || exists i: nat :: SmallerAt(a, b, i)
  {
    if a != [] && b != [] {
      if a[0] == b[0] {
        LeqIsLexicographic(a[1..], b[1..]);
        SmallerLater(a, b);
        assert a <= b <==> a[1..] <= b[1..] by {
          assert a == [a[0]] + a[1..] && b == [b[0]] + b[1..];
        }
      } else if a[0] < b[0] {
        assert SmallerAt(a, b, 0);
      } else {
        forall i: nat ensures SmallerAt(a, b, i) ==> a[0] <= b[0] {
          FirstDecides(a, b, i);
        }
      }
    }
  }

  lemma FirstDecides(a: string, b: string, i: nat)
    ensures SmallerAt(a, b, i) ==> a[0] <= b[0]
  {
    if SmallerAt(a, b, i) && i > 0 {
      assert a[..i][0] == a[0] && b[..i][0] == b[0];
    }
  }

  lemma SmallerLater(a: string, b: string)
    requires a != [] && b != [] && a[0] == b[0]
    ensures (exists i: nat :: SmallerAt(a, b, i)) <==> exists i: nat :: SmallerAt(a[1..], b[1..], i)
  {
    if i: nat :| SmallerAt(a, b, i) {
      assert a[..i] == b[..i] && i > 0;
      assert a[1..][..i - 1] == a[..i][1..] && b[1..][..i - 1] == b[..i][1..];
      assert SmallerAt(a[1..], b[1..], i - 1);
    }
    if i: nat :| SmallerAt(a[1..], b[1..], i) {
      assert a[..i + 1] == [a[0]] + a[1..][..i] && b[..i + 1] == [b[0]] + b[1..][..i];
      assert SmallerAt(a, b, i + 1);
    }
  }

  lemma {:induction false} LeqTotal(a: string, b: string)
    ensures Leq(a, b) || Leq(b, a)
  {
    if a != [] && b != [] && a[0] == b[0] {
      LeqTotal(a[1..], b[1..]);
    }
  }

  lemma {:induction false} LeqAntisymmetric(a: string, b: string)
    requires Leq(a, b) && Leq(b, a)
    ensures a == b
  {
    if a != [] && b != [] {
      LeqAntisymmetric(a[1..], b[1..]);
      assert a == [a[0]] + a[1..] && b == [b[0]] + b[1..];
    }
  }

  lemma {:induction false} LeqTransitive(a: string, b: string, c: string)
    requires Leq(a, b) && Leq(b, c)
    ensures Leq(a, c)
  {
    if a != [] && b != [] && c != [] && a[0] == b[0] == c[0] {
      LeqTransitive(a[1..], b[1..], c[1..]);
    }
  }

  predicate Sorted(s: seq<string>) {
    forall i, j :: 0 <= i < j < |s| ==> Leq(s[i], s[j])
  }

  lemma MultisetTail<T>(s: seq<T>)
    requires s != []
    ensures multiset(s[1..]) == multiset(s) - multiset{s[0]}
  {
    assert s == [s[0]] + s[1..];
  }

  lemma SameHead(s: seq<string>, t: seq<string>)
    requires Sorted(s) && Sorted(t) && s != [] && t != []
    requires s[0] in t && t[0] in s
    ensures s[0] == t[0]
  {
    var i :| 0 <= i < |t| && t[i] == s[0];
    var j :| 0 <= j < |s| && s[j] == t[0];
    if i > 0 && j > 0 {
      LeqAntisymmetric(s[0], t[0]);
    }
  }

  /** A multiset of strings has only one sorted listing. */
  lemma {:induction false} SortedUnique(s: seq<string>, t: seq<string>)
    requires Sorted(s) && Sorted(t) && multiset(s) == multiset(t)
    ensures s == t
  {
    assert |s| == |multiset(s)| == |multiset(t)| == |t|;
    if s != [] {
      assert s[0] in multiset(t) && t[0] in multiset(s);
      SameHead(s, t);
      MultisetTail(s);
      MultisetTail(t);
      SortedUnique(s[1..], t[1..]);
      assert s == [s[0]] + s[1..] && t == [t[0]] + t[1..];
    }
  }

  function Keys<T, K>(s: seq<T>, key: T -> K): (r: seq<K>)
    ensures |r| == |s|
    ensures forall i :: 0 <= i < |s| ==> r[i] == key(s[i])
  {
    seq(|s|, i requires 0 <= i < |s| => key(s[i]))
  }

  /** Inserts x behind every element whose key is not greater. */
  function Insert<T>(s: seq<T>, x: T, key: T -> string): (r: seq<T>)
    ensures |r| == |s| + 1
  {
    if s != [] && !Leq(key(s[|s| - 1]), key(x)) then Insert(s[..|s| - 1], x, key) + [s[|s| - 1]] else s + [x]
  }

  function StableSort<T>(s: seq<T>, key: T -> string): (r: seq<T>)
    ensures |r| == |s|
  {
    if s == [] then [] else Insert(StableSort(s[..|s| - 1], key), s[|s| - 1], key)
  }

  lemma {:induction false} InsertKeeps<T>(s: seq<T>, x: T, key: T -> string)
    ensures multiset(Insert(s, x, key)) == multiset(s) + multiset{x}
  {
    if s != [] && !Leq(key(s[|s| - 1]), key(x)) {
      var init, last := s[..|s| - 1], s[|s| - 1];
      InsertKeeps(init, x, key);
      assert s == init + [last];
    }
  }

  lemma {:induction false} InsertSorts<T>(s: seq<T>, x: T, key: T -> string)
    requires Sorted(Keys(s, key))
    ensures Sorted(Keys(Insert(s, x, key), key))
  {
    var r := Insert(s, x, key);
    if s != [] && !Leq(key(s[|s| - 1]), key(x)) {
      var init, last := s[..|s| - 1], s[|s| - 1];
      assert Keys(init, key) == Keys(s, key)[..|init|];
      InsertSorts(init, x, key);
      LeqTotal(key(x), key(last));
      forall i, j | 0 <= i < j < |Keys(r, key)| ensures Leq(Keys(r, key)[i], Keys(r, key)[j]) {
        if j == |r| - 1 {
          InsertMember(init, x, key, i);
          assert forall k :: 0 <= k < |init| ==> Leq(Keys(s, key)[k], Keys(s, key)[|init|]);
        } else {
          assert Keys(r, key)[i] == Keys(Insert(init, x, key), key)[i];
          assert Keys(r, key)[j] == Keys(Insert(init, x, key), key)[j];
        }
      }
    } else {
      forall i, j | 0 <= i < j < |Keys(r, key)| ensures Leq(Keys(r, key)[i], Keys(r, key)[j]) {
        if j == |s| && i < |s| - 1 {
          LeqTransitive(key(s[i]), key(s[|s| - 1]), key(x));
        } else if j < |s| {
          assert Keys(r, key)[i] == Keys(s, key)[i] && Keys(r, key)[j] == Keys(s, key)[j];
        }
      }
    }
  }

  lemma {:induction false} InsertMember<T>(s: seq<T>, x: T, key: T -> string, i: nat)
    requires i < |s| + 1
    ensures Insert(s, x, key)[i] == x || exists j :: 0 <= j < |s| && s[j] == Insert(s, x, key)[i]
  {
    if s != [] && !Leq(key(s[|s| - 1]), key(x)) && i < |s| {
      InsertMember(s[..|s| - 1], x, key, i);
    }
  }

  lemma {:induction false} StableSortSorts<T>(s: seq<T>, key: T -> string)
    ensures multiset(StableSort(s, key)) == multiset(s)
    ensures Sorted(Keys(StableSort(s, key), key))
  {
    if s != [] {
      StableSortSorts(s[..|s| - 1], key);
      InsertKeeps(StableSort(s[..|s| - 1], key), s[|s| - 1], key);
      InsertSorts(StableSort(s[..|s| - 1], key), s[|s| - 1], key);
      assert s == s[..|s| - 1] + [s[|s| - 1]];
    }
  }

  /** The elements with key k, in order. */
  function Having<T>(s: seq<T>, k: string, key: T -> string): seq<T> {
    if s == [] then []
    else Having(s[..|s| - 1], k, key) + if key(s[|s| - 1]) == k then [s[|s| - 1]] else []
  }

  lemma {:induction false} InsertIsStable<T>(s: seq<T>, x: T, k: string, key: T -> string)
    ensures Having(Insert(s, x, key), k, key) == Having(s + [x], k, key)
  {
    assert (s + [x])[..|s|] == s;
    if s != [] && !Leq(key(s[|s| - 1]), key(x)) {
      var init, last := s[..|s| - 1], s[|s| - 1];
      InsertIsStable(init, x, k, key);
      assert (init + [x])[..|init|] == init;
      var r := Insert(s, x, key);
      assert r[..|r| - 1] == Insert(init, x, key);
      LeqTotal(key(last), key(x));
    }
  }

  /** Elements with equal keys keep their order. */
  lemma {:induction false} StableSortIsStable<T>(s: seq<T>, k: string, key: T -> string)
    ensures Having(StableSort(s, key), k, key) == Having(s, k, key)
  {
    if s != [] {
      var init, last := s[..|s| - 1], s[|s| - 1];
      StableSortIsStable(init, k, key);
      InsertIsStable(StableSort(init, key), last, k, key);
      assert (StableSort(init, key) + [last])[..|init|] == StableSort(init, key);
    }
  }

  lemma KeysWithout<T, K>(t: seq<T>, i: nat, key: T -> K)
    requires i < |t|
    ensures multiset(Keys(t, key)) == multiset(Keys(t[..i] + t[i + 1..], key)) + multiset{key(t[i])}
  {
    assert Keys(t, key) == Keys(t[..i], key) + [key(t[i])] + Keys(t[i + 1..], key);
    assert Keys(t[..i] + t[i + 1..], key) == Keys(t[..i], key) + Keys(t[i + 1..], key);
  }

  lemma Without<T>(t: seq<T>, i: nat)
    requires i < |t|
    ensures multiset(t[..i] + t[i + 1..]) == multiset(t) - multiset{t[i]}
  {
    assert t == t[..i] + [t[i]] + t[i + 1..];
  }

  /** An element of s can be taken out of t as well. */
  lemma MatchHead<T>(s: seq<T>, t: seq<T>) returns (i: nat)
    requires multiset(s) == multiset(t) && s != []
    ensures i < |t| && t[i] == s[0]
    ensures multiset(s[1..]) == multiset(t[..i] + t[i + 1..])
  {
    assert s[0] in multiset(t);
    i :| 0 <= i < |t| && t[i] == s[0];
    MultisetTail(s);
    Without(t, i);
  }

  lemma {:induction false} MultisetOfKeys<T, K>(s: seq<T>, t: seq<T>, key: T -> K)
    requires multiset(s) == multiset(t)
    ensures multiset(Keys(s, key)) == multiset(Keys(t, key))
    decreases |s|
  {
    if s == [] {
      assert |multiset(t)| == |t|;
    } else {
      var i := MatchHead(s, t);
      var rest := t[..i] + t[i + 1..];
      MultisetOfKeys(s[1..], rest, key);
      KeysStep(s, t, i, key);
    }
  }

  lemma KeysStep<T, K>(s: seq<T>, t: seq<T>, i: nat, key: T -> K)
    requires s != [] && i < |t| && t[i] == s[0]
    requires multiset(Keys(s[1..], key)) == multiset(Keys(t[..i] + t[i + 1..], key))
    ensures multiset(Keys(s, key)) == multiset(Keys(t, key))
  {
    assert Keys(s, key) == [key(s[0])] + Keys(s[1..], key);
    KeysWithout(t, i, key);
  }

  // ------------------------------------------------------------ lists of strings

  function Id(s: string): string { s }

  function SortedStrings(s: seq<string>): (r: seq<string>)
    ensures |r| == |s|
  {
    StableSort(s, Id)
  }

  lemma SortedStringsSorts(s: seq<string>)
    ensures Sorted(SortedStrings(s)) && multiset(SortedStrings(s)) == multiset(s)
  {
    StableSortSorts(s, Id);
    assert Keys(SortedStrings(s), Id) == SortedStrings(s);
  }

  /** The library's sort. */
  method SortStrings(a: array<string>)
    modifies a
    ensures a[..] == SortedStrings(old(a[..]))
  {
    var sorted := SortedStrings(a[..]);
    forall i | 0 <= i < a.Length {
      a[i] := sorted[i];
    }
  }

  lemma SameSorted(s: seq<string>, t: seq<string>)
    ensures SortedStrings(s) == SortedStrings(t) <==> multiset(s) == multiset(t)
  {
    SortedStringsSorts(s);
    SortedStringsSorts(t);
    if multiset(s) == multiset(t) {
      SortedUnique(SortedStrings(s), SortedStrings(t));
    }
  }
}
