/** Names shared by every component: identifiers, bytes, and optional values. */
module Types {
  datatype Option<+T> = None | Some(value: T)

  newtype byte = x: int | 0 <= x < 256

  type Bytes = seq<byte>
  type PeerId = string
  type PartyId = string
  type Hash = string

  /** A signature as the library returns it: the bytes it signed are `m`, and `signature` is absent
      if the keysign failed. */
  datatype ECSignature = ECSignature(signature: Option<Bytes>, recovery: Bytes, r: Bytes, s: Bytes, m: Bytes)

  function Max(a: int, b: int): int {
    if a < b then b else a
  }

  ghost predicate NoDuplicates<T>(s: seq<T>) {
    forall i, j :: 0 <= i < j < |s| ==> s[i] != s[j]
  }

  function SetOf<T(==)>(s: seq<T>): set<T> {
    set x | x in s
  }

  /** Every element of the set once, in some order. */
  ghost predicate Lists<T>(list: seq<T>, elements: set<T>) {
    NoDuplicates(list) && SetOf(list) == elements
  }

  lemma {:induction false} ListOf<T>(elements: set<T>) returns (list: seq<T>)
    ensures Lists(list, elements)
  {
    if elements == {} {
      list := [];
    } else {
      var x :| x in elements;
      var rest := ListOf(elements - {x});
      list := rest + [x];
      OneMore(rest, x);
    }
  }

  lemma {:induction false} SetSize<T>(s: seq<T>)
    requires NoDuplicates(s)
    ensures |SetOf(s)| == |s|
  {
    if s != [] {
      SetSize(s[1..]);
      assert SetOf(s) == {s[0]} + SetOf(s[1..]);
      assert s[0] !in s[1..];
    } else {
      assert SetOf(s) == {};
    }
  }

  lemma OneMore<T>(s: seq<T>, x: T)
    requires NoDuplicates(s) && x !in s
    ensures NoDuplicates(s + [x]) && SetOf(s + [x]) == SetOf(s) + {x}
  {
  }

  lemma SubsetSize<T>(a: set<T>, b: set<T>)
    requires a <= b
    ensures |a| <= |b|
  {
    assert b == a + (b - a);
  }

  lemma SameSize<T>(a: set<T>, b: set<T>)
    requires a <= b && |a| == |b|
    ensures a == b
  {
    assert b == a + (b - a);
  }

  /** The function has no collision on these two arguments. */
  predicate Separates<T(==), U(==)>(h: T -> U, x: T, y: T) {
    h(x) == h(y) ==> x == y
  }

  lemma {:induction false} SizeMeansDistinct<T>(s: seq<T>)
    ensures |SetOf(s)| <= |s|
    ensures |SetOf(s)| == |s| ==> NoDuplicates(s)
  {
    if s != [] {
      SizeMeansDistinct(s[1..]);
      assert SetOf(s) == {s[0]} + SetOf(s[1..]);
      if s[0] in s[1..] {
        assert SetOf(s) == SetOf(s[1..]);
      }
    } else {
      assert SetOf(s) == {};
    }
  }

  /** Text before the first separator can be told from the text after it. */
  lemma SeparatorSplits(c: char, a: string, b: string, x: string, y: string)
    requires c !in a && c !in b
    requires a + [c] + x == b + [c] + y
    ensures a == b && x == y
  {
    var s := a + [c] + x;
    assert s[|a|] == c && s[|b|] == c;
    assert |a| == |b|;
    assert a == s[..|a|] && b == s[..|b|];
    assert x == s[|a| + 1..] && y == s[|b| + 1..];
  }

  function Flatten<T>(lists: seq<seq<T>>): seq<T> {
    if lists == [] then [] else Flatten(lists[..|lists| - 1]) + lists[|lists| - 1]
  }

  lemma FlattenAppend<T>(lists: seq<seq<T>>, list: seq<T>)
    ensures Flatten(lists + [list]) == Flatten(lists) + list
  {
    assert (lists + [list])[..|lists|] == lists;
  }
}
