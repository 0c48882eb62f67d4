/** The identifier that all nodes derive from a keygen or keysign request. */
module MessageIds {
  import opened Types
  import opened Sorting
  import Q = SigningQueue

  /** strings.Join with a comma. */
  function Join(parts: seq<string>): string {
    if parts == [] then "" else if |parts| == 1 then parts[0] else parts[0] + "," + Join(parts[1..])
  }

  function Concat(parts: seq<string>): string {
    if parts == [] then "" else Concat(parts[..|parts| - 1]) + parts[|parts| - 1]
  }

  /** The bytes that are hashed: messages in order, then keys in order. */
  function RequestData(messages: seq<string>, keys: seq<string>): string {
    Join(SortedStrings(messages)) + Concat(SortedStrings(keys))
  }

  /** Sorts both lists in place and hashes their concatenation; an empty request is an error. */
  method RequestToMsgId(messages: array<string>, keys: array<string>,
                        hash: string -> string) returns (ok: bool, id: string)
    requires messages != keys
    modifies messages, keys
    ensures messages[..] == SortedStrings(old(messages[..])) && keys[..] == SortedStrings(old(keys[..]))
    ensures ok <==> RequestData(old(messages[..]), old(keys[..])) != ""
    ensures ok ==> id == hash(RequestData(old(messages[..]), old(keys[..])))
  {
    SortStrings(messages);
    var dat := Join(messages[..]);
    var keyAccumulation := "";
    SortStrings(keys);
    for i := 0 to keys.Length
      invariant keyAccumulation == Concat(keys[..i])
    {
      assert keys[..i + 1][..i] == keys[..i];
      keyAccumulation := keyAccumulation + keys[i];
    }
    assert keys[..keys.Length] == keys[..];
    dat := dat + keyAccumulation;
    if |dat| == 0 {
      return false, "";
    }
    return true, hash(dat);
  }

  predicate Plain(s: string) {
    s != "" && ',' !in s
  }

  ghost predicate AllPlain(parts: seq<string>) {
    forall p :: p in parts ==> Plain(p)
  }

  lemma JoinHasComma(parts: seq<string>)
    requires |parts| >= 2
    ensures ',' in Join(parts)
  {
    assert Join(parts)[|parts[0]|] == ',';
  }

  /** Joining loses nothing when the parts are non-empty and have no comma. */
  lemma {:induction false} JoinInjective(a: seq<string>, b: seq<string>)
    requires AllPlain(a) && AllPlain(b)
    requires Join(a) == Join(b)
    ensures a == b
  {
    if a == [] || b == [] {
      assert a != [] ==> Plain(a[0]);
      assert b != [] ==> Plain(b[0]);
    } else {
      assert Plain(a[0]) && Plain(b[0]);
      if |a| == 1 && |b| >= 2 {
        JoinHasComma(b);
      } else if |a| >= 2 && |b| == 1 {
        JoinHasComma(a);
      } else if |a| >= 2 && |b| >= 2 {
        SeparatorSplits(',', a[0], b[0], Join(a[1..]), Join(b[1..]));
        JoinInjective(a[1..], b[1..]);
      }
      assert a == [a[0]] + a[1..] && b == [b[0]] + b[1..];
    }
  }

  lemma SortedPlain(s: seq<string>)
    requires AllPlain(s)
    ensures AllPlain(SortedStrings(s))
  {
    SortedStringsSorts(s);
    forall p | p in SortedStrings(s) ensures Plain(p) {
      assert p in multiset(SortedStrings(s));
    }
  }

  // ------------------------------------------------------------ when two requests share an id

  /** Signer keys are non-empty, have one length, and no comma. */
  ghost predicate KeysOk(keys: seq<string>, len: nat) {
    len > 0 && forall k :: k in keys ==> |k| == len && ',' !in k
  }

  lemma {:induction false} ConcatSameLength(a: seq<string>, b: seq<string>, len: nat)
    requires KeysOk(a, len) && KeysOk(b, len) && |a| == |b|
    ensures |Concat(a)| == |Concat(b)|
  {
    if a != [] {
      ConcatSameLength(a[..|a| - 1], b[..|b| - 1], len);
    }
  }

  lemma {:induction false} ConcatAppend(a: seq<string>, b: seq<string>)
    ensures Concat(a + b) == Concat(a) + Concat(b)
  {
    if b == [] {
      assert a + b == a;
    } else {
      ConcatAppend(a, b[..|b| - 1]);
      assert (a + b)[..|a + b| - 1] == a + b[..|b| - 1];
    }
  }

  lemma ConcatSplit(x: string, keys: seq<string>, d: nat)
    requires d <= |keys|
    ensures x + Concat(keys) == (x + Concat(keys[..d])) + Concat(keys[d..])
  {
    assert keys == keys[..d] + keys[d..];
    ConcatAppend(keys[..d], keys[d..]);
  }

  /** Keys of one length can be read back from their concatenation. */
  lemma {:induction false} ConcatInjective(a: seq<string>, b: seq<string>, len: nat)
    requires KeysOk(a, len) && KeysOk(b, len) && |a| == |b| && Concat(a) == Concat(b)
    ensures a == b
  {
    if a != [] {
      var x, y, p, q := a[..|a| - 1], b[..|b| - 1], a[|a| - 1], b[|b| - 1];
      ConcatSameLength(x, y, len);
      assert Concat(x) == Concat(a)[..|Concat(x)|] && Concat(y) == Concat(b)[..|Concat(x)|];
      assert p == Concat(a)[|Concat(x)|..] && q == Concat(b)[|Concat(x)|..];
      ConcatInjective(x, y, len);
      assert a == x + [p] && b == y + [q];
    }
  }

  lemma SortedKeysOk(keys: seq<string>, len: nat)
    requires KeysOk(keys, len)
    ensures KeysOk(SortedStrings(keys), len)
  {
    SortedStringsSorts(keys);
    forall k | k in SortedStrings(keys) ensures |k| == len && ',' !in k {
      assert k in multiset(SortedStrings(keys));
    }
  }

  /** The second request is the first one with its least `d` keys moved to the end of the last
      message; for d == 0 the requests are the same. */
  ghost predicate KeysMoved(m1: seq<string>, k1: seq<string>, m2: seq<string>, k2: seq<string>) {
    && |k2| <= |k1|
    && var d := |k1| - |k2|;
    && SortedStrings(k2) == SortedStrings(k1)[d..]
    && Join(SortedStrings(m2)) == Join(SortedStrings(m1)) + Concat(SortedStrings(k1)[..d])
  }

  lemma SameDataMovesKeys(m1: seq<string>, k1: seq<string>, m2: seq<string>, k2: seq<string>, len: nat)
    requires KeysOk(k1, len) && KeysOk(k2, len) && |k2| <= |k1|
    requires RequestData(m1, k1) == RequestData(m2, k2)
    ensures KeysMoved(m1, k1, m2, k2)
  {
    var a, b, d := SortedStrings(k1), SortedStrings(k2), |k1| - |k2|;
    var x, y := Join(SortedStrings(m1)), Join(SortedStrings(m2));
    SortedKeysOk(k1, len);
    SortedKeysOk(k2, len);
    ConcatSplit(x, a, d);
    SameKeyTails(x + Concat(a[..d]), y, a[d..], b, len);
  }

  lemma SameKeyTails(x: string, y: string, a: seq<string>, b: seq<string>, len: nat)
    requires KeysOk(a, len) && KeysOk(b, len) && |a| == |b| && x + Concat(a) == y + Concat(b)
    ensures x == y && a == b
  {
    ConcatSameLength(a, b, len);
    SameTails(x, y, Concat(a), Concat(b));
    ConcatInjective(a, b, len);
  }

  lemma SameTails(a: string, b: string, x: string, y: string)
    requires a + x == b + y && |x| == |y|
    ensures a == b && x == y
  {
    assert |a| == |b|;
    assert a == (a + x)[..|a|] && b == (b + y)[..|a|];
    assert x == (a + x)[|a|..] && y == (b + y)[|a|..];
  }

  lemma MovedKeysSameData(m1: seq<string>, k1: seq<string>, m2: seq<string>, k2: seq<string>)
    requires KeysMoved(m1, k1, m2, k2)
    ensures RequestData(m1, k1) == RequestData(m2, k2)
  {
    ConcatSplit(Join(SortedStrings(m1)), SortedStrings(k1), |k1| - |k2|);
  }

  /** Exactly which requests share an id. */
  lemma SameIdExactly(m1: seq<string>, k1: seq<string>, m2: seq<string>, k2: seq<string>, len: nat,
                      hash: string -> string)
    requires KeysOk(k1, len) && KeysOk(k2, len) && |k2| <= |k1|
    requires Separates(hash, RequestData(m1, k1), RequestData(m2, k2))
    ensures hash(RequestData(m1, k1)) == hash(RequestData(m2, k2)) <==> KeysMoved(m1, k1, m2, k2)
  {
    if hash(RequestData(m1, k1)) == hash(RequestData(m2, k2)) {
      SameDataMovesKeys(m1, k1, m2, k2, len);
    }
    if KeysMoved(m1, k1, m2, k2) {
      MovedKeysSameData(m1, k1, m2, k2);
    }
  }

  ghost predicate SameRequest(m1: seq<string>, k1: seq<string>, m2: seq<string>, k2: seq<string>) {
    multiset(m1) == multiset(m2) && multiset(k1) == multiset(k2)
  }

  /** Requests with equally many signers get the same id exactly if they are for the same messages
      and signers, each as often, in whatever order either list is. */
  lemma SameIdIff(m1: seq<string>, k1: seq<string>, m2: seq<string>, k2: seq<string>, len: nat, hash: string -> string)
    requires AllPlain(m1) && AllPlain(m2) && KeysOk(k1, len) && KeysOk(k2, len) && |k1| == |k2|
    requires Separates(hash, RequestData(m1, k1), RequestData(m2, k2))
    ensures hash(RequestData(m1, k1)) == hash(RequestData(m2, k2)) <==> SameRequest(m1, k1, m2, k2)
  {
    SameIdExactly(m1, k1, m2, k2, len, hash);
    SameSorted(k1, k2);
    SameSorted(m1, m2);
    var x := Join(SortedStrings(m1));
    assert Concat(SortedStrings(k1)[..0]) == "" && x + "" == x;
    if Join(SortedStrings(m2)) == x {
      SortedPlain(m1);
      SortedPlain(m2);
      JoinInjective(SortedStrings(m1), SortedStrings(m2));
    }
  }

  /** For one list of signers, whatever their keys look like, only the messages matter. */
  lemma SameSignersIdIff(m1: seq<string>, m2: seq<string>, k1: seq<string>, k2: seq<string>, hash: string -> string)
    requires AllPlain(m1) && AllPlain(m2) && multiset(k1) == multiset(k2)
    requires Separates(hash, RequestData(m1, k1), RequestData(m2, k2))
    ensures hash(RequestData(m1, k1)) == hash(RequestData(m2, k2)) <==> multiset(m1) == multiset(m2)
  {
    SameSorted(k1, k2);
    SameSorted(m1, m2);
    if hash(RequestData(m1, k1)) == hash(RequestData(m2, k2)) {
      var tail := Concat(SortedStrings(k1));
      SameTails(Join(SortedStrings(m1)), Join(SortedStrings(m2)), tail, tail);
      SortedPlain(m1);
      SortedPlain(m2);
      JoinInjective(SortedStrings(m1), SortedStrings(m2));
    }
  }

  // ------------------------------------------------------------ messages that end in padding

  /** Every message ends with a character that no key has, as base64 text of 32 bytes ends with '='. */
  ghost predicate Padded(messages: seq<string>, keys: seq<string>, pad: char) {
    && (forall m :: m in messages ==> m != "" && m[|m| - 1] == pad)
    && (forall k :: k in keys ==> pad !in k)
  }

  lemma {:induction false} JoinEnds(parts: seq<string>)
    requires parts != [] && parts[|parts| - 1] != ""
    ensures Join(parts) != ""
    ensures Join(parts)[|Join(parts)| - 1] == parts[|parts| - 1][|parts[|parts| - 1]| - 1]
  {
    if |parts| > 1 {
      JoinEnds(parts[1..]);
    }
  }

  lemma {:induction false} ConcatLacks(keys: seq<string>, c: char)
    requires forall k :: k in keys ==> c !in k
    ensures c !in Concat(keys)
  {
    if keys != [] {
      ConcatLacks(keys[..|keys| - 1], c);
    }
  }

  /** With such messages no key can have moved, so the number of signers need not be known. */
  lemma PaddedIdsSeparate(m1: seq<string>, k1: seq<string>, m2: seq<string>, k2: seq<string>, len: nat, pad: char,
                          hash: string -> string)
    requires AllPlain(m1) && AllPlain(m2) && KeysOk(k1, len) && KeysOk(k2, len)
    requires Padded(m1, k1, pad) && Padded(m2, k2, pad)
    requires Separates(hash, RequestData(m1, k1), RequestData(m2, k2))
    ensures hash(RequestData(m1, k1)) == hash(RequestData(m2, k2)) <==> SameRequest(m1, k1, m2, k2)
  {
    if |k1| == |k2| {
      SameIdIff(m1, k1, m2, k2, len, hash);
    } else if |k2| < |k1| {
      SameIdExactly(m1, k1, m2, k2, len, hash);
      PaddedKeepKeys(m1, k1, m2, k2, len, pad);
      assert |multiset(k1)| == |k1| && |multiset(k2)| == |k2|;
    } else {
      SameIdExactly(m2, k2, m1, k1, len, hash);
      PaddedKeepKeys(m2, k2, m1, k1, len, pad);
      assert |multiset(k1)| == |k1| && |multiset(k2)| == |k2|;
    }
  }

  lemma PaddedKeepKeys(m1: seq<string>, k1: seq<string>, m2: seq<string>, k2: seq<string>, len: nat, pad: char)
    requires KeysOk(k1, len) && |k2| < |k1|
    requires Padded(m1, k1, pad) && Padded(m2, k2, pad)
    ensures !KeysMoved(m1, k1, m2, k2)
  {
    var moved := SortedStrings(k1)[..|k1| - |k2|];
    MovedText(k1, |k1| - |k2|, len, pad);
    var x, y, text := Join(SortedStrings(m1)), Join(SortedStrings(m2)), Concat(moved);
    assert (x + text)[|x + text| - 1] == text[|text| - 1];
    if m2 != [] {
      SortedStringsSorts(m2);
      assert SortedStrings(m2)[|m2| - 1] in multiset(m2);
      JoinEnds(SortedStrings(m2));
    }
  }

  lemma MovedText(keys: seq<string>, d: nat, len: nat, pad: char)
    requires KeysOk(keys, len) && 0 < d <= |keys| && forall k :: k in keys ==> pad !in k
    ensures var text := Concat(SortedStrings(keys)[..d]); text != "" && pad !in text
  {
    var moved := SortedStrings(keys)[..d];
    SortedStringsSorts(keys);
    forall k | k in moved ensures pad !in k && k != "" {
      assert k in multiset(SortedStrings(keys));
    }
    ConcatLacks(moved, pad);
    assert moved[d - 1] in moved;
  }

  // ------------------------------------------------------------ requests that share an id

  lemma {:induction false} LeqExtended(a: string, b: string, tail: string)
    requires Leq(a, b)
    ensures Leq(a, b + tail)
  {
    if a != [] && a[0] == b[0] {
      LeqExtended(a[1..], b[1..], tail);
      assert (b + tail)[1..] == b[1..] + tail;
    }
  }

  lemma {:induction false} JoinExtended(parts: seq<string>, tail: string)
    requires parts != []
    ensures Join(parts[..|parts| - 1] + [parts[|parts| - 1] + tail]) == Join(parts) + tail
  {
    var all := parts[..|parts| - 1] + [parts[|parts| - 1] + tail];
    if |parts| > 1 {
      JoinExtended(parts[1..], tail);
      assert all[1..] == parts[1..][..|parts| - 2] + [parts[|parts| - 1] + tail];
    }
  }

  lemma SortedIsFixed(s: seq<string>)
    requires Sorted(s)
    ensures SortedStrings(s) == s
  {
    SortedStringsSorts(s);
    SortedUnique(SortedStrings(s), s);
  }

  /** Every request with a message and a signer shares its id with another one: the least signer key
      can be moved to the end of the greatest message. */
  lemma EveryIdIsShared(m: seq<string>, k: seq<string>) returns (m': seq<string>, k': seq<string>)
    requires m != [] && k != []
    ensures m' == SortedStrings(m)[..|m| - 1] + [SortedStrings(m)[|m| - 1] + SortedStrings(k)[0]]
    ensures k' == SortedStrings(k)[1..]
    ensures RequestData(m', k') == RequestData(m, k) && !SameRequest(m', k', m, k)
  {
    var a, b := SortedStrings(m), SortedStrings(k);
    m', k' := a[..|m| - 1] + [a[|m| - 1] + b[0]], b[1..];
    SortedStringsSorts(m);
    SortedStringsSorts(k);
    ExtendedSorted(a, b[0]);
    SortedIsFixed(m');
    SortedIsFixed(k');
    JoinExtended(a, b[0]);
    assert b[..1] == [b[0]] && Concat([b[0]]) == b[0];
    MovedKeysSameData(m, k, m', k');
    assert |multiset(k')| == |k'| < |k| == |multiset(k)|;
  }

  lemma ExtendedSorted(s: seq<string>, tail: string)
    requires s != [] && Sorted(s)
    ensures Sorted(s[..|s| - 1] + [s[|s| - 1] + tail])
  {
    var t := s[..|s| - 1] + [s[|s| - 1] + tail];
    forall i, j | 0 <= i < j < |t| ensures Leq(t[i], t[j]) {
      if j == |s| - 1 {
        LeqExtended(s[i], s[j], tail);
      }
    }
  }

  /** Nodes whose queues got the same messages ask for the same keysign instances, batch by batch. */
  lemma NodesRequestTheSameIds(a: seq<seq<Q.Task>>, b: seq<seq<Q.Task>>, i: nat)
    requires Q.SameRounds(a, b) && i < |Q.Run(Q.EventsOf(a)).batches|
    ensures i < |Q.Run(Q.EventsOf(b)).batches|
    ensures RequestData(Q.Msgs(Q.Run(Q.EventsOf(a)).batches[i]), [])
      == RequestData(Q.Msgs(Q.Run(Q.EventsOf(b)).batches[i]), [])
  {
    Q.NodesBatchAlike(a, b);
    assert Q.SameMessages(Q.Run(Q.EventsOf(a)).batches[i], Q.Run(Q.EventsOf(b)).batches[i]);
    SameSorted(Q.Msgs(Q.Run(Q.EventsOf(a)).batches[i]), Q.Msgs(Q.Run(Q.EventsOf(b)).batches[i]));
  }
}
