/** Lining up signatures with messages: both lists are sorted, separately and in place, by
    descending hash integer, and then paired by index. */
module Pairing {
  import opened Types
  import opened Numbers
  import opened Sorting
  import opened LibrarySort

  // ------------------------------------------------------------ hash integers

  const ORDER_BYTES := 32

  /** The leftmost bits of the hash, as many as the group order has; 256 for secp256k1, so that
      the final shift never applies. */
  function HashToInt(hash: Bytes): int {
    BigEndian(if |hash| > ORDER_BYTES then hash[..ORDER_BYTES] else hash)
  }

  // ------------------------------------------------------------ descending order

  lemma SameHead(s: seq<int>, t: seq<int>)
    requires Descending(s) && Descending(t) && s != [] && t != []
    requires s[0] in t && t[0] in s
    ensures s[0] == t[0]
  {
  }

  /** A multiset of integers has only one descending listing. */
  lemma {:induction false} DescendingUnique(s: seq<int>, t: seq<int>)
    requires Descending(s) && Descending(t) && multiset(s) == multiset(t)
    ensures s == t
  {
    assert |s| == |multiset(s)| == |multiset(t)| == |t|;
    if s != [] {
      assert s[0] in multiset(t) && t[0] in multiset(s);
      SameHead(s, t);
      MultisetTail(s);
      MultisetTail(t);
      DescendingUnique(s[1..], t[1..]);
      assert s == [s[0]] + s[1..] && t == [t[0]] + t[1..];
    }
  }

  // ------------------------------------------------------------ pairing

  datatype Signature = Signature(msg: string, sig: ECSignature)

  /** The integer that was signed. */
  function SignedInt(sig: ECSignature): int {
    BigEndian(sig.m)
  }

  /** After two separate descending sorts the lists agree on the hash integers, index by index,
      whatever either sort did with equal keys. */
  lemma IndependentSortsAlign(msgs: seq<Bytes>, sigs: seq<ECSignature>)
    requires Descending(Keys(msgs, HashToInt)) && Descending(Keys(sigs, SignedInt))
    requires multiset(Keys(msgs, HashToInt)) == multiset(Keys(sigs, SignedInt))
    ensures |msgs| == |sigs|
    ensures forall i :: 0 <= i < |msgs| ==> SignedInt(sigs[i]) == HashToInt(msgs[i])
  {
    DescendingUnique(Keys(msgs, HashToInt), Keys(sigs, SignedInt));
    forall i | 0 <= i < |msgs| ensures SignedInt(sigs[i]) == HashToInt(msgs[i]) {
      assert HashToInt(msgs[i]) == Keys(msgs, HashToInt)[i] == Keys(sigs, SignedInt)[i] == SignedInt(sigs[i]);
    }
  }

  method BatchSignatures(sigs: seq<ECSignature>, msgsToSign: seq<Bytes>, encode: Bytes -> string)
      returns (signatures: seq<Signature>)
    requires |sigs| <= |msgsToSign|
    ensures signatures == Batch(sigs, msgsToSign, encode)
  {
    signatures := [];
    for i := 0 to |sigs|
      invariant signatures == Batch(sigs, msgsToSign, encode)[..i]
    {
      signatures := signatures + [Signature(encode(msgsToSign[i]), sigs[i])];
    }
  }

  function Batch(sigs: seq<ECSignature>, msgs: seq<Bytes>, encode: Bytes -> string): (r: seq<Signature>)
    requires |sigs| <= |msgs|
    ensures |r| == |sigs|
    ensures forall i :: 0 <= i < |sigs| ==> r[i] == Signature(encode(msgs[i]), sigs[i])
  {
    seq(|sigs|, i requires 0 <= i < |sigs| => Signature(encode(msgs[i]), sigs[i]))
  }

  /** Hashes are told apart by their integers up to the length of the group order, and what follows is
      ignored. */
  lemma HashToIntReads(h: Bytes, x: Bytes)
    ensures |h| <= ORDER_BYTES ==> HashToInt(h) == BigEndian(h)
    ensures |h| == 32 ==> HashToInt(h + x) == BigEndian(h)
  {
    if |h| == 32 {
      assert (h + x)[..32] == h;
      assert x == [] ==> h + x == h;
    }
  }

  /** Every entry of a response names a requested message and carries a signature on its hash. */
  ghost predicate ProperResponse(response: seq<Signature>, requested: seq<Bytes>, encode: Bytes -> string) {
    && |response| == |requested|
    && (forall e :: e in response ==> IsAnswer(e, requested, encode))
    && (forall m :: m in requested ==> HasAnswer(m, response, encode))
  }

  ghost predicate IsAnswer(e: Signature, requested: seq<Bytes>, encode: Bytes -> string) {
    exists m :: m in requested && e.msg == encode(m) && SignedInt(e.sig) == HashToInt(m)
  }

  ghost predicate HasAnswer(m: Bytes, response: seq<Signature>, encode: Bytes -> string) {
    exists e :: e in response && e.msg == encode(m)
  }

  lemma SortedBatchIsProper(requested: seq<Bytes>, msgs: seq<Bytes>, sigs: seq<ECSignature>, encode: Bytes -> string)
    requires multiset(msgs) == multiset(requested)
    requires |msgs| == |sigs| && forall i :: 0 <= i < |msgs| ==> SignedInt(sigs[i]) == HashToInt(msgs[i])
    ensures ProperResponse(Batch(sigs, msgs, encode), requested, encode)
  {
    var response := Batch(sigs, msgs, encode);
    assert |requested| == |multiset(requested)| == |multiset(msgs)| == |msgs|;
    forall e | e in response ensures IsAnswer(e, requested, encode) {
      var i :| 0 <= i < |response| && response[i] == e;
      assert msgs[i] in multiset(requested);
    }
    forall m | m in requested ensures HasAnswer(m, response, encode) {
      assert m in multiset(msgs);
      var i :| 0 <= i < |msgs| && msgs[i] == m;
      assert response[i] in response;
    }
  }

  /** Sort, sign, sort, pair: the library signs each message once, in any order. */
  method SignBatch(msgsToSign: array<Bytes>, results: array<ECSignature>, encode: Bytes -> string)
      returns (response: seq<Signature>)
    requires multiset(Keys(results[..], SignedInt)) == multiset(Keys(msgsToSign[..], HashToInt))
    modifies msgsToSign, results
    ensures ProperResponse(response, old(msgsToSign[..]), encode)
  {
    ghost var requested, signed := msgsToSign[..], results[..];
    SortDescending(msgsToSign, HashToInt);
    ghost var msgs := msgsToSign[..];
    assert results[..] == signed by { assert msgsToSign as object != results; }
    SortDescending(results, SignedInt);
    assert msgsToSign[..] == msgs;
    MultisetOfKeys(msgs, requested, HashToInt);
    MultisetOfKeys(results[..], signed, SignedInt);
    IndependentSortsAlign(msgs, results[..]);
    SortedBatchIsProper(requested, msgs, results[..], encode);
    response := BatchSignatures(results[..], msgsToSign[..], encode);
  }

  // ------------------------------------------------------------ answering signing tasks

  datatype TaskResult = Signed(sig: ECSignature) | NotFound

  function FirstMatch(signatures: seq<Signature>, msg: string): TaskResult {
    if signatures == [] then NotFound
    else if signatures[0].msg == msg then Signed(signatures[0].sig)
    else FirstMatch(signatures[1..], msg)
  }

  lemma {:induction false} FirstMatchFinds(signatures: seq<Signature>, msg: string)
    ensures match FirstMatch(signatures, msg)
      case Signed(sig) => exists i :: 0 <= i < |signatures| && IsFirst(signatures, msg, i) && signatures[i].sig == sig
      case NotFound => forall e :: e in signatures ==> e.msg != msg
  {
    if signatures != [] {
      if signatures[0].msg == msg {
        assert IsFirst(signatures, msg, 0);
      } else {
        FirstMatchFinds(signatures[1..], msg);
        FirstLater(signatures, msg);
      }
    }
  }

  lemma FirstLater(signatures: seq<Signature>, msg: string)
    requires signatures != [] && signatures[0].msg != msg
    ensures forall i: nat ::
      i + 1 < |signatures| ==> (IsFirst(signatures[1..], msg, i) <==> IsFirst(signatures, msg, i + 1))
  {
    forall i: nat | i + 1 < |signatures|
      ensures IsFirst(signatures[1..], msg, i) <==> IsFirst(signatures, msg, i + 1)
    {
      forall j | 0 <= j < i ensures signatures[1..][j] == signatures[j + 1] {
      }
    }
  }

  /** The first entry for the message. */
  ghost predicate IsFirst(signatures: seq<Signature>, msg: string, i: nat)
    requires i < |signatures|
  {
    signatures[i].msg == msg && forall j :: 0 <= j < i ==> signatures[j].msg != msg
  }

  method FindSignature(signatures: seq<Signature>, msg: string) returns (r: TaskResult)
    ensures r == FirstMatch(signatures, msg)
  {
    for i := 0 to |signatures|
      invariant FirstMatch(signatures, msg) == FirstMatch(signatures[i..], msg)
    {
      if msg == signatures[i].msg {
        return Signed(signatures[i].sig);
      }
      assert signatures[i..][1..] == signatures[i + 1..];
    }
    return NotFound;
  }

  /** Each task is answered once, by the first signature for its message. */
  method Respond(tasks: seq<string>, signatures: seq<Signature>) returns (results: seq<TaskResult>)
    ensures |results| == |tasks|
    ensures forall k :: 0 <= k < |tasks| ==> results[k] == FirstMatch(signatures, tasks[k])
  {
    results := [];
    for k := 0 to |tasks|
      invariant |results| == k
      invariant forall j :: 0 <= j < k ==> results[j] == FirstMatch(signatures, tasks[j])
    {
      var r := FindSignature(signatures, tasks[k]);
      results := results + [r];
    }
  }

  /** Every task of the batch is answered with a signature on the hash of its own message. */
  lemma EveryTaskIsSigned(response: seq<Signature>, requested: seq<Bytes>, encode: Bytes -> string, m: Bytes)
    requires ProperResponse(response, requested, encode) && m in requested
    requires forall x :: x in requested ==> Separates(encode, x, m)
    ensures FirstMatch(response, encode(m)).Signed?
    ensures BigEndian(FirstMatch(response, encode(m)).sig.m) == BigEndian(if |m| > 32 then m[..32] else m)
  {
    FirstMatchFinds(response, encode(m));
    assert HasAnswer(m, response, encode);
    match FirstMatch(response, encode(m))
    case NotFound =>
    case Signed(sig) =>
      var i :| 0 <= i < |response| && IsFirst(response, encode(m), i) && response[i].sig == sig;
      assert IsAnswer(response[i], requested, encode);
      var x :| x in requested && response[i].msg == encode(x) && SignedInt(response[i].sig) == HashToInt(x);
      assert Separates(encode, x, m);
  }
}
