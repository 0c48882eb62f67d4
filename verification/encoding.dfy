/** The 64-byte encoding of a signature: R, then the low one of S and N - S, 32 bytes each.
    See "Low S values in signatures" in BIP 62 and section 2.3.7 of SEC 1 version 2.0. */
module SignatureEncoding {
  import opened Types
  import opened Numbers

  /** The order of the secp256k1 group. */
  const N: int := 0xFFFFFFFF_FFFFFFFF_FFFFFFFF_FFFFFFFE_BAAEDCE6_AF48A03B_BFD25E8C_D0364141
  const HALF: int := N / 2

  function Abs(x: int): nat {
    if x < 0 then -x else x
  }

  /** What is written for S: the number's bytes carry no sign. */
  function WrittenS(s: nat): nat {
    if s > HALF then Abs(N - s) else s
  }

  datatype Outcome = DecodeError | SliceOutOfRange | Encoded(sig: Bytes)

  function Pad32(n: nat): Bytes
    requires n < Pow256(32)
  {
    ToBytesLength(n, 32);
    Zeros(32 - |ToBytes(n)|) + ToBytes(n)
  }

  lemma Pad32Decodes(n: nat)
    requires n < Pow256(32)
    ensures |Pad32(n)| == 32 && BigEndian(Pad32(n)) == n
  {
    ToBytesLength(n, 32);
    ToBytesRoundTrip(n);
    LeadingZeros(32 - |ToBytes(n)|, ToBytes(n));
  }

  /** Copies `src` into the end of the first `limit` bytes of the buffer from `from` on. */
  method CopyRight(buffer: array<byte>, from: nat, limit: nat, src: Bytes)
    requires from + |src| <= limit <= buffer.Length
    modifies buffer
    ensures buffer[..] == old(buffer[..limit - |src|]) + src + old(buffer[limit..])
  {
    forall i | 0 <= i < |src| {
      buffer[limit - |src| + i] := src[i];
    }
  }

  method GetSignature(r: string, s: string, decode: string -> Option<Bytes>) returns (out: Outcome)
    ensures match (decode(r), decode(s))
      case (Some(rb), Some(sb)) =>
        out == Encode(BigEndian(rb), BigEndian(sb)) && Serialized(BigEndian(rb), BigEndian(sb), out)
      case _ => out == DecodeError
  {
    var rDecoded, sDecoded := decode(r), decode(s);
    if rDecoded.None? || sDecoded.None? {
      return DecodeError;
    }
    out := Serialize(BigEndian(rDecoded.value), BigEndian(sDecoded.value));
    EncodeSerializes(BigEndian(rDecoded.value), BigEndian(sDecoded.value));
  }

  method Serialize(R: nat, s0: nat) returns (out: Outcome)
    ensures out == Encode(R, s0)
  {
    var S: int := s0;
    if S > HALF {
      S := N - S;
    }
    var rBytes, sBytes := ToBytes(R), ToBytes(Abs(S));
    ToBytesLength(R, 32);
    ToBytesLength(Abs(S), 32);
    if |rBytes| > 32 || |sBytes| > 32 {
      return SliceOutOfRange;
    }
    var sig := FillBuffer(rBytes, sBytes);
    assert Abs(S) == WrittenS(s0);
    assert sig == Pad32(R) + Pad32(Abs(S));
    return Encoded(sig);
  }

  /** Both numbers are right-aligned in a zeroed buffer. */
  method FillBuffer(rBytes: Bytes, sBytes: Bytes) returns (sig: Bytes)
    requires |rBytes| <= 32 && |sBytes| <= 32
    ensures sig == (Zeros(32 - |rBytes|) + rBytes) + (Zeros(32 - |sBytes|) + sBytes)
  {
    var sigBytes := new byte[64](_ => 0);
    ghost var zeroed := sigBytes[..];
    CopyRight(sigBytes, 0, 32, rBytes);
    ghost var half := sigBytes[..];
    CopyRight(sigBytes, 32, 64, sBytes);
    sig := sigBytes[..];
    SplicedTwice(32, zeroed, half, sig, rBytes, sBytes);
    ZeroedPart(zeroed, 0, 32 - |rBytes|);
    ZeroedPart(zeroed, 32, 64 - |sBytes|);
  }

  lemma ZeroedPart(z: Bytes, from: nat, to: nat)
    requires from <= to <= |z| && forall i :: 0 <= i < |z| ==> z[i] == 0
    ensures z[from..to] == Zeros(to - from)
  {
    ZerosAre(z[from..to], to - from);
  }

  lemma SplicedTwice(n: nat, zeroed: Bytes, half: Bytes, sig: Bytes, r: Bytes, s: Bytes)
    requires |zeroed| == n + n && |r| <= n && |s| <= n
    requires half == zeroed[..n - |r|] + r + zeroed[n..]
    requires sig == half[..n + n - |s|] + s + half[n + n..]
    ensures sig == (zeroed[..n - |r|] + r) + (zeroed[n..n + n - |s|] + s)
  {
    assert half[..n + n - |s|] == (zeroed[..n - |r|] + r) + zeroed[n..n + n - |s|];
  }

  lemma {:induction false} ZerosAre(z: Bytes, n: nat)
    requires |z| == n && forall i :: 0 <= i < n ==> z[i] == 0
    ensures z == Zeros(n)
  {
    if n > 0 {
      ZerosAre(z[..n - 1], n - 1);
      assert z == z[..n - 1] + [0];
    }
  }

  function Encode(R: nat, S: nat): Outcome {
    if R < Pow256(32) && WrittenS(S) < Pow256(32) then Encoded(Pad32(R) + Pad32(WrittenS(S))) else SliceOutOfRange
  }

  /** Numbers that fit give 64 bytes, and these decode to R and to the low one of S and N - S; for an S
      of the group that is all there is to it. */
  ghost predicate Serialized(R: nat, S: nat, out: Outcome) {
    && out != DecodeError
    && (out == SliceOutOfRange <==> R >= TWO_256 || S >= N + TWO_256)
    && (out.Encoded? ==>
          && |out.sig| == 64 && BigEndian(out.sig[..32]) == R
          && (S <= HALF ==> BigEndian(out.sig[32..]) == S)
          && (HALF < S <= N ==> BigEndian(out.sig[32..]) == N - S <= HALF)
          && (N < S ==> BigEndian(out.sig[32..]) == S - N))
  }

  lemma EncodeSerializes(R: nat, S: nat)
    ensures Serialized(R, S, Encode(R, S))
    ensures R < TWO_256 && 0 < S < N ==>
      Encode(R, S).Encoded? && BigEndian(Encode(R, S).sig[32..]) in {S, N - S}
  {
    Pow32();
    if Encode(R, S).Encoded? {
      EncodingDecodes(R, S);
    }
  }

  /** The halves decode to R and to what is written for S. */
  lemma EncodingDecodes(R: nat, S: nat)
    requires Encode(R, S).Encoded?
    ensures |Encode(R, S).sig| == 64
    ensures BigEndian(Encode(R, S).sig[..32]) == R
    ensures BigEndian(Encode(R, S).sig[32..]) == WrittenS(S)
  {
    Pad32Decodes(R);
    Pad32Decodes(WrittenS(S));
    var sig := Encode(R, S).sig;
    assert sig[..32] == Pad32(R) && sig[32..] == Pad32(WrittenS(S));
  }

  /** For a signature of the group S is replaced by the low one of S and N - S. */
  lemma LowS(S: nat)
    requires 0 < S < N
    ensures WrittenS(S) in {S, N - S} && 0 < WrittenS(S) <= HALF
  {
  }

  /** What is written is low exactly up to S = N + floor(N / 2). */
  lemma LowSIff(S: nat)
    ensures WrittenS(S) <= HALF <==> S <= N + HALF
  {
  }

  /** Encoding what was decoded changes nothing, exactly when what was written is low. */
  lemma ReencodingIff(R: nat, S: nat)
    requires Encode(R, S).Encoded?
    ensures Encode(BigEndian(Encode(R, S).sig[..32]), BigEndian(Encode(R, S).sig[32..])) == Encode(R, S)
      <==> S <= N + HALF
  {
    EncodingDecodes(R, S);
    WrittenTwice(S);
    if Encode(R, WrittenS(S)) == Encode(R, S) {
      EncodingDecodes(R, WrittenS(S));
    }
  }

  lemma WrittenTwice(S: nat)
    ensures WrittenS(WrittenS(S)) == WrittenS(S) <==> S <= N + HALF
  {
    LowSIff(S);
  }
}
