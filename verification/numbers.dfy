/** Big-endian byte strings and the numbers they stand for. */
module Numbers {
  import opened Types

  /** Big-endian value of a byte string. */
  function BigEndian(b: Bytes): nat {
    if b == [] then 0 else 256 * BigEndian(b[..|b| - 1]) + b[|b| - 1] as int
  }

  /** The shortest byte string for a number, as big.Int produces it. */
  function ToBytes(n: nat): Bytes {
    if n == 0 then [] else ToBytes(n / 256) + [(n % 256) as byte]
  }

  function Pow256(n: nat): nat {
    if n == 0 then 1 else 256 * Pow256(n - 1)
  }

  function Zeros(n: nat): (r: Bytes)
    ensures |r| == n
  {
    if n == 0 then [] else Zeros(n - 1) + [0]
  }

  lemma {:induction false} ToBytesRoundTrip(n: nat)
    ensures BigEndian(ToBytes(n)) == n
  {
    if n != 0 {
      ToBytesRoundTrip(n / 256);
      assert ToBytes(n)[..|ToBytes(n)| - 1] == ToBytes(n / 256);
    }
  }

  lemma {:induction false} ToBytesLength(n: nat, k: nat)
    ensures |ToBytes(n)| <= k <==> n < Pow256(k)
  {
    if n != 0 && k > 0 {
      ToBytesLength(n / 256, k - 1);
      assert n / 256 < Pow256(k - 1) <==> n < 256 * Pow256(k - 1);
    } else if n != 0 {
      assert |ToBytes(n)| > 0;
    } else {
      PowPositive(k);
    }
  }

  lemma {:induction false} PowPositive(k: nat)
    ensures Pow256(k) >= 1
  {
    if k > 0 {
      PowPositive(k - 1);
    }
  }

  lemma {:induction false} PowAdds(a: nat, b: nat)
    ensures Pow256(a + b) == Pow256(a) * Pow256(b)
  {
    if a > 0 {
      PowAdds(a - 1, b);
      assert Pow256(a + b) == 256 * (Pow256(a - 1) * Pow256(b)) == Pow256(a) * Pow256(b);
    }
  }

  /** Numbers below this fit thirty-two bytes. */
  const TWO_256: int := 0x1_00000000_00000000_00000000_00000000_00000000_00000000_00000000_00000000

  lemma Pow32()
    ensures Pow256(32) == TWO_256
  {
    assert Pow256(1) == 256 * Pow256(0);
    PowAdds(1, 1);
    PowAdds(2, 2);
    PowAdds(4, 4);
    PowAdds(8, 8);
    PowAdds(16, 16);
  }

  lemma {:induction false} LeadingZeros(n: nat, b: Bytes)
    ensures BigEndian(Zeros(n) + b) == BigEndian(b)
    decreases n + |b|
  {
    if b != [] {
      LeadingZeros(n, b[..|b| - 1]);
      assert (Zeros(n) + b)[..n + |b| - 1] == Zeros(n) + b[..|b| - 1];
    } else if n > 0 {
      LeadingZeros(n - 1, []);
      assert Zeros(n) + [] == Zeros(n);
      assert Zeros(n)[..n - 1] == Zeros(n - 1) == Zeros(n - 1) + [];
    }
  }
}
