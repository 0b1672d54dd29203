/** Alignment of addresses in 64-bit unsigned arithmetic: padPointer. */
module Alignment {
  import opened Masks

  const ADDRESSES: nat := 0x1_0000_0000_0000_0000

  /** The remainder, under a name that can be hidden from the verifier. */
  function Rem(x: int, a: nat): nat
    requires a > 0
  {
    x % a
  }

  lemma MulFar(a: int, d: int)
    requires a >= 0
    ensures d >= 1 ==> a * d >= a
    ensures d <= -1 ==> a * d <= -a
  {
    if d >= 1 {
      assert a * d == a * (d - 1) + a;
    }
    if d <= -1 {
      assert a * d == -(a * (-d - 1)) - a;
    }
  }

  lemma RemUnique(x: int, a: nat, q: int, r: nat)
    requires r < a && x == a * q + r
    ensures Rem(x, a) == r
  {
    var d := q - x / a;
    assert x == a * (x / a) + x % a;
    assert a * d == a * q - a * (x / a);
    MulFar(a, d);
  }

  lemma RemParts(x: int, a: nat) returns (q: int)
    requires a > 0
    ensures x == a * q + Rem(x, a) && Rem(x, a) < a
  {
    q := x / a;
  }

  /** A shift by a multiple keeps the remainder. */
  lemma RemShift(x: int, y: int, a: nat)
    requires a > 0 && Rem(y, a) == 0
    ensures Rem(x + y, a) == Rem(x, a)
  {
    var p := RemParts(x, a);
    var q := RemParts(y, a);
    hide Rem;
    assert a * (p + q) == a * p + a * q;
    RemUnique(x + y, a, p + q, Rem(x, a));
  }

  lemma AlignedSum(x: nat, y: nat, a: nat)
    requires a > 0 && Rem(x, a) == 0 && Rem(y, a) == 0
    ensures Rem(x + y, a) == 0
  {
    RemShift(x, y, a);
  }

  lemma AlignedFactor(x: nat, a: nat, b: nat)
    requires a > 0 && b > 0 && Rem(a, b) == 0 && Rem(x, a) == 0
    ensures Rem(x, b) == 0
  {
    var m := RemParts(x, a);
    var n := RemParts(a, b);
    hide Rem;
    assert b * (n * m) == (b * n) * m;
    RemUnique(x, b, n * m, 0);
  }

  lemma {:induction false} PowDivides(j: nat, k: nat)
    requires j <= k
    ensures Rem(Pow2(k), Pow2(j)) == 0
  {
    hide Rem;
    if j == k {
      RemUnique(Pow2(j), Pow2(j), 1, 0);
    } else {
      PowDivides(j, k - 1);
      AlignedSum(Pow2(k - 1), Pow2(k - 1), Pow2(j));
    }
  }

  /** padPointer: `(align - result) % align` in 64-bit unsigned arithmetic. */
  function PadPointer(p: nat, align: nat): nat
    requires align > 0
  {
    Rem((align - p) % ADDRESSES, align)
  }

  /** For every alignment that is a power of two, the wrap-around of the unsigned
      difference is harmless: the padding is the least that reaches a multiple. */
  lemma PadIsExact(p: nat, k: nat)
    requires p < ADDRESSES && k < 64
    ensures PadPointer(p, Pow2(k)) < Pow2(k)
    ensures Rem(p + PadPointer(p, Pow2(k)), Pow2(k)) == 0
    ensures forall x | p <= x < p + PadPointer(p, Pow2(k)) :: Rem(x, Pow2(k)) != 0
  {
    var a := Pow2(k);
    Pow2Of64();
    PowDivides(k, 64);
    PowBelow(k, 64);
    hide Rem, Pow2;
    RemUnique(a, a, 1, 0);
    var d := (a - p) % ADDRESSES;
    WrapMinus(a, p);
    AlignedSum(a, ADDRESSES, a);
    PadFrom(p, a, d);
  }

  lemma WrapMinus(a: nat, p: nat)
    requires a < ADDRESSES && p < ADDRESSES
    ensures (a - p) % ADDRESSES == if p <= a then a - p else a - p + ADDRESSES
  {
  }

  lemma PadFrom(p: nat, a: nat, d: nat)
    requires a > 0 && Rem(p + d, a) == 0
    ensures Rem(d, a) < a && Rem(p + Rem(d, a), a) == 0
    ensures forall x | p <= x < p + Rem(d, a) :: Rem(x, a) != 0
  {
    var m := RemParts(p + d, a);
    var c := RemParts(d, a);
    hide Rem;
    var r := Rem(d, a);
    assert a * (m - c) == a * m - a * c;
    RemUnique(p + r, a, m - c, 0);
    var n := m - c - 1;
    assert a * (n + 1) == a * n + a;
    forall x | p <= x < p + r
      ensures Rem(x, a) != 0
    {
      RemUnique(x, a, n, x - (p + r) + a);
    }
  }

  lemma Pow2Of64()
    ensures Pow2(64) == ADDRESSES
  {
    assert Pow2(4) == 16;
    PowSum(4, 4);
    PowSum(8, 8);
    PowSum(16, 16);
    PowSum(32, 32);
  }

  lemma {:induction false} PowSum(j: nat, k: nat)
    ensures Pow2(j + k) == Pow2(j) * Pow2(k)
  {
    if k > 0 {
      PowSum(j, k - 1);
      assert Pow2(j + k) == 2 * Pow2(j + k - 1);
      assert Pow2(j) * (2 * Pow2(k - 1)) == 2 * (Pow2(j) * Pow2(k - 1));
    }
  }

  lemma {:induction false} PowBelow(j: nat, k: nat)
    requires j < k
    ensures Pow2(j) < Pow2(k)
  {
    if j < k - 1 {
      PowBelow(j, k - 1);
    }
  }
}
