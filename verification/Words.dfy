/** 32-bit words as natural numbers: the instructions of the hashes, each with
    the reason why it loses nothing. */
module Words {
  import opened Arith
  import opened Masks

  const MODULUS: nat := 0x1_0000_0000

  type byte = x: nat | x < 256
  type word = x: nat | x < MODULUS

  // ---------- Exclusive or ----------

  /** Bitwise exclusive or, one binary digit at a time. */
  function Xor(x: nat, y: nat): nat {
    if x == 0 && y == 0 then 0 else 2 * Xor(x / 2, y / 2) + (x + y) % 2
  }

  lemma XorDigit(x: nat, y: nat)
    ensures Xor(x, y) / 2 == Xor(x / 2, y / 2) && Xor(x, y) % 2 == (x + y) % 2
  {
  }

  lemma ParityCancels(x: nat, y: nat, z: nat)
    requires z % 2 == (x + y) % 2
    ensures (z + y) % 2 == x % 2 && (z + x) % 2 == y % 2
  {
  }

  lemma SameDigits(x: nat, y: nat)
    requires x / 2 == y / 2 && x % 2 == y % 2
    ensures x == y
  {
  }

  lemma {:induction false} XorCancels(x: nat, y: nat)
    ensures Xor(Xor(x, y), y) == x && Xor(Xor(x, y), x) == y
  {
    if x > 0 || y > 0 {
      XorCancels(x / 2, y / 2);
      var z := Xor(x, y);
      XorDigit(x, y);
      XorDigit(z, y);
      XorDigit(z, x);
      hide Xor;
      ParityCancels(x, y, z);
      SameDigits(Xor(z, y), x);
      SameDigits(Xor(z, x), y);
    }
  }

  lemma {:induction false} XorBelow(x: nat, y: nat, k: nat)
    requires x < Pow2(k) && y < Pow2(k)
    ensures Xor(x, y) < Pow2(k)
  {
    if k > 0 {
      XorBelow(x / 2, y / 2, k - 1);
    }
  }

  /** The right shift, one binary digit at a time. */
  function Shr(x: nat, k: nat): (r: nat)
    ensures r <= x && (k > 0 && x > 0 ==> r < x)
  {
    if k == 0 then x else Shr(x / 2, k - 1)
  }

  /** A right shift distributes over exclusive or. */
  lemma {:induction false} XorShift(x: nat, y: nat, k: nat)
    ensures Shr(Xor(x, y), k) == Xor(Shr(x, k), Shr(y, k))
    decreases k
  {
    if k > 0 {
      XorDigit(x, y);
      XorShift(x / 2, y / 2, k - 1);
    }
  }

  /** `x ^= x >> k` is injective: the high part of x determines the rest. */
  lemma {:induction false} ShakeInjective(x: nat, y: nat, k: nat)
    requires k > 0 && Xor(x, Shr(x, k)) == Xor(y, Shr(y, k))
    ensures x == y
    decreases x + y
  {
    hide Xor, Shr;
    if x > 0 || y > 0 {
      XorShift(x, Shr(x, k), k);
      XorShift(y, Shr(y, k), k);
      ShakeInjective(Shr(x, k), Shr(y, k), k);
    }
    XorCancels(x, Shr(x, k));
    XorCancels(y, Shr(y, k));
  }

  // ---------- Instructions ----------

  lemma Pow2Of32()
    ensures Pow2(32) == MODULUS
  {
    assert Pow2(4) == 16;
    assert Pow2(8) == 256;
    assert Pow2(12) == 0x1000;
    assert Pow2(16) == 0x1_0000;
    assert Pow2(20) == 0x10_0000;
    assert Pow2(24) == 0x100_0000;
    assert Pow2(28) == 0x1000_0000;
  }

  function Mix(h: word, w: word): word {
    Pow2Of32();
    XorBelow(h, w, 32);
    Xor(h, w)
  }

  /** x ^ (x >> k) */
  function Shake(x: word, k: nat): word {
    Mix(x, Shr(x, k))
  }

  function Add(x: word, y: word): word {
    (x + y) % MODULUS
  }

  function Mul(x: word, c: word): word {
    (x * c) % MODULUS
  }

  /** ROTL by r bits, for up == 2^r and down == 2^(32 - r); the two shifts have
      no bit in common, so `|` is a sum. */
  function Rotl(x: word, up: nat, down: nat): word
    requires up * down == MODULUS
  {
    RotlBound(x, up, down);
    (x * up) % MODULUS + x / down
  }

  lemma RotlParts(x: word, up: nat, down: nat) returns (q: nat, r: nat)
    requires up * down == MODULUS
    ensures up > 0 && down > 0 && x == down * q + r && q < up
    ensures q == x / down && (x * up) % MODULUS == up * r && up * r + q < MODULUS
  {
    assert up > 0 && down > 0 by {
      assert up == 0 ==> up * down == 0;
      assert down == 0 ==> up * down == 0;
    }
    q, r := QuotientParts(x, down);
    MulMonotone(up, r + 1, down);
    MulMonotone(up, r, r + 1);
    ProductParts(x, up, down, q, r);
    DivModUnique(MODULUS, q, up * r);
    assert down * up == MODULUS;
    if q >= up {
      MulMonotone(down, up, q);
    }
  }

  lemma QuotientParts(x: nat, down: nat) returns (q: nat, r: nat)
    requires down > 0
    ensures q == x / down && x == down * q + r && r < down
  {
    q, r := x / down, x % down;
  }

  lemma ProductParts(x: nat, up: nat, down: nat, q: nat, r: nat)
    requires up * down == MODULUS && x == down * q + r
    ensures x * up == MODULUS * q + up * r
  {
    assert (down * q) * up == (up * down) * q;
    assert (down * q + r) * up == (down * q) * up + r * up;
  }

  lemma RotlBound(x: word, up: nat, down: nat)
    requires up * down == MODULUS
    ensures down > 0 && (x * up) % MODULUS + x / down < MODULUS
  {
    var q, r := RotlParts(x, up, down);
  }

  lemma PairUnique(b: nat, q: nat, r: nat, q': nat, r': nat)
    requires r < b && r' < b && b * q + r == b * q' + r'
    ensures q == q' && r == r'
  {
    DivModUnique(b, q, r);
    DivModUnique(b, q', r');
  }

  lemma RotlInjective(x: word, y: word, up: nat, down: nat)
    requires up * down == MODULUS && Rotl(x, up, down) == Rotl(y, up, down)
    ensures x == y
  {
    var q, r := RotlParts(x, up, down);
    var q', r' := RotlParts(y, up, down);
    PairUnique(up, r, q, r', q');
  }

  /** A factor with an inverse modulo 2^32 loses nothing. */
  lemma MulInjective(x: word, y: word, c: word, inverse: word)
    requires (c * inverse) % MODULUS == 1 && Mul(x, c) == Mul(y, c)
    ensures x == y
  {
    Undone(x, c, inverse);
    Undone(y, c, inverse);
  }

  lemma Undone(x: word, c: word, inverse: word)
    requires (c * inverse) % MODULUS == 1
    ensures Mul(Mul(x, c), inverse) == x
  {
    var q, u := (x * c) / MODULUS, (c * inverse) / MODULUS;
    var r := Mul(x, c);
    assert r == x * c - MODULUS * q;
    calc {
      r * inverse;
      (x * c) * inverse - (MODULUS * q) * inverse;
      x * (c * inverse) - MODULUS * (q * inverse);
      { assert c * inverse == MODULUS * u + 1; }
      x * (MODULUS * u + 1) - MODULUS * (q * inverse);
      MODULUS * (u * x - q * inverse) + x;
    }
    var d := u * x - q * inverse;
    assert d >= 0 by {
      assert r * inverse >= 0;
    }
    DivModUnique(MODULUS, d, x);
  }

  lemma AddInjective(x: word, y: word, c: word)
    requires Add(x, c) == Add(y, c)
    ensures x == y
  {
  }

  lemma MixInjective(x: word, y: word, w: word)
    ensures Mix(x, w) == Mix(y, w) ==> x == y
    ensures Mix(w, x) == Mix(w, y) ==> x == y
  {
    XorCancels(x, w);
    XorCancels(y, w);
    XorCancels(w, x);
    XorCancels(w, y);
  }

  // ---------- Words in memory ----------

  /** DecodeFixed32, which is also the load of a little-endian machine; the bytes
      have no bit in common, so `|` is a sum. */
  function LoadWord(a: byte, b: byte, c: byte, d: byte): word {
    a + 0x100 * b + 0x1_0000 * c + 0x100_0000 * d
  }

  lemma LoadInjective(a: byte, b: byte, c: byte, d: byte, e: byte, f: byte, g: byte, h: byte)
    ensures LoadWord(a, b, c, d) == LoadWord(e, f, g, h) <==> a == e && b == f && c == g && d == h
  {
    if LoadWord(a, b, c, d) == LoadWord(e, f, g, h) {
      var x, y := 0x100 * (0x100 * d + c) + b, 0x100 * (0x100 * h + g) + f;
      assert 0x100 * x + a == 0x100 * y + e;
      Last(x, a, y, e);
      Last(0x100 * d + c, b, 0x100 * h + g, f);
      Last(d, c, h, g);
    }
  }

  lemma Last(q: nat, r: byte, q': nat, r': byte)
    requires 0x100 * q + r == 0x100 * q' + r'
    ensures q == q' && r == r'
  {
  }
}
