/** The instructions on words, seen as the instructions of a machine on vectors
    of 32 bits. A fact about the machine is a predicate over its operands and its
    result, so that the induction over the digits of a number sees no arithmetic
    on vectors. */
module WordBits {
  import opened Arith
  import opened Masks
  import opened Words

  /** The vector with the 32 low binary digits of n. */
  function Bits(n: nat): bv32 {
    if n == 0 then 0 else (Bits(n / 2) << 1) | LowBit(n)
  }

  function LowBit(n: nat): bv32 {
    if n % 2 == 1 then 1 else 0
  }

  predicate IsSum(a: bv32, b: bv32, r: bv32) {
    r == a + b
  }

  predicate IsProduct(a: bv32, b: bv32, r: bv32) {
    r == a * b
  }

  predicate IsXor(a: bv32, b: bv32, r: bv32) {
    r == a ^ b
  }

  predicate IsBit(d: bv32) {
    d <= 1
  }

  /** a is h followed by the digit d. */
  predicate IsDigit(h: bv32, d: bv32, a: bv32) {
    a == (h << 1) | d
  }

  lemma Parts(n: nat)
    ensures IsDigit(Bits(n / 2), LowBit(n), Bits(n)) && Bits(0) == 0
    ensures LowBit(n) == (if n % 2 == 1 then 1 else 0) && IsBit(LowBit(n))
  {
  }

  // ---------- Sums and products ----------

  lemma NextDigit(h: bv32, a: bv32, b: bv32)
    requires IsDigit(h, 0, a) && IsDigit(h, 1, b)
    ensures IsSum(a, 1, b)
  {
  }

  lemma Carry(h: bv32, g: bv32, a: bv32, b: bv32)
    requires IsDigit(h, 1, a) && IsDigit(g, 0, b) && IsSum(h, 1, g)
    ensures IsSum(a, 1, b)
  {
  }

  lemma {:induction false} BitsInc(n: nat)
    ensures IsSum(Bits(n), 1, Bits(n + 1))
  {
    hide Bits, LowBit, IsSum, IsDigit;
    Parts(n);
    Parts(n + 1);
    if n % 2 == 0 {
      assert (n + 1) / 2 == n / 2;
      NextDigit(Bits(n / 2), Bits(n), Bits(n + 1));
    } else {
      assert (n + 1) / 2 == n / 2 + 1;
      BitsInc(n / 2);
      Carry(Bits(n / 2), Bits(n / 2 + 1), Bits(n), Bits(n + 1));
    }
  }

  lemma SumZero(a: bv32)
    ensures IsSum(a, 0, a) && IsProduct(a, 0, 0)
  {
  }

  lemma SumStep(a: bv32, b: bv32, r: bv32, b': bv32, r': bv32)
    requires IsSum(a, b, r) && IsSum(b, 1, b') && IsSum(r, 1, r')
    ensures IsSum(a, b', r')
  {
  }

  lemma {:induction false} BitsAdd(m: nat, n: nat)
    ensures IsSum(Bits(m), Bits(n), Bits(m + n))
    decreases n
  {
    hide Bits, IsSum;
    if n == 0 {
      SumZero(Bits(m));
      Parts(0);
    } else {
      BitsAdd(m, n - 1);
      BitsInc(n - 1);
      BitsInc(m + n - 1);
      SumStep(Bits(m), Bits(n - 1), Bits(m + n - 1), Bits(n), Bits(m + n));
    }
  }

  lemma ProductStep(a: bv32, b: bv32, r: bv32, b': bv32, r': bv32)
    requires IsProduct(a, b, r) && IsSum(b, 1, b') && IsSum(r, a, r')
    ensures IsProduct(a, b', r')
  {
  }

  lemma {:induction false} BitsTimes(m: nat, n: nat)
    ensures IsProduct(Bits(m), Bits(n), Bits(Times(m, n)))
    decreases n
  {
    hide Bits, IsSum, IsProduct;
    if n == 0 {
      SumZero(Bits(m));
      Parts(0);
    } else {
      BitsTimes(m, n - 1);
      BitsInc(n - 1);
      BitsAdd(Times(m, n - 1), m);
      ProductStep(Bits(m), Bits(n - 1), Bits(Times(m, n - 1)), Bits(n), Bits(Times(m, n)));
    }
  }

  lemma BitsOfPowers()
    ensures Bits(0x10) == 0x10 && Bits(0x100) == 0x100 && Bits(0x1_0000) == 0x1_0000 && Bits(0x100_0000) == 0x100_0000
    ensures Bits(MODULUS) == 0
  {
    assert Bits(0x10) == 0x10;
    BitsTimes(0x10, 0x10);
    BitsTimes(0x100, 0x100);
    BitsTimes(0x100, 0x1_0000);
    BitsTimes(0x1_0000, 0x1_0000);
    hide Bits;
  }

  lemma SumOfZero(q: bv32, r: bv32, p: bv32, s: bv32)
    requires IsProduct(0, q, p) && IsSum(p, r, s)
    ensures s == r
  {
  }

  lemma BitsMod(n: nat)
    ensures Bits(n % MODULUS) == Bits(n)
  {
    hide Bits, IsSum, IsProduct;
    var q, r := n / MODULUS, n % MODULUS;
    BitsOfPowers();
    BitsTimes(MODULUS, q);
    BitsAdd(Times(MODULUS, q), r);
    SumOfZero(Bits(q), Bits(r), Bits(Times(MODULUS, q)), Bits(n));
  }

  // ---------- Exclusive or ----------

  lemma XorStep(h: bv32, d: bv32, a: bv32, h': bv32, d': bv32, a': bv32, h'': bv32, d'': bv32, a'': bv32)
    requires IsDigit(h, d, a) && IsDigit(h', d', a') && IsDigit(h'', d'', a'')
    requires IsBit(d) && IsBit(d') && IsXor(h, h', h'') && IsXor(d, d', d'')
    ensures IsXor(a, a', a'')
  {
  }

  lemma XorZero()
    ensures IsXor(0, 0, 0)
  {
  }

  lemma LowBitOfSum(x: nat, y: nat, z: nat)
    requires z % 2 == (x + y) % 2
    ensures IsXor(LowBit(x), LowBit(y), LowBit(z))
    ensures IsBit(LowBit(x)) && IsBit(LowBit(y))
  {
  }

  lemma {:induction false} BitsXor(x: nat, y: nat)
    ensures IsXor(Bits(x), Bits(y), Bits(Xor(x, y)))
    decreases x + y
  {
    hide Bits, IsXor, IsDigit, LowBit;
    Parts(0);
    XorZero();
    if x > 0 || y > 0 {
      BitsXor(x / 2, y / 2);
      XorDigit(x, y);
      LowBitOfSum(x, y, Xor(x, y));
      Parts(x);
      Parts(y);
      Parts(Xor(x, y));
      XorStep(Bits(x / 2), LowBit(x), Bits(x), Bits(y / 2), LowBit(y), Bits(y), Bits(Xor(x / 2, y / 2)), LowBit(Xor(x, y)), Bits(Xor(x, y)));
    }
  }

  // ---------- Shifts ----------

  predicate IsShift(a: bv32, n: bv32, r: bv32)
    requires n < 32
  {
    r == a >> n
  }

  /** a has no digit outside the mask. */
  predicate Within(a: bv32, mask: bv32) {
    a & !mask == 0
  }

  function Ones(k: nat): bv32 {
    if k == 0 then 0 else (Ones(k - 1) << 1) | 1
  }

  lemma OnesParts(k: nat)
    ensures Ones(0) == 0 && Within(0, 0)
    ensures k > 0 ==> IsDigit(Ones(k - 1), 1, Ones(k))
  {
  }

  lemma OnesValues()
    ensures Ones(8) == 0xff && Ones(31) == 0x7fff_ffff
  {
    assert Ones(4) == 0xf;
    assert Ones(8) == 0xff;
    assert Ones(12) == 0xfff;
    assert Ones(16) == 0xffff;
    assert Ones(20) == 0xf_ffff;
    assert Ones(24) == 0xff_ffff;
    assert Ones(28) == 0xfff_ffff;
  }

  lemma WithinStep(h: bv32, d: bv32, a: bv32, mask: bv32, mask': bv32)
    requires IsBit(d) && Within(h, mask) && IsDigit(h, d, a) && IsDigit(mask, 1, mask')
    ensures Within(a, mask')
  {
  }

  lemma {:induction false} BitsWithin(n: nat, k: nat)
    requires n < Pow2(k)
    ensures Within(Bits(n), Ones(k))
    decreases k
  {
    hide Bits, Ones, Within, IsBit, IsDigit, LowBit;
    Parts(n);
    OnesParts(k);
    if k > 0 {
      BitsWithin(n / 2, k - 1);
      WithinStep(Bits(n / 2), LowBit(n), Bits(n), Ones(k - 1), Ones(k));
    }
  }

  lemma HalfStep(h: bv32, d: bv32, a: bv32)
    requires IsBit(d) && IsDigit(h, d, a) && Within(h, 0x7fff_ffff)
    ensures IsShift(a, 1, h)
  {
  }

  lemma BitsHalf(n: word)
    ensures IsShift(Bits(n), 1, Bits(n / 2))
  {
    hide Bits, IsShift, IsBit, LowBit, IsDigit, Ones, Within;
    OnesValues();
    Pow2Of32();
    BitsWithin(n / 2, 31);
    Parts(n);
    HalfStep(Bits(n / 2), LowBit(n), Bits(n));
  }

  // ---------- Equal vectors ----------

  lemma LastDigit(h: bv32, x: nat, y: nat, a: bv32)
    requires IsDigit(h, LowBit(x), a) && IsDigit(h, LowBit(y), a)
    ensures x % 2 == y % 2
  {
  }

  lemma SameShift(a: bv32, n: bv32, r: bv32, r': bv32)
    requires n < 32 && IsShift(a, n, r) && IsShift(a, n, r')
    ensures r == r'
  {
  }

  /** A word is determined by its bits. */
  lemma {:induction false} BitsInjective(x: word, y: word)
    requires Bits(x) == Bits(y)
    ensures x == y
    decreases x + y
  {
    hide Bits, IsDigit, IsShift, LowBit, IsBit;
    if x > 0 || y > 0 {
      BitsHalf(x);
      BitsHalf(y);
      SameShift(Bits(x), 1, Bits(x / 2), Bits(y / 2));
      BitsInjective(x / 2, y / 2);
      Parts(x);
      Parts(y);
      LastDigit(Bits(x / 2), x, y, Bits(x));
      SameDigits(x, y);
    }
  }

  /** a shifted down by k digits, one after the other. */
  function Down(a: bv32, k: nat): bv32
    decreases k
  {
    if k == 0 then a else Down(a >> 1, k - 1)
  }

  lemma DownParts(a: bv32, h: bv32, k: nat)
    requires IsShift(a, 1, h)
    ensures Down(a, 0) == a && Down(a, k + 1) == Down(h, k)
  {
  }

  lemma {:induction false} BitsDown(x: word, k: nat)
    ensures Bits(Shr(x, k)) == Down(Bits(x), k)
    decreases k
  {
    BitsHalf(x);
    DownParts(Bits(x), Bits(x / 2), if k == 0 then 0 else k - 1);
    assert k > 0 ==> Shr(x, k) == Shr(x / 2, k - 1);
    if k > 0 {
      hide Bits, Down, IsShift, Shr;
      BitsDown(x / 2, k - 1);
    }
  }

  lemma {:induction false} DownAdds(a: bv32, j: nat, k: nat)
    ensures Down(a, j + k) == Down(Down(a, j), k)
    decreases j
  {
    if j > 0 {
      DownAdds(a >> 1, j - 1, k);
    }
  }

  lemma DownBy13(a: bv32)
    ensures IsShift(a, 13, Down(a, 13))
  {
  }

  lemma DownBy16(a: bv32)
    ensures IsShift(a, 16, Down(a, 16))
  {
    DownAdds(a, 13, 3);
    DownBy13(a);
  }

  lemma DownBy17(a: bv32)
    ensures IsShift(a, 17, Down(a, 17))
  {
    DownAdds(a, 13, 4);
    DownBy13(a);
  }

  lemma DownBy19(a: bv32)
    ensures IsShift(a, 19, Down(a, 19))
  {
    DownAdds(a, 13, 6);
    DownBy13(a);
  }

  lemma DownBy24(a: bv32)
    ensures IsShift(a, 24, Down(a, 24))
  {
    DownAdds(a, 13, 11);
    DownBy13(a);
  }

  // ---------- Rotations ----------

  lemma {:induction false} ShrIsQuotient(x: nat, k: nat)
    ensures Pow2(k) > 0 && Shr(x, k) == x / Pow2(k)
    decreases k
  {
    if k > 0 {
      ShrIsQuotient(x / 2, k - 1);
      QuotientOfHalf(x, Pow2(k - 1));
    }
  }

  lemma QuotientOfHalf(x: nat, p: nat)
    requires p > 0
    ensures x / 2 / p == x / (2 * p)
  {
    var q, r := QuotientParts(x / 2, p);
    DivModUnique(2 * p, q, 2 * r + x % 2);
  }

  lemma RotationPowers()
    ensures Pow2(17) == 0x2_0000 && Pow2(19) == 0x8_0000
    ensures Bits(0x2000) == 0x2000 && Bits(0x8000) == 0x8000
  {
    assert Pow2(8) == 256;
    assert Pow2(16) == 0x1_0000;
    assert Bits(0x20) == 0x20;
  }

  predicate IsRotation(a: bv32, k: bv32, r: bv32)
    requires 0 < k < 32
  {
    r == (a << k) | (a >> (32 - k))
  }

  lemma RotationParts(a: bv32, u: bv32, d: bv32, r: bv32)
    requires IsSum(u, d, r)
    ensures IsProduct(a, 0x2000, u) && IsShift(a, 19, d) ==> IsRotation(a, 13, r)
    ensures IsProduct(a, 0x8000, u) && IsShift(a, 17, d) ==> IsRotation(a, 15, r)
  {
  }

  lemma BitsRotl(x: word)
    ensures IsRotation(Bits(x), 13, Bits(Rotl(x, 0x2000, 0x8_0000)))
    ensures IsRotation(Bits(x), 15, Bits(Rotl(x, 0x8000, 0x2_0000)))
  {
    hide Bits, IsSum, IsProduct, IsShift, IsRotation, Down;
    RotationPowers();
    RotlBits(x, 0x2000, 0x8_0000, 19);
    RotlBits(x, 0x8000, 0x2_0000, 17);
    DownBy17(Bits(x));
    DownBy19(Bits(x));
    RotationParts(Bits(x), Bits(Times(x, 0x2000)), Down(Bits(x), 19), Bits(Rotl(x, 0x2000, 0x8_0000)));
    RotationParts(Bits(x), Bits(Times(x, 0x8000)), Down(Bits(x), 17), Bits(Rotl(x, 0x8000, 0x2_0000)));
  }

  lemma RotlBits(x: word, up: nat, down: nat, k: nat)
    requires up * down == MODULUS && down == Pow2(k)
    ensures IsSum(Bits(Times(x, up)), Down(Bits(x), k), Bits(Rotl(x, up, down)))
    ensures IsProduct(Bits(x), Bits(up), Bits(Times(x, up)))
  {
    hide Bits, IsSum, IsProduct, Down;
    BitsTimes(x, up);
    BitsMod(x * up);
    ShrIsQuotient(x, k);
    BitsDown(x, k);
    BitsAdd((x * up) % MODULUS, Shr(x, k));
  }

  // ---------- The instructions ----------

  /** The instructions on words are those of the machine. */
  lemma AddIsMachine(x: word, y: word)
    ensures IsSum(Bits(x), Bits(y), Bits(Add(x, y)))
  {
    hide Bits, IsSum;
    BitsMod(x + y);
    BitsAdd(x, y);
  }

  lemma MulIsMachine(x: word, y: word)
    ensures IsProduct(Bits(x), Bits(y), Bits(Mul(x, y)))
  {
    hide Bits, IsProduct;
    BitsMod(x * y);
    BitsTimes(x, y);
  }

  lemma MixIsMachine(x: word, y: word)
    ensures IsXor(Bits(x), Bits(y), Bits(Mix(x, y)))
  {
    hide Bits, Xor, IsXor;
    BitsXor(x, y);
  }

  lemma ShrIsMachine(x: word)
    ensures IsShift(Bits(x), 13, Bits(Shr(x, 13)))
    ensures IsShift(Bits(x), 16, Bits(Shr(x, 16)))
    ensures IsShift(Bits(x), 24, Bits(Shr(x, 24)))
  {
    hide Bits, Shr, Down, IsShift;
    BitsDown(x, 13);
    BitsDown(x, 16);
    BitsDown(x, 24);
    DownBy13(Bits(x));
    DownBy16(Bits(x));
    DownBy24(Bits(x));
  }

  lemma RotlIsMachine(x: word)
    ensures IsRotation(Bits(x), 13, Bits(Rotl(x, 0x2000, 0x8_0000)))
    ensures IsRotation(Bits(x), 15, Bits(Rotl(x, 0x8000, 0x2_0000)))
  {
    hide Bits, Rotl, IsRotation;
    BitsRotl(x);
  }

  // ---------- Loads ----------

  /** The load of the source: four bytes side by side. */
  predicate IsLoad(a: bv32, b: bv32, c: bv32, d: bv32, r: bv32) {
    r == a | (b << 8) | (c << 16) | (d << 24)
  }

  lemma LoadParts(a: bv32, b: bv32, c: bv32, d: bv32, u: bv32, v: bv32, w: bv32, p: bv32, q: bv32, r: bv32)
    requires Within(a, 0xff) && Within(b, 0xff) && Within(c, 0xff) && Within(d, 0xff)
    requires IsProduct(0x100, b, u) && IsProduct(0x1_0000, c, v) && IsProduct(0x100_0000, d, w)
    requires IsSum(a, u, p) && IsSum(p, v, q) && IsSum(q, w, r)
    ensures IsLoad(a, b, c, d, r)
  {
  }

  lemma ByteWithin(a: byte)
    ensures Within(Bits(a), 0xff)
  {
    hide Bits, Within, Ones;
    OnesValues();
    assert Pow2(8) == 256;
    BitsWithin(a, 8);
  }

  lemma LoadIsMachine(a: byte, b: byte, c: byte, d: byte)
    ensures IsLoad(Bits(a), Bits(b), Bits(c), Bits(d), Bits(LoadWord(a, b, c, d)))
  {
    hide Bits, Within, IsProduct, IsSum, IsLoad;
    ByteWithin(a);
    ByteWithin(b);
    ByteWithin(c);
    ByteWithin(d);
    BitsOfPowers();
    BitsTimes(0x100, b);
    BitsTimes(0x1_0000, c);
    BitsTimes(0x100_0000, d);
    BitsAdd(a, 0x100 * b);
    BitsAdd(a + 0x100 * b, 0x1_0000 * c);
    BitsAdd(a + 0x100 * b + 0x1_0000 * c, 0x100_0000 * d);
    LoadParts(Bits(a), Bits(b), Bits(c), Bits(d),
              Bits(Times(0x100, b)), Bits(Times(0x1_0000, c)), Bits(Times(0x100_0000, d)),
              Bits(a + 0x100 * b), Bits(a + 0x100 * b + 0x1_0000 * c), Bits(LoadWord(a, b, c, d)));
  }

  // ---------- Literals ----------

  lemma Small()
    ensures Bits(0) == 0 && Bits(1) == 1 && Bits(2) == 2 && Bits(3) == 3
    ensures Bits(4) == 4 && Bits(5) == 5 && Bits(6) == 6 && Bits(7) == 7
  {
  }
  lemma Large()
    ensures Bits(8) == 8 && Bits(9) == 9 && Bits(10) == 10 && Bits(11) == 11
    ensures Bits(12) == 12 && Bits(13) == 13 && Bits(14) == 14 && Bits(15) == 15
  {
    Small();
  }
  function Nibble(n: nat): bv32
    requires n < 16
  {
    [0, 1, 2, 3, 4, 5, 6, 7, 8, 9, 10, 11, 12, 13, 14, 15][n]
  }
  lemma NibbleIs(n: nat)
    requires n < 16
    ensures Bits(n) == Nibble(n)
  {
    Small();
    Large();
    hide Bits;
  }
  predicate IsByte(h: bv32, l: bv32, r: bv32) {
    r == (h << 4) | l
  }
  lemma ByteParts(h: bv32, l: bv32, u: bv32, r: bv32)
    requires IsProduct(0x10, h, u) && IsSum(u, l, r) && Within(l, 0xf)
    ensures IsByte(h, l, r)
  {
  }
  lemma Within15(l: nat)
    requires l < 16
    ensures Within(Bits(l), 0xf)
  {
    assert Ones(4) == 0xf;
    hide Bits, Within, Ones;
    assert Pow2(4) == 16;
    BitsWithin(l, 4);
  }
  lemma BitsOfByte(h: nat, l: nat)
    requires h < 16 && l < 16
    ensures IsByte(Nibble(h), Nibble(l), Bits(0x10 * h + l))
  {
    hide Bits, IsByte, IsProduct, IsSum, Within, Nibble;
    BitsOfPowers();
    BitsTimes(0x10, h);
    BitsAdd(0x10 * h, l);
    Within15(l);
    NibbleIs(h);
    NibbleIs(l);
    ByteParts(Bits(h), Bits(l), Bits(Times(0x10, h)), Bits(0x10 * h + l));
  }

  /** A literal word, digit by digit. */
  lemma BitsOfWord(a: nat, b: nat, c: nat, d: nat, e: nat, f: nat, g: nat, h: nat)
    requires a < 16 && b < 16 && c < 16 && d < 16 && e < 16 && f < 16 && g < 16 && h < 16
    ensures IsWord(Nibble(a), Nibble(b), Nibble(c), Nibble(d), Nibble(e), Nibble(f), Nibble(g), Nibble(h),
                   Bits(LoadWord(0x10 * g + h, 0x10 * e + f, 0x10 * c + d, 0x10 * a + b)))
  {
    hide Bits, IsByte, IsLoad, IsWord, Nibble, LoadWord;
    BitsOfByte(a, b);
    BitsOfByte(c, d);
    BitsOfByte(e, f);
    BitsOfByte(g, h);
    LoadIsMachine(0x10 * g + h, 0x10 * e + f, 0x10 * c + d, 0x10 * a + b);
    WordParts(Nibble(a), Nibble(b), Nibble(c), Nibble(d), Nibble(e), Nibble(f), Nibble(g), Nibble(h),
              Bits(0x10 * a + b), Bits(0x10 * c + d), Bits(0x10 * e + f), Bits(0x10 * g + h),
              Bits(LoadWord(0x10 * g + h, 0x10 * e + f, 0x10 * c + d, 0x10 * a + b)));
  }

  /** r has the hexadecimal digits a to h. */
  predicate IsWord(a: bv32, b: bv32, c: bv32, d: bv32, e: bv32, f: bv32, g: bv32, h: bv32, r: bv32) {
    r == (a << 28) | (b << 24) | (c << 20) | (d << 16) | (e << 12) | (f << 8) | (g << 4) | h
  }

  lemma WordParts(a: bv32, b: bv32, c: bv32, d: bv32, e: bv32, f: bv32, g: bv32, h: bv32,
                  p: bv32, q: bv32, s: bv32, t: bv32, r: bv32)
    requires IsByte(a, b, p) && IsByte(c, d, q) && IsByte(e, f, s) && IsByte(g, h, t) && IsLoad(t, s, q, p, r)
    ensures IsWord(a, b, c, d, e, f, g, h, r)
  {
  }
}
