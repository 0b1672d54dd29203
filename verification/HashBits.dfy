/** Both hashes as programs of a 32-bit machine, the way the source writes them, and
    their agreement with the model on numbers for every input. */
module HashBits {
  import opened Words
  import opened WordBits
  import opened Hashes
  import opened Wrappers
  import opened Arith

  // ---------- Instructions ----------

  function Sum(a: bv32, b: bv32): bv32 {
    a + b
  }

  function Product(a: bv32, b: bv32): bv32 {
    a * b
  }

  function ExclusiveOr(a: bv32, b: bv32): bv32 {
    a ^ b
  }

  /** ROTL */
  function Rotated(a: bv32, n: bv32): bv32
    requires 0 < n < 32
  {
    (a << n) | (a >> (32 - n))
  }

  /** `h ^= h >> n` */
  function Shaken(a: bv32, n: bv32): bv32
    requires n < 32
  {
    a ^ (a >> n)
  }

  /** DecodeFixed32 */
  function Loaded(a: bv32, b: bv32, c: bv32, d: bv32): bv32 {
    a | (b << 8) | (c << 16) | (d << 24)
  }

  /** The operations on words are the machine's. */
  lemma SumsAreMachine(x: word, y: word)
    ensures Bits(Add(x, y)) == Sum(Bits(x), Bits(y))
  {
    hide Bits, Sum, IsSum, Add;
    AddIsMachine(x, y);
    SumOf(Bits(x), Bits(y), Bits(Add(x, y)));
  }

  lemma SumOf(a: bv32, b: bv32, r: bv32)
    requires IsSum(a, b, r)
    ensures r == Sum(a, b)
  {
  }

  lemma ProductsAreMachine(x: word, y: word)
    ensures Bits(Mul(x, y)) == Product(Bits(x), Bits(y))
  {
    hide Bits, Product, IsProduct, Mul;
    MulIsMachine(x, y);
    ProductOf(Bits(x), Bits(y), Bits(Mul(x, y)));
  }

  lemma ProductOf(a: bv32, b: bv32, r: bv32)
    requires IsProduct(a, b, r)
    ensures r == Product(a, b)
  {
  }

  lemma MixesAreMachine(x: word, y: word)
    ensures Bits(Mix(x, y)) == ExclusiveOr(Bits(x), Bits(y))
  {
    hide Bits, ExclusiveOr, IsXor, Mix;
    MixIsMachine(x, y);
    ExclusiveOrOf(Bits(x), Bits(y), Bits(Mix(x, y)));
  }

  lemma ExclusiveOrOf(a: bv32, b: bv32, r: bv32)
    requires IsXor(a, b, r)
    ensures r == ExclusiveOr(a, b)
  {
  }

  lemma RotationsAreMachine(x: word)
    ensures Bits(Rotl(x, 0x2000, 0x8_0000)) == Rotated(Bits(x), 13)
    ensures Bits(Rotl(x, 0x8000, 0x2_0000)) == Rotated(Bits(x), 15)
  {
    hide Bits, Rotated, IsRotation, Rotl;
    RotlIsMachine(x);
    RotatedOf(Bits(x), 13, Bits(Rotl(x, 0x2000, 0x8_0000)));
    RotatedOf(Bits(x), 15, Bits(Rotl(x, 0x8000, 0x2_0000)));
  }

  lemma RotatedOf(a: bv32, n: bv32, r: bv32)
    requires 0 < n < 32 && IsRotation(a, n, r)
    ensures r == Rotated(a, n)
  {
  }

  lemma ShakesAreMachine(x: word, k: nat, n: bv32)
    requires (k, n) == (13, 13) || (k, n) == (16, 16) || (k, n) == (24, 24)
    ensures Bits(Shake(x, k)) == Shaken(Bits(x), n)
  {
    hide Bits, Shaken, IsXor, IsShift, Mix, Shr;
    ShrIsMachine(x);
    MixIsMachine(x, Shr(x, k));
    ShakenOf(Bits(x), n, Bits(Shr(x, k)), Bits(Shake(x, k)));
  }

  lemma ShakenOf(a: bv32, n: bv32, s: bv32, r: bv32)
    requires n < 32 && IsShift(a, n, s) && IsXor(a, s, r)
    ensures r == Shaken(a, n)
  {
  }

  lemma LoadsAreMachine(a: byte, b: byte, c: byte, d: byte)
    ensures Bits(LoadWord(a, b, c, d)) == Loaded(Bits(a), Bits(b), Bits(c), Bits(d))
  {
    hide Bits, Loaded, IsLoad, LoadWord;
    LoadIsMachine(a, b, c, d);
    LoadedOf(Bits(a), Bits(b), Bits(c), Bits(d), Bits(LoadWord(a, b, c, d)));
  }

  lemma LoadedOf(a: bv32, b: bv32, c: bv32, d: bv32, r: bv32)
    requires IsLoad(a, b, c, d, r)
    ensures r == Loaded(a, b, c, d)
  {
  }

  // ---------- Programs ----------

  function FinalMix(h: bv32): bv32 {
    Shaken(Product(Shaken(Product(Shaken(h, 16), 0x85eb_ca6b), 13), 0xc2b2_ae35), 16)
  }

  function Scrambled(s: bv32): bv32 {
    Product(Rotated(Product(s, 0xcc9e_2d51), 15), 0x1b87_3593)
  }

  function MurmurLast(h: bv32, s: bv32): bv32 {
    ExclusiveOr(h, Scrambled(s))
  }

  function MurmurNext(h: bv32, s: bv32): bv32 {
    Sum(Product(Rotated(MurmurLast(h, s), 13), 5), 0xe654_6b64)
  }

  function HashNext(h: bv32, w: bv32): bv32 {
    Shaken(Product(Sum(h, w), 0xc6a4_a793), 16)
  }

  function HashLast(h: bv32, w: bv32): bv32 {
    Shaken(Product(Sum(h, w), 0xc6a4_a793), 24)
  }

  type Program = (bv32, bv32) -> bv32

  /** The block at byte i; bytes past the end of the data read as zero. */
  function LoadedAt(d: seq<bv32>, i: nat): bv32 {
    Loaded(At(d, i), At(d, i + 1), At(d, i + 2), At(d, i + 3))
  }

  function At(d: seq<bv32>, i: nat): bv32 {
    if i < |d| then d[i] else 0
  }

  function Run(next: Program, d: seq<bv32>, k: nat, h: bv32): bv32 {
    if k == 0 then h else next(Run(next, d, k - 1, h), LoadedAt(d, 4 * (k - 1)))
  }

  function RunAll(next: Program, last: Program, d: seq<bv32>, h: bv32): bv32 {
    var h := Run(next, d, |d| / 4, h);
    if |d| % 4 == 0 then h else last(h, LoadedAt(d, |d| - |d| % 4))
  }

  /** murmur3_hash on bytes that are not null. */
  function MurmurProgram(d: seq<bv32>, seed: bv32): bv32 {
    FinalMix(ExclusiveOr(RunAll(MurmurNext, MurmurLast, d, seed), Bits(|d|)))
  }

  function HashProgram(d: seq<bv32>, seed: bv32): bv32 {
    RunAll(HashNext, HashLast, d, ExclusiveOr(seed, Product(Bits(|d|), 0xc6a4_a793)))
  }

  /** v holds the bytes of d. */
  ghost predicate Holds(v: seq<bv32>, d: seq<byte>) {
    |v| == |d| && forall i | 0 <= i < |d| :: v[i] == Bits(d[i])
  }

  // ---------- Agreement ----------

  lemma BitsOfMix1()
    ensures Bits(0x85eb_ca6b) == 0x85eb_ca6b
  {
    hide Bits;
    BitsOfWord(8, 5, 0xe, 0xb, 0xc, 0xa, 6, 0xb);
  }

  lemma BitsOfMix2()
    ensures Bits(0xc2b2_ae35) == 0xc2b2_ae35
  {
    hide Bits;
    BitsOfWord(0xc, 2, 0xb, 2, 0xa, 0xe, 3, 5);
  }

  lemma BitsOfSeed1()
    ensures Bits(0xcc9e_2d51) == 0xcc9e_2d51
  {
    hide Bits;
    BitsOfWord(0xc, 0xc, 9, 0xe, 2, 0xd, 5, 1);
  }

  lemma BitsOfSeed2()
    ensures Bits(0x1b87_3593) == 0x1b87_3593
  {
    hide Bits;
    BitsOfWord(1, 0xb, 8, 7, 3, 5, 9, 3);
  }

  lemma BitsOfAddend()
    ensures Bits(0xe654_6b64) == 0xe654_6b64
  {
    hide Bits;
    BitsOfWord(0xe, 6, 5, 4, 6, 0xb, 6, 4);
  }

  lemma BitsOfM()
    ensures Bits(0xc6a4_a793) == 0xc6a4_a793
  {
    hide Bits;
    BitsOfWord(0xc, 6, 0xa, 4, 0xa, 7, 9, 3);
  }

  lemma Fmix32IsMachine(h: word)
    ensures Bits(Fmix32(h)) == FinalMix(Bits(h))
  {
    hide Bits, Shaken, Product, Shake, Mul;
    BitsOfMix1();
    BitsOfMix2();
    var h1 := Shake(h, 16);
    var h2 := Mul(h1, 0x85eb_ca6b);
    var h3 := Shake(h2, 13);
    var h4 := Mul(h3, 0xc2b2_ae35);
    ShakesAreMachine(h, 16, 16);
    ProductsAreMachine(h1, 0x85eb_ca6b);
    ShakesAreMachine(h2, 13, 13);
    ProductsAreMachine(h3, 0xc2b2_ae35);
    ShakesAreMachine(h4, 16, 16);
  }

  lemma MurmurTailIsMachine(h: word, s: word)
    ensures Bits(MurmurTail(h, s)) == MurmurLast(Bits(h), Bits(s))
  {
    hide Bits, ExclusiveOr, Product, Rotated, Mix, Mul, Rotl;
    BitsOfSeed1();
    BitsOfSeed2();
    var s1 := Mul(s, SEED1);
    var s2 := Rotl(s1, 0x8000, 0x2_0000);
    ProductsAreMachine(s, SEED1);
    RotationsAreMachine(s1);
    ProductsAreMachine(s2, SEED2);
    MixesAreMachine(h, Scramble(s));
  }

  lemma MurmurRoundIsMachine(h: word, s: word)
    ensures Bits(MurmurRound(h, s)) == MurmurNext(Bits(h), Bits(s))
  {
    hide Bits, MurmurLast, Product, Rotated, Sum, MurmurTail, Mul, Rotl, Add;
    Small();
    BitsOfAddend();
    MurmurTailIsMachine(h, s);
    var h1 := MurmurTail(h, s);
    var h2 := Rotl(h1, 0x2000, 0x8_0000);
    RotationsAreMachine(h1);
    ProductsAreMachine(h2, 5);
    SumsAreMachine(Mul(h2, 5), 0xe654_6b64);
  }

  lemma HashRoundsAreMachine(h: word, w: word)
    ensures Bits(HashRound(h, w)) == HashNext(Bits(h), Bits(w))
    ensures Bits(HashTail(h, w)) == HashLast(Bits(h), Bits(w))
  {
    hide Bits, Sum, Product, Shaken, Shake, Mul, Add;
    BitsOfM();
    SumsAreMachine(h, w);
    ProductsAreMachine(Add(h, w), M);
    ShakesAreMachine(Mul(Add(h, w), M), 16, 16);
    ShakesAreMachine(Mul(Add(h, w), M), 24, 24);
  }

  /** A round on words is a program of the machine. */
  ghost predicate Computes(program: Program, round: Round) {
    forall h: word, w: word :: Bits(round(h, w)) == program(Bits(h), Bits(w))
  }

  lemma ComputesAt(program: Program, round: Round, h: word, w: word)
    requires Computes(program, round)
    ensures Bits(round(h, w)) == program(Bits(h), Bits(w))
  {
  }

  lemma LoadAgrees(v: seq<bv32>, d: seq<byte>, i: nat)
    requires Holds(v, d) && i + 4 <= |d|
    ensures Bits(LoadWord(d[i], d[i + 1], d[i + 2], d[i + 3])) == LoadedAt(v, i)
  {
    hide Bits, Loaded;
    LoadsAreMachine(d[i], d[i + 1], d[i + 2], d[i + 3]);
  }

  lemma TailAgrees(v: seq<bv32>, d: seq<byte>)
    requires Holds(v, d) && |d| % 4 != 0
    ensures Bits(TailWord(d)) == LoadedAt(v, |d| - |d| % 4)
  {
    hide Bits, Loaded;
    var b, n := |d| - |d| % 4, |d| % 4;
    Parts(0);
    LoadsAreMachine(d[b], if n > 1 then d[b + 1] else 0, if n > 2 then d[b + 2] else 0, 0);
  }

  lemma {:induction false} RunAgrees(next: Program, round: Round, v: seq<bv32>, d: seq<byte>, k: nat, h: word)
    requires Holds(v, d) && Computes(next, round) && k <= |d| / 4
    ensures Bits(Fold(round, d, k, h)) == Run(next, v, k, Bits(h))
    decreases k
  {
    hide Bits, LoadWord, LoadedAt, Computes;
    if k > 0 {
      RunAgrees(next, round, v, d, k - 1, h);
      LoadAgrees(v, d, 4 * (k - 1));
      ComputesAt(next, round, Fold(round, d, k - 1, h), Block(d, k - 1));
    }
  }

  lemma RunAllAgrees(next: Program, last: Program, round: Round, tail: Round, v: seq<bv32>, d: seq<byte>, h: word)
    requires Holds(v, d) && Computes(next, round) && Computes(last, tail)
    ensures Bits(Digest(round, tail, d, h)) == RunAll(next, last, v, Bits(h))
  {
    hide Bits, TailWord, LoadedAt, Run, Fold, Computes;
    RunAgrees(next, round, v, d, |d| / 4, h);
    if |d| % 4 != 0 {
      TailAgrees(v, d);
      ComputesAt(last, tail, Fold(round, d, |d| / 4, h), TailWord(d));
    }
  }

  lemma RoundsAreMachine()
    ensures Computes(MurmurNext, MurmurRound) && Computes(MurmurLast, MurmurTail)
    ensures Computes(HashNext, HashRound) && Computes(HashLast, HashTail)
  {
    hide Bits, MurmurRound, MurmurTail, MurmurNext, MurmurLast, HashRound, HashTail, HashNext, HashLast;
    forall h: word, w: word
      ensures Bits(MurmurRound(h, w)) == MurmurNext(Bits(h), Bits(w))
      ensures Bits(MurmurTail(h, w)) == MurmurLast(Bits(h), Bits(w))
      ensures Bits(HashRound(h, w)) == HashNext(Bits(h), Bits(w))
      ensures Bits(HashTail(h, w)) == HashLast(Bits(h), Bits(w))
    {
      MurmurRoundIsMachine(h, w);
      MurmurTailIsMachine(h, w);
      HashRoundsAreMachine(h, w);
    }
  }

  /** murmur3_hash is its 32-bit program, for every input. */
  lemma MurmurIsMachine(v: seq<bv32>, d: seq<byte>, seed: word)
    requires Holds(v, d) && |d| < MAX_LENGTH
    ensures Bits(MurmurHash(Some(d), seed)) == MurmurProgram(v, Bits(seed))
  {
    hide Bits, RunAll, Digest, Fmix32, FinalMix, Mix, ExclusiveOr, Computes;
    RoundsAreMachine();
    RunAllAgrees(MurmurNext, MurmurLast, MurmurRound, MurmurTail, v, d, seed);
    var h := Digest(MurmurRound, MurmurTail, d, seed);
    MixesAreMachine(h, |d|);
    Fmix32IsMachine(Mix(h, |d|));
  }

  /** Hash is its 32-bit program, for every input. */
  lemma HashIsMachine(v: seq<bv32>, d: seq<byte>, seed: word)
    requires Holds(v, d)
    ensures Bits(HashOf(d, seed)) == HashProgram(v, Bits(seed))
  {
    hide Bits, RunAll, Digest, Mix, ExclusiveOr, Product, Computes;
    RoundsAreMachine();
    LengthIsMachine(|d|);
    MixesAreMachine(seed, (|d| * M) % MODULUS);
    RunAllAgrees(HashNext, HashLast, HashRound, HashTail, v, d, Mix(seed, (|d| * M) % MODULUS));
  }

  lemma LengthIsMachine(n: nat)
    ensures Bits((n * M) % MODULUS) == Product(Bits(n), 0xc6a4_a793)
  {
    hide Bits, Product, IsProduct;
    BitsOfM();
    BitsTimes(n, M);
    BitsMod(n * M);
    ProductOf(Bits(n), Bits(M), Bits(Times(n, M)));
  }
}
