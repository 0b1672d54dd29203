/** The two 32-bit hashes over byte blocks. Every round is a permutation of the
    hash word for a fixed data word, and of the data word for a fixed hash word,
    which makes both hashes injective in the seed and free of collisions between
    inputs that differ only inside one block, or only in the tail. */
module Hashes {
  import opened Words
  import opened Wrappers

  const SEED1: word := 0xcc9e2d51
  const SEED2: word := 0x1b873593
  const M: word := 0xc6a4a793

  // ---------- Rounds ----------

  function Fmix32(h: word): word {
    Shake(Mul(Shake(Mul(Shake(h, 16), 0x85ebca6b), 13), 0xc2b2ae35), 16)
  }

  lemma Fmix32Injective(h: word, h': word)
    ensures Fmix32(h) == Fmix32(h') <==> h == h'
  {
    hide Xor, Shr, Mul;
    if Fmix32(h) == Fmix32(h') {
      var a, a' := Shake(h, 16), Shake(h', 16);
      var b, b' := Mul(a, 0x85ebca6b), Mul(a', 0x85ebca6b);
      var c, c' := Shake(b, 13), Shake(b', 13);
      var d, d' := Mul(c, 0xc2b2ae35), Mul(c', 0xc2b2ae35);
      ShakeInjective(d, d', 16);
      MulInjective(c, c', 0xc2b2ae35, 0x7ed1b41d);
      ShakeInjective(b, b', 13);
      MulInjective(a, a', 0x85ebca6b, 0xa5cb9243);
      ShakeInjective(h, h', 16);
    }
  }

  function Scramble(s: word): word {
    Mul(Rotl(Mul(s, SEED1), 0x8000, 0x2_0000), SEED2)
  }

  lemma ScrambleInjective(s: word, s': word)
    requires Scramble(s) == Scramble(s')
    ensures s == s'
  {
    hide Rotl, Mul;
    var a, a' := Mul(s, SEED1), Mul(s', SEED1);
    MulInjective(Rotl(a, 0x8000, 0x2_0000), Rotl(a', 0x8000, 0x2_0000), SEED2, 0x56ed309b);
    RotlInjective(a, a', 0x8000, 0x2_0000);
    MulInjective(s, s', SEED1, 0xdee13bb1);
  }

  function MurmurTail(h: word, s: word): word {
    Mix(h, Scramble(s))
  }

  function MurmurRound(h: word, s: word): word {
    Add(Mul(Rotl(MurmurTail(h, s), 0x2000, 0x8_0000), 5), 0xe6546b64)
  }

  function HashRound(h: word, w: word): word {
    Shake(Mul(Add(h, w), M), 16)
  }

  function HashTail(h: word, w: word): word {
    Shake(Mul(Add(h, w), M), 24)
  }

  type Round = (word, word) -> word

  /** A permutation of the hash words, and of the data words. */
  ghost predicate Permutes(round: Round) {
    && (forall h, w, w' :: round(h, w) == round(h, w') ==> w == w')
    && (forall h, h', w :: round(h, w) == round(h', w) ==> h == h')
  }

  lemma MurmurTailInjective(h: word, h': word, w: word, w': word)
    requires h == h' || w == w'
    ensures MurmurTail(h, w) == MurmurTail(h', w') ==> h == h' && w == w'
  {
    hide Xor, Scramble;
    MixInjective(h, h', Scramble(w));
    MixInjective(Scramble(w), Scramble(w'), h);
    if h == h' && Scramble(w) == Scramble(w') {
      ScrambleInjective(w, w');
    }
  }

  lemma MurmurRoundInjective(h: word, h': word, w: word, w': word)
    requires h == h' || w == w'
    ensures MurmurRound(h, w) == MurmurRound(h', w') ==> h == h' && w == w'
  {
    hide Rotl, Mul, MurmurTail, Add;
    var a, a' := MurmurTail(h, w), MurmurTail(h', w');
    var b, b' := Rotl(a, 0x2000, 0x8_0000), Rotl(a', 0x2000, 0x8_0000);
    if MurmurRound(h, w) == MurmurRound(h', w') {
      AddInjective(Mul(b, 5), Mul(b', 5), 0xe6546b64);
      MulInjective(b, b', 5, 0xcccccccd);
      RotlInjective(a, a', 0x2000, 0x8_0000);
      MurmurTailInjective(h, h', w, w');
    }
  }

  lemma HashRoundInjective(h: word, h': word, w: word, w': word)
    requires h == h' || w == w'
    requires HashRound(h, w) == HashRound(h', w') || HashTail(h, w) == HashTail(h', w')
    ensures h == h' && w == w'
  {
    hide Xor, Shr, Mul;
    var a, a' := Add(h, w), Add(h', w');
    var b, b' := Mul(a, M), Mul(a', M);
    if HashRound(h, w) == HashRound(h', w') {
      ShakeInjective(b, b', 16);
    } else {
      ShakeInjective(b, b', 24);
    }
    MulInjective(a, a', M, 0xd8198e9b);
  }

  lemma RoundsPermute()
    ensures Permutes(MurmurRound) && Permutes(MurmurTail) && Permutes(HashRound) && Permutes(HashTail)
  {
    hide MurmurRound, MurmurTail, HashRound, HashTail;
    forall h, h', w, w' | h == h' || w == w'
      ensures MurmurRound(h, w) == MurmurRound(h', w') ==> h == h' && w == w'
      ensures MurmurTail(h, w) == MurmurTail(h', w') ==> h == h' && w == w'
      ensures HashRound(h, w) == HashRound(h', w') ==> h == h' && w == w'
      ensures HashTail(h, w) == HashTail(h', w') ==> h == h' && w == w'
    {
      MurmurRoundInjective(h, h', w, w');
      MurmurTailInjective(h, h', w, w');
      if HashRound(h, w) == HashRound(h', w') || HashTail(h, w) == HashTail(h', w') {
        HashRoundInjective(h, h', w, w');
      }
    }
  }

  // ---------- Blocks ----------

  function Block(d: seq<byte>, i: nat): word
    requires i < |d| / 4
  {
    LoadWord(d[4 * i], d[4 * i + 1], d[4 * i + 2], d[4 * i + 3])
  }

  /** The one to three bytes after the last whole block. */
  function TailWord(d: seq<byte>): word
    requires |d| % 4 != 0
  {
    var b, n := |d| - |d| % 4, |d| % 4;
    LoadWord(d[b], if n > 1 then d[b + 1] else 0, if n > 2 then d[b + 2] else 0, 0)
  }

  /** The hash word after the first k blocks. */
  function Fold(round: Round, d: seq<byte>, k: nat, seed: word): word
    requires k <= |d| / 4
  {
    if k == 0 then seed else round(Fold(round, d, k - 1, seed), Block(d, k - 1))
  }

  function Digest(round: Round, tail: Round, d: seq<byte>, seed: word): word {
    var h := Fold(round, d, |d| / 4, seed);
    if |d| % 4 == 0 then h else tail(h, TailWord(d))
  }

  lemma {:induction false} FoldSeed(round: Round, d: seq<byte>, k: nat, seed: word, seed': word)
    requires Permutes(round) && k <= |d| / 4 && Fold(round, d, k, seed) == Fold(round, d, k, seed')
    ensures seed == seed'
  {
    if k > 0 {
      FoldSeed(round, d, k - 1, seed, seed');
    }
  }

  /** Two inputs of one length that agree outside block k; the last block is the tail. */
  ghost predicate DifferOnlyIn(k: nat, d: seq<byte>, e: seq<byte>) {
    && |d| == |e| && k <= |d| / 4
    && (forall i | 0 <= i < |d| && !(4 * k <= i < 4 * k + 4) :: d[i] == e[i])
  }

  lemma {:induction false} FoldAgrees(round: Round, d: seq<byte>, e: seq<byte>, k: nat, n: nat, seed: word)
    requires DifferOnlyIn(k, d, e) && n <= |d| / 4 && n <= k
    ensures Fold(round, d, n, seed) == Fold(round, e, n, seed)
  {
    if n > 0 {
      FoldAgrees(round, d, e, k, n - 1, seed);
    }
  }

  lemma {:induction false} FoldDiffers(round: Round, d: seq<byte>, e: seq<byte>, k: nat, n: nat, seed: word)
    requires Permutes(round) && DifferOnlyIn(k, d, e) && d != e && k < n <= |d| / 4
    ensures Fold(round, d, n, seed) != Fold(round, e, n, seed)
  {
    if n == k + 1 {
      FoldAgrees(round, d, e, k, k, seed);
      BlocksDiffer(d, e, k);
    } else {
      FoldDiffers(round, d, e, k, n - 1, seed);
      assert Block(d, n - 1) == Block(e, n - 1);
    }
  }

  lemma BlocksDiffer(d: seq<byte>, e: seq<byte>, k: nat)
    requires DifferOnlyIn(k, d, e) && d != e
    ensures k < |d| / 4 ==> Block(d, k) != Block(e, k)
    ensures k == |d| / 4 ==> |d| % 4 != 0 && TailWord(d) != TailWord(e)
  {
    var i :| 0 <= i < |d| && d[i] != e[i];
    assert 4 * k <= i < 4 * k + 4;
    var b, n := |d| - |d| % 4, |d| % 4;
    if k < |d| / 4 {
      LoadInjective(d[4 * k], d[4 * k + 1], d[4 * k + 2], d[4 * k + 3],
                    e[4 * k], e[4 * k + 1], e[4 * k + 2], e[4 * k + 3]);
    } else {
      LoadInjective(d[b], if n > 1 then d[b + 1] else 0, if n > 2 then d[b + 2] else 0, 0,
                    e[b], if n > 1 then e[b + 1] else 0, if n > 2 then e[b + 2] else 0, 0);
    }
  }

  lemma DigestSeed(round: Round, tail: Round, d: seq<byte>, seed: word, seed': word)
    requires Permutes(round) && Permutes(tail) && Digest(round, tail, d, seed) == Digest(round, tail, d, seed')
    ensures seed == seed'
  {
    FoldSeed(round, d, |d| / 4, seed, seed');
  }

  lemma DigestDiffers(round: Round, tail: Round, d: seq<byte>, e: seq<byte>, k: nat, seed: word)
    requires Permutes(round) && Permutes(tail) && DifferOnlyIn(k, d, e) && d != e
    ensures Digest(round, tail, d, seed) != Digest(round, tail, e, seed)
  {
    BlocksDiffer(d, e, k);
    var h, h' := Fold(round, d, |d| / 4, seed), Fold(round, e, |d| / 4, seed);
    if k < |d| / 4 {
      FoldDiffers(round, d, e, k, |d| / 4, seed);
      TailsAgree(d, e, k);
    } else {
      FoldAgrees(round, d, e, k, k, seed);
    }
    hide Fold, TailWord, DifferOnlyIn;
  }

  lemma TailsAgree(d: seq<byte>, e: seq<byte>, k: nat)
    requires DifferOnlyIn(k, d, e) && k < |d| / 4
    ensures |d| % 4 != 0 ==> TailWord(d) == TailWord(e)
  {
  }

  // ---------- The hashes ----------

  const MAX_LENGTH: nat := 0x8000_0000

  /** murmur3_hash: the length is held in an int, and null data hashes to zero. */
  function MurmurHash(data: Option<seq<byte>>, seed: word): word
    requires data.Some? ==> |data.value| < MAX_LENGTH
  {
    match data
    case None => 0
    case Some(d) => Fmix32(Mix(Digest(MurmurRound, MurmurTail, d, seed), |d|))
  }

  /** Hash: the seed is mixed with the low word of the length times a constant. */
  function HashOf(d: seq<byte>, seed: word): word {
    Digest(HashRound, HashTail, d, Mix(seed, (|d| * M) % MODULUS))
  }

  /** For fixed data murmur3_hash is injective in the seed, unless the data is null. */
  lemma MurmurSeedInjective(data: Option<seq<byte>>)
    requires data.Some? ==> |data.value| < MAX_LENGTH
    ensures data.Some? <==> forall s, s' | MurmurHash(data, s) == MurmurHash(data, s') :: s == s'
  {
    match data
    case None =>
      assert MurmurHash(data, 0) == MurmurHash(data, 1);
    case Some(d) =>
      RoundsPermute();
      hide Permutes, Digest, Fmix32, Mix;
      forall s, s' | MurmurHash(data, s) == MurmurHash(data, s')
        ensures s == s'
      {
        var x, x' := Digest(MurmurRound, MurmurTail, d, s), Digest(MurmurRound, MurmurTail, d, s');
        Fmix32Injective(Mix(x, |d|), Mix(x', |d|));
        MixInjective(x, x', |d|);
        DigestSeed(MurmurRound, MurmurTail, d, s, s');
      }
  }

  lemma HashSeedInjective(d: seq<byte>, seed: word, seed': word)
    ensures HashOf(d, seed) == HashOf(d, seed') <==> seed == seed'
  {
    RoundsPermute();
    hide Permutes, Digest, Mix;
    var n := (|d| * M) % MODULUS;
    if HashOf(d, seed) == HashOf(d, seed') {
      DigestSeed(HashRound, HashTail, d, Mix(seed, n), Mix(seed', n));
      MixInjective(seed, seed', n);
    }
  }

  /** Inputs of one length that differ only inside one four-byte block, or only in
      the tail, never collide. */
  lemma MurmurNeverCollides(d: seq<byte>, e: seq<byte>, k: nat, seed: word)
    requires DifferOnlyIn(k, d, e) && d != e && |d| < MAX_LENGTH
    ensures MurmurHash(Some(d), seed) != MurmurHash(Some(e), seed)
  {
    RoundsPermute();
    DigestDiffers(MurmurRound, MurmurTail, d, e, k, seed);
    hide Permutes, Digest, Fmix32, Mix;
    if MurmurHash(Some(d), seed) == MurmurHash(Some(e), seed) {
      var x, x' := Digest(MurmurRound, MurmurTail, d, seed), Digest(MurmurRound, MurmurTail, e, seed);
      Fmix32Injective(Mix(x, |d|), Mix(x', |d|));
      MixInjective(x, x', |d|);
    }
  }

  lemma HashNeverCollides(d: seq<byte>, e: seq<byte>, k: nat, seed: word)
    requires DifferOnlyIn(k, d, e) && d != e
    ensures HashOf(d, seed) != HashOf(e, seed)
  {
    RoundsPermute();
    DigestDiffers(HashRound, HashTail, d, e, k, Mix(seed, (|d| * M) % MODULUS));
  }

  // ---------- The loops ----------

  method Murmur3Hash(data: Option<seq<byte>>, seed: word) returns (r: word)
    requires data.Some? ==> |data.value| < MAX_LENGTH
    ensures r == MurmurHash(data, seed)
  {
    hide Mul, Rotl, Mix, Fmix32, LoadWord;
    if data.None? {
      return 0;
    }
    var d := data.value;
    var h := seed;
    var blk := |d| / 4;
    for i := 0 to blk
      invariant h == Fold(MurmurRound, d, i, seed)
    {
      var s := Block(d, i);
      s := Mul(s, SEED1);
      s := Rotl(s, 0x8000, 0x2_0000);
      s := Mul(s, SEED2);
      h := Mix(h, s);
      h := Rotl(h, 0x2000, 0x8_0000);
      h := Mul(h, 5);
      h := Add(h, 0xe6546b64);
    }
    if |d| % 4 != 0 {
      var s := MurmurTailBytes(d);
      s := Mul(s, SEED1);
      s := Rotl(s, 0x8000, 0x2_0000);
      s := Mul(s, SEED2);
      h := Mix(h, s);
    }
    r := Fmix32(Mix(h, |d|));
  }

  /** The fall-through switch of murmur3_hash. */
  method MurmurTailBytes(d: seq<byte>) returns (s: word)
    requires |d| % 4 != 0
    ensures s == TailWord(d)
  {
    var n, tail := |d| % 4, |d| - |d| % 4;
    s := 0;
    if n == 3 {
      s := s + 0x1_0000 * (d[tail + 2] as word);
    }
    if n >= 2 {
      s := s + 0x100 * (d[tail + 1] as word);
    }
    s := s + d[tail];
  }

  method Hash(data: seq<byte>, seed: word) returns (h: word)
    ensures h == HashOf(data, seed)
  {
    hide Mul, Mix, Shr, Add, LoadWord, TailWord;
    h := Mix(seed, (|data| * M) % MODULUS);
    ghost var start := h;
    var pos := 0;
    while pos + 4 <= |data|
      invariant 0 <= pos <= |data| && pos % 4 == 0
      invariant h == Fold(HashRound, data, pos / 4, start)
      decreases |data| - pos
    {
      var w := LoadWord(data[pos], data[pos + 1], data[pos + 2], data[pos + 3]);
      assert w == Block(data, pos / 4) && (pos + 4) / 4 == pos / 4 + 1;
      pos := pos + 4;
      h := Add(h, w);
      h := Mul(h, M);
      h := Mix(h, Shr(h, 16));
    }
    if pos < |data| {
      h := AddTailBytes(data, h);
      h := Mul(h, M);
      h := Mix(h, Shr(h, 24));
    }
  }

  /** The fall-through switch of Hash. */
  method AddTailBytes(d: seq<byte>, h: word) returns (h': word)
    requires |d| % 4 != 0
    ensures h' == Add(h, TailWord(d))
  {
    AddSum(h, 0, 0);
    hide Add;
    var n, tail := |d| % 4, |d| - |d| % 4;
    h' := h;
    ghost var sum: word := 0;
    if n == 3 {
      AddSum(h, sum, 0x1_0000 * (d[tail + 2] as word));
      h', sum := Add(h', 0x1_0000 * (d[tail + 2] as word)), sum + 0x1_0000 * (d[tail + 2] as word);
    }
    if n >= 2 {
      AddSum(h, sum, 0x100 * (d[tail + 1] as word));
      h', sum := Add(h', 0x100 * (d[tail + 1] as word)), sum + 0x100 * (d[tail + 1] as word);
    }
    AddSum(h, sum, d[tail]);
    h' := Add(h', d[tail]);
  }

  lemma AddSum(h: word, a: word, b: word)
    requires a + b < MODULUS
    ensures Add(h, 0) == h && Add(Add(h, a), b) == Add(h, a + b)
  {
  }
}
