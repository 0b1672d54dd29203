/** Published values of both hashes: between them they reach every constant and
    every length of the tail. */
module HashValues {
  import opened Words
  import opened Wrappers
  import opened WordBits
  import opened Hashes
  import opened HashBits

  lemma MurmurValue(v: seq<bv32>, d: seq<byte>, seed: word, h: word, s: bv32, r: bv32)
    requires Holds(v, d) && |d| < MAX_LENGTH && Bits(seed) == s && Bits(h) == r && MurmurProgram(v, s) == r
    ensures MurmurHash(Some(d), seed) == h
  {
    hide Bits, MurmurProgram, MurmurHash, Holds;
    MurmurIsMachine(v, d, seed);
    BitsInjective(MurmurHash(Some(d), seed), h);
  }

  lemma HashValue(v: seq<bv32>, d: seq<byte>, seed: word, h: word, s: bv32, r: bv32)
    requires Holds(v, d) && Bits(seed) == s && Bits(h) == r && HashProgram(v, s) == r
    ensures HashOf(d, seed) == h
  {
    hide Bits, HashProgram, HashOf, Holds;
    HashIsMachine(v, d, seed);
    BitsInjective(HashOf(d, seed), h);
  }

  lemma BitsOfMurmurSeed()
    ensures Bits(0x9747_b28c) == 0x9747_b28c
  {
    hide Bits;
    BitsOfWord(9, 7, 4, 7, 0xb, 2, 8, 0xc);
  }

  lemma BitsOfHashSeed()
    ensures Bits(0xbc9f_1d34) == 0xbc9f_1d34
  {
    hide Bits;
    BitsOfWord(0xb, 0xc, 9, 0xf, 1, 0xd, 3, 4);
  }

  lemma MurmurRunsEmpty()
    ensures MurmurProgram([], 1) == 0x514e_28b7
  {
  }

  lemma MurmurOfEmpty()
    ensures MurmurHash(Some([]), 1) == 0x514e_28b7
  {
    hide MurmurProgram, Bits;
    Small();
    BitsOfWord(5, 1, 4, 0xe, 2, 8, 0xb, 7);
    MurmurRunsEmpty();
    MurmurValue([], [], 1, 0x514e_28b7, 1, 0x514e_28b7);
  }

  lemma MurmurRunsTest()
    ensures MurmurProgram([0x74, 0x65, 0x73, 0x74], 0) == 0xba6b_d213
  {
    var d: seq<bv32> := [0x74, 0x65, 0x73, 0x74];
    assert Bits(4) == 4;
    assert LoadedAt(d, 0) == 0x7473_6574;
    hide LoadedAt;
  }

  /** "test" */
  lemma MurmurOfTest()
    ensures MurmurHash(Some([0x74, 0x65, 0x73, 0x74]), 0) == 0xba6b_d213
  {
    hide MurmurProgram, Bits;
    BitsOfByte(7, 4);
    BitsOfByte(6, 5);
    BitsOfByte(7, 3);
    Small();
    BitsOfWord(0xb, 0xa, 6, 0xb, 0xd, 2, 1, 3);
    MurmurRunsTest();
    MurmurValue([0x74, 0x65, 0x73, 0x74], [0x74, 0x65, 0x73, 0x74], 0, 0xba6b_d213, 0, 0xba6b_d213);
  }

  lemma MurmurRunsA()
    ensures MurmurProgram([0x61], 0x9747_b28c) == 0x7fa0_9ea6
  {
    var d: seq<bv32> := [0x61];
    Small();
    assert LoadedAt(d, 0) == 0x61;
    hide LoadedAt;
  }

  /** "a" */
  lemma MurmurOfA()
    ensures MurmurHash(Some([0x61]), 0x9747_b28c) == 0x7fa0_9ea6
  {
    hide MurmurProgram, Bits;
    BitsOfByte(6, 1);
    BitsOfMurmurSeed();
    BitsOfWord(7, 0xf, 0xa, 0, 9, 0xe, 0xa, 6);
    MurmurRunsA();
    MurmurValue([0x61], [0x61], 0x9747_b28c, 0x7fa0_9ea6, 0x9747_b28c, 0x7fa0_9ea6);
  }

  lemma MurmurRunsAA()
    ensures MurmurProgram([0x61, 0x61], 0x9747_b28c) == 0x5d21_1726
  {
    var d: seq<bv32> := [0x61, 0x61];
    assert Bits(2) == 2;
    assert LoadedAt(d, 0) == 0x6161;
    hide LoadedAt;
  }

  lemma MurmurOfAA()
    ensures MurmurHash(Some([0x61, 0x61]), 0x9747_b28c) == 0x5d21_1726
  {
    hide MurmurProgram, Bits;
    BitsOfByte(6, 1);
    BitsOfMurmurSeed();
    BitsOfWord(5, 0xd, 2, 1, 1, 7, 2, 6);
    MurmurRunsAA();
    MurmurValue([0x61, 0x61], [0x61, 0x61], 0x9747_b28c, 0x5d21_1726, 0x9747_b28c, 0x5d21_1726);
  }

  lemma MurmurRunsAAA()
    ensures MurmurProgram([0x61, 0x61, 0x61], 0x9747_b28c) == 0x283e_0130
  {
    var d: seq<bv32> := [0x61, 0x61, 0x61];
    assert Bits(3) == 3;
    assert LoadedAt(d, 0) == 0x0061_6161;
    hide LoadedAt;
  }

  lemma MurmurOfAAA()
    ensures MurmurHash(Some([0x61, 0x61, 0x61]), 0x9747_b28c) == 0x283e_0130
  {
    hide MurmurProgram, Bits;
    BitsOfByte(6, 1);
    BitsOfMurmurSeed();
    BitsOfWord(2, 8, 3, 0xe, 0, 1, 3, 0);
    MurmurRunsAAA();
    MurmurValue([0x61, 0x61, 0x61], [0x61, 0x61, 0x61], 0x9747_b28c, 0x283e_0130, 0x9747_b28c, 0x283e_0130);
  }

  const GREETING: seq<byte> := [0x48, 0x65, 0x6c, 0x6c, 0x6f, 0x2c, 0x20, 0x77, 0x6f, 0x72, 0x6c, 0x64, 0x21]
  const GREETING_BITS: seq<bv32> := [0x48, 0x65, 0x6c, 0x6c, 0x6f, 0x2c, 0x20, 0x77, 0x6f, 0x72, 0x6c, 0x64, 0x21]

  lemma GreetingHeld()
    ensures Holds(GREETING_BITS, GREETING)
  {
    hide Bits;
    BitsOfByte(4, 8);
    BitsOfByte(6, 5);
    BitsOfByte(6, 0xc);
    BitsOfByte(6, 0xf);
    BitsOfByte(2, 0xc);
    BitsOfByte(2, 0);
    BitsOfByte(7, 7);
    BitsOfByte(7, 2);
    BitsOfByte(6, 4);
    BitsOfByte(2, 1);
  }

  lemma MurmurRunsGreeting()
    ensures MurmurProgram(GREETING_BITS, 0) == 0xc036_3e43
  {
    var d := GREETING_BITS;
    assert Bits(13) == 13;
    assert LoadedAt(d, 0) == 0x6c6c_6548;
    assert LoadedAt(d, 4) == 0x7720_2c6f;
    assert LoadedAt(d, 8) == 0x646c_726f;
    assert LoadedAt(d, 12) == 0x21;
    hide LoadedAt;
  }

  /** "Hello, world!" */
  lemma MurmurOfGreeting()
    ensures MurmurHash(Some(GREETING), 0) == 0xc036_3e43
  {
    hide MurmurProgram, Bits, Holds;
    Small();
    GreetingHeld();
    BitsOfWord(0xc, 0, 3, 6, 3, 0xe, 4, 3);
    MurmurRunsGreeting();
    MurmurValue(GREETING_BITS, GREETING, 0, 0xc036_3e43, 0, 0xc036_3e43);
  }

  lemma HashRunsOne()
    ensures HashProgram([0x62], 0xbc9f_1d34) == 0xef13_45c4
  {
    var d: seq<bv32> := [0x62];
    Small();
    assert LoadedAt(d, 0) == 0x62;
    hide LoadedAt;
  }

  lemma HashOfOne()
    ensures HashOf([0x62], 0xbc9f_1d34) == 0xef13_45c4
  {
    hide HashProgram, Bits;
    BitsOfByte(6, 2);
    BitsOfHashSeed();
    BitsOfWord(0xe, 0xf, 1, 3, 4, 5, 0xc, 4);
    HashRunsOne();
    HashValue([0x62], [0x62], 0xbc9f_1d34, 0xef13_45c4, 0xbc9f_1d34, 0xef13_45c4);
  }

  lemma HashRunsTwo()
    ensures HashProgram([0xc3, 0x97], 0xbc9f_1d34) == 0x5b66_3814
  {
    var d: seq<bv32> := [0xc3, 0x97];
    assert Bits(2) == 2;
    assert LoadedAt(d, 0) == 0x97c3;
    hide LoadedAt;
  }

  lemma HashOfTwo()
    ensures HashOf([0xc3, 0x97], 0xbc9f_1d34) == 0x5b66_3814
  {
    hide HashProgram, Bits;
    BitsOfByte(0xc, 3);
    BitsOfByte(9, 7);
    BitsOfHashSeed();
    BitsOfWord(5, 0xb, 6, 6, 3, 8, 1, 4);
    HashRunsTwo();
    HashValue([0xc3, 0x97], [0xc3, 0x97], 0xbc9f_1d34, 0x5b66_3814, 0xbc9f_1d34, 0x5b66_3814);
  }

  lemma HashRunsThree()
    ensures HashProgram([0xe2, 0x99, 0xa5], 0xbc9f_1d34) == 0x323c_078f
  {
    var d: seq<bv32> := [0xe2, 0x99, 0xa5];
    assert Bits(3) == 3;
    assert LoadedAt(d, 0) == 0x00a5_99e2;
    hide LoadedAt;
  }

  lemma HashOfThree()
    ensures HashOf([0xe2, 0x99, 0xa5], 0xbc9f_1d34) == 0x323c_078f
  {
    hide HashProgram, Bits;
    BitsOfByte(0xe, 2);
    BitsOfByte(9, 9);
    BitsOfByte(0xa, 5);
    BitsOfHashSeed();
    BitsOfWord(3, 2, 3, 0xc, 0, 7, 8, 0xf);
    HashRunsThree();
    HashValue([0xe2, 0x99, 0xa5], [0xe2, 0x99, 0xa5], 0xbc9f_1d34, 0x323c_078f, 0xbc9f_1d34, 0x323c_078f);
  }

  lemma HashRunsFour()
    ensures HashProgram([0xe1, 0x80, 0xb9, 0x32], 0xbc9f_1d34) == 0xed21_633a
  {
    var d: seq<bv32> := [0xe1, 0x80, 0xb9, 0x32];
    assert Bits(4) == 4;
    assert LoadedAt(d, 0) == 0x32b9_80e1;
    hide LoadedAt;
  }

  lemma HashOfFour()
    ensures HashOf([0xe1, 0x80, 0xb9, 0x32], 0xbc9f_1d34) == 0xed21_633a
  {
    hide HashProgram, Bits;
    BitsOfByte(0xe, 1);
    BitsOfByte(8, 0);
    BitsOfByte(0xb, 9);
    BitsOfByte(3, 2);
    BitsOfHashSeed();
    BitsOfWord(0xe, 0xd, 2, 1, 6, 3, 3, 0xa);
    HashRunsFour();
    HashValue([0xe1, 0x80, 0xb9, 0x32], [0xe1, 0x80, 0xb9, 0x32], 0xbc9f_1d34, 0xed21_633a, 0xbc9f_1d34, 0xed21_633a);
  }
}
