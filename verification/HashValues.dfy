/**
 The word arithmetic of the hashes against machine words, and the hashes of given keys as
 numbers.
 */
module HashValues {
  import opened Words
  import opened MurMurHash
  import opened HashRing
  import opened Dictionary
  import opened TimerWheel

  // ----- Machine words -----

  function Num(a: bv8): nat { a as int }

  function Half(a: bv8): bv8 { a >> 1 }

  function Bit(a: bv8): bv8 { a & 1 }

  /** Exclusive-or on bytes is the machine's. */
  lemma {:induction false} XorOfBytes(a: bv8, b: bv8)
    ensures Xor(Num(a), Num(b)) == Num(a ^ b)
    decreases Num(a) + Num(b)
  {
    hide Xor, Num, Half, Bit;
    if Num(a) == 0 && Num(b) == 0 {
      XorZero(0);
      NoBits(a, b);
    } else {
      HalfNum(a);
      HalfNum(b);
      XorOfBytes(Half(a), Half(b));
      HalfNum(a ^ b);
      HalfOfXor(a, b);
      BitOfXor(a, b);
      NextBit(Num(a), Num(b), Num(a ^ b));
    }
  }

  lemma NextBit(x: nat, y: nat, z: nat)
    requires Xor(x / 2, y / 2) == z / 2 && z % 2 == (x + y) % 2
    ensures Xor(x, y) == z
  {
    hide Xor;
    XorStep(x, y);
    SameHalves(Xor(x, y), z);
  }

  lemma NoBits(a: bv8, b: bv8)
    requires Num(a) == Num(b) == 0
    ensures Num(a ^ b) == 0
  {}

  lemma HalfNum(a: bv8)
    ensures Num(Half(a)) == Num(a) / 2
  {}

  lemma BitNum(a: bv8)
    ensures Num(Bit(a)) == Num(a) % 2
  {}

  lemma HalfOfXor(a: bv8, b: bv8)
    ensures Half(a ^ b) == Half(a) ^ Half(b)
  {}

  lemma BitOfXor(a: bv8, b: bv8)
    ensures Num(a ^ b) % 2 == (Num(a) + Num(b)) % 2
  {
    BitNum(a);
    BitNum(b);
    BitNum(a ^ b);
    BitsAdd(a, b);
    hide Num, Bit;
  }

  lemma BitsAdd(a: bv8, b: bv8)
    ensures Num(Bit(a ^ b)) == (Num(Bit(a)) + Num(Bit(b))) % 2
  {}

  /** Exclusive-or goes digit by digit. */
  lemma {:induction false} XorSplits(a: nat, b: nat, x: nat, y: nat, n: nat)
    requires Shr(x, n) == Shr(y, n) == 0
    ensures Xor(Shl(a, n) + x, Shl(b, n) + y) == Shl(Xor(a, b), n) + Xor(x, y)
    decreases n
  {
    hide Xor;
    if n == 0 {
      XorZero(0);
    } else {
      XorSplits(a, b, x / 2, y / 2, n - 1);
      XorStep(x, y);
      DoublePlus(Shl(a, n - 1), x);
      DoublePlus(Shl(b, n - 1), y);
      DoublePlus(Shl(Xor(a, b), n - 1), Xor(x, y));
      Parity(Shl(a, n) + x, x, Shl(b, n) + y);
      Parity(Shl(b, n) + y, y, x);
      NextBit(Shl(a, n) + x, Shl(b, n) + y, Shl(Xor(a, b), n) + Xor(x, y));
    }
  }

  lemma DoublePlus(a: nat, x: nat)
    ensures (2 * a + x) / 2 == a + x / 2 && (2 * a + x) % 2 == x % 2
  {}

  /** The word of four bytes, the highest first. */
  function Joined(a: bv8, b: bv8, c: bv8, d: bv8): nat {
    0x100 * (0x100 * (0x100 * Num(a) + Num(b)) + Num(c)) + Num(d)
  }

  lemma XorAppendsByte(a: nat, b: nat, x: bv8, y: bv8)
    ensures Xor(0x100 * a + Num(x), 0x100 * b + Num(y)) == 0x100 * Xor(a, b) + Num(x ^ y)
  {
    hide Xor, Shr;
    ShlConstants();
    ByteBelow(x);
    ByteBelow(y);
    hide Num;
    ShrBelow(Num(x), 8);
    ShrBelow(Num(y), 8);
    ShlIsProduct(a, 8);
    ShlIsProduct(b, 8);
    ShlIsProduct(Xor(a, b), 8);
    XorSplits(a, b, Num(x), Num(y), 8);
    XorOfBytes(x, y);
  }

  lemma ByteBelow(x: bv8)
    ensures Num(x) < 0x100
  {}

  /** On every word the exclusive-or of the model is the machine's, byte by byte. */
  lemma XorIsMachineXor(a: bv8, b: bv8, c: bv8, d: bv8, a': bv8, b': bv8, c': bv8, d': bv8)
    ensures Xor(Joined(a, b, c, d), Joined(a', b', c', d')) == Joined(a ^ a', b ^ b', c ^ c', d ^ d')
  {
    hide Xor, Num;
    XorOfBytes(a, a');
    XorAppendsByte(Num(a), Num(a'), b, b');
    XorAppendsByte(0x100 * Num(a) + Num(b), 0x100 * Num(a') + Num(b'), c, c');
    XorAppendsByte(0x100 * (0x100 * Num(a) + Num(b)) + Num(c), 0x100 * (0x100 * Num(a') + Num(b')) + Num(c'), d, d');
  }

  /** A right shift is the quotient by the power of two. */
  lemma {:induction false} ShrIsQuotient(a: nat, n: nat, q: nat)
    requires Shl(q, n) <= a < Shl(q + 1, n)
    ensures Shr(a, n) == q
    decreases n
  {
    if n > 0 {
      ShrIsQuotient(a / 2, n - 1, q);
    }
  }

  // ----- The stages on machine words -----

  function Byte3(a: bv32): bv8 { (a >> 24) as bv8 }

  function Byte2(a: bv32): bv8 { ((a >> 16) & 0xff) as bv8 }

  function Byte1(a: bv32): bv8 { ((a >> 8) & 0xff) as bv8 }

  function Byte0(a: bv32): bv8 { (a & 0xff) as bv8 }

  /** The number of a machine word is that of its bytes. */
  predicate Split(a: bv32) {
    a as int == Joined(Byte3(a), Byte2(a), Byte1(a), Byte0(a))
  }

  lemma XorValue(a: bv32, b: bv32)
    requires Split(a) && Split(b) && Split(a ^ b)
    ensures Xor(a as int, b as int) == (a ^ b) as int
  {
    hide Xor, Joined;
    BytesOfXor(a, b);
    XorIsMachineXor(Byte3(a), Byte2(a), Byte1(a), Byte0(a), Byte3(b), Byte2(b), Byte1(b), Byte0(b));
    hide Byte0, Byte1, Byte2, Byte3;
  }

  lemma BytesOfXor(a: bv32, b: bv32)
    ensures Byte3(a ^ b) == Byte3(a) ^ Byte3(b) && Byte2(a ^ b) == Byte2(a) ^ Byte2(b)
    ensures Byte1(a ^ b) == Byte1(a) ^ Byte1(b) && Byte0(a ^ b) == Byte0(a) ^ Byte0(b)
  {}

  lemma Powers()
    ensures Shl(1, 3) == 8 && Shl(1, 6) == 0x40 && Shl(1, 10) == 0x400 && Shl(1, 11) == 0x800
    ensures Shl(1, 13) == 0x2000 && Shl(1, 15) == 0x8000 && Shl(1, 24) == 0x100_0000
  {
    assert Shl(1, 8) == 0x100 && Shl(1, 16) == 0x1_0000 by {
      ShlConstants();
    }
    assert Shl(1, 20) == 0x10_0000;
  }

  /** A fold, given the quotient `q` of the shift and the exclusive-or. */
  lemma FoldValue(a: Word, s: nat, power: nat, q: Word, r: Word)
    requires Shl(1, s) == power && power * q <= a < power * q + power && Xor(a, q) == r
    ensures Fold(a, s) == r
  {
    hide Xor, Shl, Shr;
    ShlIsProduct(q, s);
    ShlIsProduct(q + 1, s);
    ShrIsQuotient(a, s, q);
  }

  /** One turn of the word loop: `k *= m`, `k ^= k >> 24`, `k *= m`, `h *= m`, `h ^= k`. */
  lemma AbsorbValue(h: Word, k: Word, k1: Word, q: Word, k2: Word, k3: Word, h1: Word, r: Word)
    requires k * 0x5bd1e995 % SIZE == k1 && 0x100_0000 * q <= k1 < 0x100_0000 * q + 0x100_0000 && Xor(k1, q) == k2
    requires k2 * 0x5bd1e995 % SIZE == k3 && h * 0x5bd1e995 % SIZE == h1 && Xor(h1, k3) == r
    ensures Absorb(h, k) == r
  {
    hide Xor, Shl, Fold;
    Powers();
    FoldValue(k1, 24, 0x100_0000, q, k2);
  }

  /** The final mix: `h ^= h >> 13`, `h *= m`, `h ^= h >> 15`. */
  lemma FinishValue(h: Word, q: Word, h1: Word, h2: Word, q': Word, r: Word)
    requires 0x2000 * q <= h < 0x2000 * q + 0x2000 && Xor(h, q) == h1 && h1 * 0x5bd1e995 % SIZE == h2
    requires 0x8000 * q' <= h2 < 0x8000 * q' + 0x8000 && Xor(h2, q') == r
    ensures Finish(h) == r
  {
    hide Xor, Shl, Fold;
    Powers();
    FoldValue(h, 13, 0x2000, q, h1);
    FoldValue(h2, 15, 0x8000, q', r);
  }

  lemma RunWord(h: Word, a: Byte, b: Byte, c: Byte, d: Byte, rest: seq<Byte>)
    ensures Run(h, [a, b, c, d] + rest) == Run(Absorb(h, FirstWord([a, b, c, d])), rest)
  {
    hide Absorb;
    assert ([a, b, c, d] + rest)[4..] == rest;
  }

  /** "" */
  lemma HashOfEmpty()
    ensures Hash([]) == 0xca881466
  {
    hide Xor, Fold, Absorb, Finish;
    XorValue(97, 0);
    XorValue(0x61, 0);
    XorValue(0xca898175, 0x19513);
    FinishValue(0x61, 0, 0x61, 0xca898175, 0x19513, 0xca881466);
  }

  /** "a" */
  lemma HashOfA()
    ensures Hash([0x61]) == 0xe94e6ebd
  {
    hide Xor, Fold, Absorb, Finish;
    XorValue(97, 1);
    XorValue(0x60, 0x61);
    XorValue(0x5bd1e995, 0x2de8f);
    XorValue(0xe94fbc22, 0x1d29f);
    FinishValue(0x5bd1e995, 0x2de8f, 0x5bd3371a, 0xe94fbc22, 0x1d29f, 0xe94e6ebd);
  }

  /** "ab" */
  lemma HashOfAb()
    ensures Hash([0x61, 0x62]) == 0x688bcb9a
  {
    hide Xor, Fold, Absorb, Finish;
    XorValue(97, 2);
    XorValue(0x63, 0x6200);
    XorValue(0x6263, 0x61);
    XorValue(0x130edd2a, 0x9876);
    XorValue(0x688b1a8c, 0xd116);
    FinishValue(0x130edd2a, 0x9876, 0x130e455c, 0x688b1a8c, 0xd116, 0x688bcb9a);
  }

  /** "abc" */
  lemma HashOfAbc()
    ensures Hash([0x61, 0x62, 0x63]) == 0x6d5e3568
  {
    hide Xor, Fold, Absorb, Finish;
    XorValue(97, 3);
    XorValue(0x62, 0x630000);
    XorValue(0x630062, 0x6200);
    XorValue(0x636262, 0x61);
    XorValue(0xc37fc6bf, 0x61bfe);
    XorValue(0x6d5eefd5, 0xdabd);
    FinishValue(0xc37fc6bf, 0x61bfe, 0xc379dd41, 0x6d5eefd5, 0xdabd, 0x6d5e3568);
  }

  /** "abcdefgh" */
  lemma HashOfEightBytes()
    ensures Hash([0x61, 0x62, 0x63, 0x64, 0x65, 0x66, 0x67, 0x68]) == 0x29fbf812
  {
    hide Xor, Fold, Absorb, Finish;
    XorValue(97, 8);
    RunWord(0x69, 0x61, 0x62, 0x63, 0x64, [0x65, 0x66, 0x67, 0x68]);
    XorValue(0xae938b75, 0xae);
    XorValue(0xa918ce1d, 0xecf5b977);
    AbsorbValue(0x69, 0x64636261, 0xae938b75, 0xae, 0xae938bdb, 0xecf5b977, 0xa918ce1d, 0x45ed776a);
    assert [0x61, 0x62, 0x63, 0x64] + [0x65, 0x66, 0x67, 0x68] == [0x61, 0x62, 0x63, 0x64, 0x65, 0x66, 0x67, 0x68];
    RunWord(0x45ed776a, 0x65, 0x66, 0x67, 0x68, []);
    XorValue(0x5fd585c9, 0x5f);
    XorValue(0x6ffab2, 0x7f52464e);
    AbsorbValue(0x45ed776a, 0x68676665, 0x5fd585c9, 0x5f, 0x5fd58596, 0x7f52464e, 0x6ffab2, 0x7f3dbcfc);
    assert [0x65, 0x66, 0x67, 0x68] + [] == [0x65, 0x66, 0x67, 0x68];
    XorValue(0x7f3dbcfc, 0x3f9ed);
    XorValue(0x29fbabe5, 0x53f7);
    FinishValue(0x7f3dbcfc, 0x3f9ed, 0x7f3e4511, 0x29fbabe5, 0x53f7, 0x29fbf812);
  }

  /** "efghabcd" */
  lemma HashOfSwappedWords()
    ensures Hash([0x65, 0x66, 0x67, 0x68, 0x61, 0x62, 0x63, 0x64]) == 0x77ffb18c
  {
    hide Xor, Fold, Absorb, Finish;
    XorValue(97, 8);
    RunWord(0x69, 0x65, 0x66, 0x67, 0x68, [0x61, 0x62, 0x63, 0x64]);
    XorValue(0x5fd585c9, 0x5f);
    XorValue(0xa918ce1d, 0x7f52464e);
    AbsorbValue(0x69, 0x68676665, 0x5fd585c9, 0x5f, 0x5fd58596, 0x7f52464e, 0xa918ce1d, 0xd64a8853);
    assert [0x65, 0x66, 0x67, 0x68] + [0x61, 0x62, 0x63, 0x64] == [0x65, 0x66, 0x67, 0x68, 0x61, 0x62, 0x63, 0x64];
    RunWord(0xd64a8853, 0x61, 0x62, 0x63, 0x64, []);
    XorValue(0xae938b75, 0xae);
    XorValue(0x5c37e34f, 0xecf5b977);
    AbsorbValue(0xd64a8853, 0x64636261, 0xae938b75, 0xae, 0xae938bdb, 0xecf5b977, 0x5c37e34f, 0xb0c25a38);
    assert [0x61, 0x62, 0x63, 0x64] + [] == [0x61, 0x62, 0x63, 0x64];
    XorValue(0xb0c25a38, 0x58612);
    XorValue(0x77ff5e72, 0xeffe);
    FinishValue(0xb0c25a38, 0x58612, 0xb0c7dc2a, 0x77ff5e72, 0xeffe, 0x77ffb18c);
  }

  // ----- Virtual nodes -----

  /** The first node of "10.0.0.1": the hash of "SHARD-10.0.0.1-NODE-" and a zero byte. */
  lemma NodeIdValue()
    ensures NodeId([0x31, 0x30, 0x2e, 0x30, 0x2e, 0x30, 0x2e, 0x31], 0) == 0x6b81a174
  {
    hide Xor, Fold, Absorb, Finish, Run, NodeName;
    NodeNameWords();
    XorValue(97, 21);
    NodeNameStart([0x2e, 0x31, 0x2d, 0x4e] + ([0x4f, 0x44, 0x45, 0x2d] + [0]));
    NodeNameEnd([0]);
    NodeNameTail();
    XorValue(0x4a95afb3, 0x254ad);
    XorValue(0x6b817676, 0xd702);
    FinishValue(0x4a95afb3, 0x254ad, 0x4a97fb1e, 0x6b817676, 0xd702, 0x6b81a174);
  }

  lemma NodeNameTail()
    ensures Run(0x2f0c3227, [0]) == 0x4a95afb3
  {
    hide Xor;
    XorValue(0x2f0c3227, 0);
  }

  lemma NodeNameWords()
    ensures NodeName([0x31, 0x30, 0x2e, 0x30, 0x2e, 0x30, 0x2e, 0x31], 0) ==
            [0x53, 0x48, 0x41, 0x52] + ([0x44, 0x2d, 0x31, 0x30] + ([0x2e, 0x30, 0x2e, 0x30] + ([0x2e, 0x31, 0x2d, 0x4e] + ([0x4f, 0x44, 0x45, 0x2d] + [0]))))
  {}

  lemma NodeNameStart(rest: seq<Byte>)
    ensures Run(0x74, [0x53, 0x48, 0x41, 0x52] + ([0x44, 0x2d, 0x31, 0x30] + ([0x2e, 0x30, 0x2e, 0x30] + rest))) == Run(0xf2e0e7d, rest)
  {
    hide Xor, Fold, Absorb, Finish, Run;
    RunWord(0x74, 0x53, 0x48, 0x41, 0x52, [0x44, 0x2d, 0x31, 0x30] + ([0x2e, 0x30, 0x2e, 0x30] + rest));
    XorValue(0xd795a34f, 0xd7);
    XorValue(0x9b1dd784, 0x43158f78);
    AbsorbValue(0x74, 0x52414853, 0xd795a34f, 0xd7, 0xd795a398, 0x43158f78, 0x9b1dd784, 0xd80858fc);
    RunWord(0xd80858fc, 0x44, 0x2d, 0x31, 0x30, [0x2e, 0x30, 0x2e, 0x30] + rest);
    XorValue(0xef563c94, 0xef);
    XorValue(0x8f9526ac, 0xe3a82697);
    AbsorbValue(0xd80858fc, 0x30312d44, 0xef563c94, 0xef, 0xef563c7b, 0xe3a82697, 0x8f9526ac, 0x6c3d003b);
    RunWord(0x6c3d003b, 0x2e, 0x30, 0x2e, 0x30, rest);
    XorValue(0xc449e8c6, 0xc4);
    XorValue(0xade1d557, 0xa2cfdb2a);
    AbsorbValue(0x6c3d003b, 0x302e302e, 0xc449e8c6, 0xc4, 0xc449e802, 0xa2cfdb2a, 0xade1d557, 0xf2e0e7d);
  }

  lemma NodeNameEnd(rest: seq<Byte>)
    ensures Run(0xf2e0e7d, [0x2e, 0x31, 0x2d, 0x4e] + ([0x4f, 0x44, 0x45, 0x2d] + rest)) == Run(0x2f0c3227, rest)
  {
    hide Xor, Fold, Absorb, Finish, Run;
    RunWord(0xf2e0e7d, 0x2e, 0x31, 0x2d, 0x4e, [0x4f, 0x44, 0x45, 0x2d] + rest);
    XorValue(0x229e7dc6, 0x22);
    XorValue(0x40b33c1, 0x39f7c9b4);
    AbsorbValue(0xf2e0e7d, 0x4e2d312e, 0x229e7dc6, 0x22, 0x229e7de4, 0x39f7c9b4, 0x40b33c1, 0x3dfcfa75);
    RunWord(0x3dfcfa75, 0x4f, 0x44, 0x45, 0x2d, rest);
    XorValue(0x3dfba8fb, 0x3d);
    XorValue(0x64b74319, 0x4bbb713e);
    AbsorbValue(0x3dfcfa75, 0x2d45444f, 0x3dfba8fb, 0x3d, 0x3dfba8c6, 0x4bbb713e, 0x64b74319, 0x2f0c3227);
  }

  // ----- Dictionary and timer hashes -----

  /** One byte: `hash += c`, `hash += hash << 10`, `hash ^= hash >> 6`. */
  lemma HashStepValue(h: Word, c: char, h1: Word, h2: Word, q: Word, r: Word)
    requires (h + Widened(c)) % SIZE == h1 && (h1 + 0x400 * h1) % SIZE == h2
    requires 0x40 * q <= h2 < 0x40 * q + 0x40 && Xor(h2, q) == r
    ensures HashStep(h, c) == r
  {
    hide Xor, Shl, Fold, Widened;
    Powers();
    ShlIsProduct(h1, 10);
    FoldValue(h2, 6, 0x40, q, r);
  }

  /** The end: `hash += hash << 3`, `hash ^= hash >> 11`, `hash += hash << 15`. */
  lemma HashEndValue(key: string, h: Word, h1: Word, q: Word, h2: Word, r: Word)
    requires HashLoop(key) == h && (h + 8 * h) % SIZE == h1 && 0x800 * q <= h1 < 0x800 * q + 0x800 && Xor(h1, q) == h2
    requires (h2 + 0x8000 * h2) % SIZE == r
    ensures HashOf(key) == r
  {
    hide Xor, Shl, Fold, HashLoop;
    Powers();
    ShlIsProduct(h, 3);
    ShlIsProduct(h2, 15);
    FoldValue(h1, 11, 0x800, q, h2);
  }

  lemma DictionaryHashOfA()
    ensures HashOf("a") == 0xca2e9442
  {
    hide Xor, Fold, HashStep, HashOf;
    XorValue(0x18461, 0x611);
    HashStepValue(0, 'a', 0x61, 0x18461, 0x611, 0x18270);
    XorValue(0xd95f0, 0x1b2);
    HashEndValue("a", 0x18270, 0xd95f0, 0x1b2, 0xd9442, 0xca2e9442);
  }

  lemma DictionaryHashOfAb()
    ensures HashOf("ab") == 0x45e61e58
  {
    hide Xor, Fold, HashStep, HashOf;
    XorValue(0x18461, 0x611);
    HashStepValue(0, 'a', 0x61, 0x18461, 0x611, 0x18270);
    XorValue(0x60ccad2, 0x18332b);
    HashStepValue(0x18270, 'b', 0x182d2, 0x60ccad2, 0x18332b, 0x614f9f9);
    assert "ab"[..1] == "a";
    XorValue(0x36bcc9c1, 0x6d799);
    HashEndValue("ab", 0x614f9f9, 0x36bcc9c1, 0x6d799, 0x36ba1e58, 0x45e61e58);
  }

  /** A character above 0x7f is negative. */
  lemma DictionaryHashOfSigned()
    ensures HashOf("\U{e9}") == 0x409848ff
  {
    hide Xor, Fold, HashStep, HashOf;
    XorValue(0xffffa3e9, 0x3fffe8f);
    HashStepValue(0, '\U{e9}', 0xffffffe9, 0xffffa3e9, 0x3fffe8f, 0xfc005d66);
    XorValue(0xdc034896, 0x1b8069);
    HashEndValue("\U{e9}", 0xfc005d66, 0xdc034896, 0x1b8069, 0xdc18c8ff, 0x409848ff);
  }

  lemma BkdrStep(s: string, c: char, h: Word)
    requires BkdrLoop(s) == h
    ensures BkdrLoop(s + [c]) == (h * 1313 + Signed(c)) % SIZE
  {
    assert (s + [c])[..|s|] == s;
  }

  lemma BkdrValues()
    ensures BkdrLoop("ab") % 0x8000_0000 == 0x1f1e3
    ensures BkdrLoop("\U{e9}") % 0x8000_0000 == 0x7fffffe9
    ensures Bucket("ab") == 19
  {
    hide BkdrLoop;
    BkdrEmpty();
    assert "" + ['a'] == "a" && "a" + ['b'] == "ab" && "" + ['\U{e9}'] == "\U{e9}";
    BkdrStep("", 'a', 0);
    BkdrStep("a", 'b', 0x61);
    BkdrStep("", '\U{e9}', 0);
  }

  lemma BkdrEmpty()
    ensures BkdrLoop("") == 0
  {}
}
