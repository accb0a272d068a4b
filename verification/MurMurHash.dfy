/**
 The 32-bit string hash behind the virtual-node ring (src/util/rpc_util.cpp).

 Every stage of the hash is one-to-one on the 32-bit words, and so a permutation
 of them.  Two keys of one length that differ inside a single aligned word, or
 inside the one- to three-byte tail, therefore never collide.
 */
module MurMurHash {
  import opened Words

  /** The length is an `int32_t` in the source. */
  const MAX_LEN: nat := 0x8000_0000

  const SEED: Word := 97

  // ----- The stages of the hash -----

  function XorWord(a: Word, b: Word): Word {
    XorOfWords(a, b);
    Xor(a, b)
  }

  /** A byte shifted left by eight or sixteen bits. */
  function Shl8(b: Byte): Word { 0x100 * (b as int) }

  function Shl16(b: Byte): Word { 0x1_0000 * (b as int) }

  /** Four bytes read as one little-endian unsigned word. */
  function FirstWord(data: seq<Byte>): Word
    requires |data| >= 4
  {
    (data[0] as int) + Shl8(data[1]) + Shl16(data[2]) + 0x100_0000 * (data[3] as int)
  }

  function MixWord(k: Word): Word { Times(Fold(Times(k), 24)) }

  /** One turn of the word loop: state `h` absorbs the word `k`. */
  function Absorb(h: Word, k: Word): Word { XorWord(Times(h), MixWord(k)) }

  /** The fall-through switch over the one to three bytes left over. */
  function AbsorbTail(h: Word, tail: seq<Byte>): Word
    requires |tail| < 4
  {
    if |tail| == 0 then h else Times(TailSum(h, tail))
  }

  function TailSum(h: Word, tail: seq<Byte>): Word
    requires 0 < |tail| < 4
  {
    var h3 := if |tail| == 3 then XorWord(h, Shl16(tail[2])) else h;
    var h2 := if |tail| >= 2 then XorWord(h3, Shl8(tail[1])) else h3;
    XorWord(h2, tail[0])
  }

  function Finish(h: Word): Word { Fold(Times(Fold(h, 13)), 15) }

  /** The state after the whole of `data` has been absorbed into `h`. */
  function Run(h: Word, data: seq<Byte>): Word
    decreases |data|
  {
    if |data| < 4 then AbsorbTail(h, data) else Run(Absorb(h, FirstWord(data)), data[4..])
  }

  function Hash(key: seq<Byte>): Word
    requires |key| < MAX_LEN
  {
    Finish(Run(XorWord(SEED, |key|), key))
  }

  /** The imperative hash walks the buffer one word at a time and computes `Hash`. */
  method MurMurHash2(key: seq<Byte>) returns (h: Word)
    requires |key| < MAX_LEN
    ensures h == Hash(key)
  {
    hide Times, Fold, XorWord;
    h := XorWord(SEED, |key|);
    var data, len := 0, |key|;
    assert key[0..] == key;
    while len >= 4
      invariant 0 <= len && data + len == |key|
      invariant Run(h, key[data..]) == Run(XorWord(SEED, |key|), key)
    {
      assert key[data..][4..] == key[data + 4..];
      var k := FirstWord(key[data..data + 4]);
      assert k == FirstWord(key[data..]);
      k := Times(k);
      k := Fold(k, 24);
      k := Times(k);
      h := Times(h);
      h := XorWord(h, k);
      data, len := data + 4, len - 4;
    }
    ghost var before := h;
    if len == 3 { h := XorWord(h, Shl16(key[data + 2])); }
    if len >= 2 { h := XorWord(h, Shl8(key[data + 1])); }
    if len >= 1 {
      h := XorWord(h, key[data]);
      h := Times(h);
    }
    assert h == AbsorbTail(before, key[data..]);
    h := Fold(h, 13);
    h := Times(h);
    h := Fold(h, 15);
  }

  // ----- Every stage is one-to-one -----

  lemma MixWordInjective(a: Word, b: Word)
    ensures MixWord(a) == MixWord(b) ==> a == b
  {
    hide Times, Fold;
    TimesInjective(a, b);
    FoldInjective(Times(a), Times(b), 24);
    TimesInjective(Fold(Times(a), 24), Fold(Times(b), 24));
  }

  lemma FinishInjective(a: Word, b: Word)
    ensures Finish(a) == Finish(b) ==> a == b
  {
    hide Times, Fold;
    FoldInjective(a, b, 13);
    TimesInjective(Fold(a, 13), Fold(b, 13));
    FoldInjective(Times(Fold(a, 13)), Times(Fold(b, 13)), 15);
  }

  /** Absorbing is one-to-one in the state and in the word. */
  lemma AbsorbInjective(h: Word, h': Word, k: Word, k': Word)
    ensures h != h' ==> Absorb(h, k) != Absorb(h', k)
    ensures k != k' ==> Absorb(h, k) != Absorb(h, k')
  {
    hide Times, MixWord, Xor;
    TimesInjective(h, h');
    MixWordInjective(k, k');
    XorCancels(Times(h), Times(h'), MixWord(k));
    XorCancels(MixWord(k), MixWord(k'), Times(h));
  }

  lemma FirstWordInjective(a: seq<Byte>, b: seq<Byte>)
    requires |a| >= 4 && |b| >= 4 && a[..4] != b[..4]
    ensures FirstWord(a) != FirstWord(b)
  {
    assert a[..4] == [a[0], a[1], a[2], a[3]] && b[..4] == [b[0], b[1], b[2], b[3]];
    if FirstWord(a) == FirstWord(b) {
      var a2, b2 := a[2] + 0x100 * (a[3] as int), b[2] + 0x100 * (b[3] as int);
      LowByte(a[0], a[1] + 0x100 * a2, b[0], b[1] + 0x100 * b2);
      LowByte(a[1], a2, b[1], b2);
      LowByte(a[2], a[3], b[2], b[3]);
    }
  }

  lemma LowByte(a: Byte, x: int, b: Byte, y: int)
    requires a + 0x100 * x == b + 0x100 * y
    ensures a == b && x == y
  {}

  /** The tail step is one-to-one in the state and in the tail. */
  lemma TailInjective(h: Word, h': Word, a: seq<Byte>, b: seq<Byte>)
    requires |a| == |b| < 4
    ensures h != h' ==> AbsorbTail(h, a) != AbsorbTail(h', a)
    ensures a != b ==> AbsorbTail(h, a) != AbsorbTail(h, b)
  {
    hide Times, TailSum;
    if |a| > 0 {
      TimesInjective(TailSum(h, a), TailSum(h', a));
      TimesInjective(TailSum(h, a), TailSum(h, b));
      TailSumIsXor(h, a);
      TailSumIsXor(h', a);
      TailSumIsXor(h, b);
      XorCancels(h, h', Digits(a));
      XorCancels(Digits(a), Digits(b), h);
      DigitsInjective(a, b);
    }
  }

  function Digits(tail: seq<Byte>): Word
    requires 0 < |tail| < 4
  {
    (tail[0] as int) + (if |tail| >= 2 then Shl8(tail[1]) else 0) + (if |tail| == 3 then Shl16(tail[2]) else 0)
  }

  lemma DigitsInjective(a: seq<Byte>, b: seq<Byte>)
    requires 0 < |a| == |b| < 4
    ensures Digits(a) == Digits(b) ==> a == b
  {
    if Digits(a) == Digits(b) {
      var a1, b1 := if |a| >= 2 then a[1] else 0, if |a| >= 2 then b[1] else 0;
      var a2, b2 := if |a| == 3 then a[2] else 0, if |a| == 3 then b[2] else 0;
      LowByte(a[0], a1 + 0x100 * (a2 as int), b[0], b1 + 0x100 * (b2 as int));
      LowByte(a1, a2, b1, b2);
    }
  }

  /** The bytes of the tail do not overlap, so the switch adds them up and mixes once. */
  lemma TailSumIsXor(h: Word, tail: seq<Byte>)
    requires 0 < |tail| < 4
    ensures TailSum(h, tail) == Xor(h, Digits(tail))
  {
    hide Xor;
    var t1 := if |tail| >= 2 then tail[1] else 0;
    var t2 := if |tail| == 3 then tail[2] else 0;
    XorZero(h);
    BytesAdd(tail[0], t1, t2);
    XorAssociates(Xor(h, Shl16(t2)), Shl8(t1), tail[0]);
    XorAssociates(h, Shl16(t2), Xor(Shl8(t1), tail[0]));
  }

  lemma BytesAdd(b0: Byte, b1: Byte, b2: Byte)
    ensures Xor(Shl8(b1), b0) == Shl8(b1) + b0
    ensures Xor(Shl16(b2), Shl8(b1) + b0) == Shl16(b2) + Shl8(b1) + b0
  {
    hide Xor, Shr;
    ShlConstants();
    ShlIsProduct(b1, 8);
    ShlIsProduct(b2, 16);
    ShrBelow(b0, 8);
    ShrBelow(Shl8(b1) + b0, 16);
    XorDisjoint(b1, b0, 8);
    XorDisjoint(b2, Shl8(b1) + b0, 16);
  }

  // ----- Separation -----

  /** Distinct states stay distinct through any common suffix. */
  lemma {:induction false} RunInjectiveInState(h: Word, h': Word, data: seq<Byte>)
    requires h != h'
    ensures Run(h, data) != Run(h', data)
    decreases |data|
  {
    hide Absorb, AbsorbTail, FirstWord;
    if |data| < 4 {
      TailInjective(h, h', data, data);
    } else {
      var k := FirstWord(data);
      AbsorbInjective(h, h', k, k);
      RunInjectiveInState(Absorb(h, k), Absorb(h', k), data[4..]);
    }
  }

  /** `a` and `b` have one length, differ, and agree outside `[lo..hi)`. */
  ghost predicate DifferOnlyWithin(a: seq<Byte>, b: seq<Byte>, lo: nat, hi: nat)
    requires lo <= hi <= |a| == |b|
  {
    && a != b
    && a[..lo] == b[..lo]
    && a[hi..] == b[hi..]
  }

  /** A stretch that the hash reads in one go: an aligned word or the tail. */
  ghost predicate Block(len: nat, lo: nat, hi: nat) {
    && lo % 4 == 0 && lo <= hi <= len
    && (hi == lo + 4 || (hi == len && len < lo + 4))
  }

  lemma {:induction false} RunSeparates(h: Word, a: seq<Byte>, b: seq<Byte>, lo: nat, hi: nat)
    requires |a| == |b| && Block(|a|, lo, hi) && DifferOnlyWithin(a, b, lo, hi)
    ensures Run(h, a) != Run(h, b)
    decreases lo
  {
    hide Absorb, AbsorbTail;
    if lo == 0 && hi == 4 {
      assert a == a[..4] + a[4..] && b == b[..4] + b[4..];
      FirstWordInjective(a, b);
      AbsorbInjective(h, h, FirstWord(a), FirstWord(b));
      RunInjectiveInState(Absorb(h, FirstWord(a)), Absorb(h, FirstWord(b)), a[4..]);
    } else if lo == 0 {
      TailInjective(h, h, a, b);
    } else {
      assert forall i | 0 <= i < lo :: a[i] == a[..lo][i] && b[i] == b[..lo][i];
      var a', b' := a[4..], b[4..];
      assert a[..4] == b[..4] && a'[..lo - 4] == b'[..lo - 4];
      assert a'[hi - 4..] == a[hi..] && b'[hi - 4..] == b[hi..];
      assert a == a[..4] + a' && b == b[..4] + b';
      RunSeparates(Absorb(h, FirstWord(a)), a', b', lo - 4, hi - 4);
    }
  }

  /** Keys of one length that differ inside a single block never collide. */
  lemma HashSeparates(a: seq<Byte>, b: seq<Byte>, lo: nat, hi: nat)
    requires |a| == |b| < MAX_LEN && Block(|a|, lo, hi) && DifferOnlyWithin(a, b, lo, hi)
    ensures Hash(a) != Hash(b)
  {
    hide Run, Finish, XorWord;
    var h := XorWord(SEED, |a|);
    RunSeparates(h, a, b, lo, hi);
    FinishInjective(Run(h, a), Run(h, b));
  }
}
