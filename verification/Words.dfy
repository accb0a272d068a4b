/**
 Unsigned 32-bit words as integers, with shifts and exclusive-or written out bit by bit.
 */
module Words {

  const SIZE: int := 0x1_0000_0000

  type Byte = b: int | 0 <= b < 0x100

  type Word = w: int | 0 <= w < SIZE

  /** `a >> n` */
  function Shr(a: nat, n: nat): nat
    decreases n
  {
    if n == 0 then a else Shr(a / 2, n - 1)
  }

  /** `a << n`, before it is cut to a word */
  function Shl(a: nat, n: nat): nat {
    if n == 0 then a else 2 * Shl(a, n - 1)
  }

  /** `a ^ b` */
  function Xor(a: nat, b: nat): nat
    decreases a + b
  {
    if a == 0 && b == 0 then 0 else (a + b) % 2 + 2 * Xor(a / 2, b / 2)
  }

  /** `a * m` for the hash constant m = 0x5bd1e995, cut to a word */
  function Times(a: Word): Word { a * 0x5bd1e995 % SIZE }

  // ----- Exclusive-or -----

  lemma {:induction false} XorStep(a: nat, b: nat)
    ensures Xor(a, b) % 2 == (a + b) % 2
    ensures Xor(a, b) / 2 == Xor(a / 2, b / 2)
  {
    if a == 0 && b == 0 {
    } else {
      Halves(Xor(a / 2, b / 2), (a + b) % 2);
    }
  }

  lemma Halves(h: nat, bit: nat)
    requires bit < 2
    ensures (bit + 2 * h) % 2 == bit && (bit + 2 * h) / 2 == h
  {}

  lemma Parity(x: nat, s: nat, c: nat)
    requires x % 2 == s % 2
    ensures (x + c) % 2 == (s + c) % 2
  {}

  lemma SameHalves(a: nat, b: nat)
    requires a % 2 == b % 2 && a / 2 == b / 2
    ensures a == b
  {}

  lemma {:induction false} XorZero(a: nat)
    ensures Xor(a, 0) == a && Xor(0, a) == a && Xor(a, a) == 0
    decreases a
  {
    if a > 0 {
      XorZero(a / 2);
    }
  }

  lemma {:induction false} XorCommutes(a: nat, b: nat)
    ensures Xor(a, b) == Xor(b, a)
    decreases a + b
  {
    if a + b > 0 {
      XorCommutes(a / 2, b / 2);
    }
  }

  lemma {:induction false} XorAssociates(a: nat, b: nat, c: nat)
    ensures Xor(Xor(a, b), c) == Xor(a, Xor(b, c))
    decreases a + b + c
  {
    hide Xor;
    if a + b + c == 0 {
      XorZero(0);
    } else {
      XorAssociates(a / 2, b / 2, c / 2);
      XorStep(a, b);
      XorStep(b, c);
      XorStep(Xor(a, b), c);
      XorStep(a, Xor(b, c));
      Parity(Xor(a, b), a + b, c);
      Parity(Xor(b, c), b + c, a);
      SameHalves(Xor(Xor(a, b), c), Xor(a, Xor(b, c)));
    }
  }

  /** Exclusive-or is undone by doing it again, so it is one-to-one in each argument. */
  lemma XorCancels(a: nat, b: nat, c: nat)
    ensures Xor(Xor(a, c), c) == a
    ensures Xor(a, c) == Xor(b, c) ==> a == b
    ensures Xor(c, a) == Xor(c, b) ==> a == b
  {
    hide Xor;
    XorAssociates(a, c, c);
    XorAssociates(b, c, c);
    XorZero(c);
    XorZero(a);
    XorZero(b);
    XorCommutes(c, a);
    XorCommutes(c, b);
  }

  /** Numbers without a common bit are added. */
  lemma {:induction false} XorDisjoint(hi: nat, lo: nat, n: nat)
    requires Shr(lo, n) == 0
    ensures Xor(Shl(hi, n), lo) == Shl(hi, n) + lo
    decreases n
  {
    if n == 0 {
      XorZero(hi);
    } else {
      var top := Shl(hi, n - 1);
      XorDisjoint(hi, lo / 2, n - 1);
      XorStep(2 * top, lo);
      assert 2 * top / 2 == top;
      SameHalves(Xor(2 * top, lo), 2 * top + lo);
    }
  }

  // ----- Shifts -----

  lemma {:induction false} XorShifts(a: nat, b: nat, n: nat)
    ensures Shr(Xor(a, b), n) == Xor(Shr(a, n), Shr(b, n))
    decreases n
  {
    if n > 0 {
      XorStep(a, b);
      XorShifts(a / 2, b / 2, n - 1);
    }
  }

  lemma {:induction false} ShrShr(a: nat, s: nat, m: nat)
    ensures Shr(Shr(a, s), m) == Shr(a, s + m)
    decreases s
  {
    if s > 0 {
      ShrShr(a / 2, s - 1, m);
    }
  }

  lemma {:induction false} ShrBelow(a: nat, n: nat)
    ensures Shr(a, n) <= a
    ensures Shr(a, n) == 0 <==> a < Shl(1, n)
    decreases n
  {
    if n > 0 {
      ShrBelow(a / 2, n - 1);
    }
  }

  lemma ShlConstants()
    ensures Shl(1, 8) == 0x100 && Shl(1, 16) == 0x1_0000 && Shl(1, 32) == SIZE
  {
    assert Shl(1, 4) == 0x10;
    assert Shl(1, 12) == 0x1000;
    assert Shl(1, 20) == 0x10_0000;
    assert Shl(1, 24) == 0x100_0000;
    assert Shl(1, 28) == 0x1000_0000;
  }

  lemma {:induction false} ShlIsProduct(a: nat, n: nat)
    ensures Shl(a, n) == a * Shl(1, n)
  {
    if n > 0 {
      ShlIsProduct(a, n - 1);
    }
  }

  /** The exclusive-or of two words is a word. */
  lemma XorOfWords(a: Word, b: Word)
    ensures Xor(a, b) < SIZE
  {
    ShlConstants();
    ShrBelow(a, 32);
    ShrBelow(b, 32);
    XorShifts(a, b, 32);
    ShrBelow(Xor(a, b), 32);
  }

  /** `a ^ (a >> s)` */
  function Fold(a: Word, s: nat): Word {
    ShrBelow(a, s);
    XorOfWords(a, Shr(a, s));
    Xor(a, Shr(a, s))
  }

  /** Folding loses nothing: the top bits fix the bits below them, and so on down. */
  lemma FoldInjective(a: Word, b: Word, s: nat)
    requires s > 0
    ensures Fold(a, s) == Fold(b, s) ==> a == b
  {
    if Fold(a, s) == Fold(b, s) {
      FoldFixesTop(a, b, s, 0);
    }
  }

  lemma {:induction false} FoldFixesTop(a: Word, b: Word, s: nat, m: nat)
    requires s > 0 && Fold(a, s) == Fold(b, s)
    ensures Shr(a, m) == Shr(b, m)
    decreases 32 - m
  {
    hide Shr, Xor;
    if m >= 32 {
      ShrOfWord(a, m);
      ShrOfWord(b, m);
    } else {
      FoldFixesTop(a, b, s, m + s);
      XorShifts(a, Shr(a, s), m);
      XorShifts(b, Shr(b, s), m);
      ShrShr(a, s, m);
      ShrShr(b, s, m);
      XorCancels(Shr(a, m), Shr(b, m), Shr(a, s + m));
    }
  }

  lemma ShrOfWord(a: Word, m: nat)
    requires m >= 32
    ensures Shr(a, m) == 0
  {
    ShlConstants();
    ShrBelow(a, 32);
    ShrShr(a, 32, m - 32);
    ShrBelow(0, m - 32);
  }

  // ----- Multiplication -----

  /** 0xe59b19bd is the inverse of the hash constant modulo 2^32. */
  lemma TimesUndone(a: Word)
    ensures Times(a) * 0xe59b19bd % SIZE == a
  {
    var q := a * 0x5bd1e995 / SIZE;
    assert Times(a) == a * 0x5bd1e995 - SIZE * q;
    InverseOfConstant(a, q);
    Remainder(a * 0x525a6746 - q * 0xe59b19bd, a);
  }

  lemma InverseOfConstant(a: int, q: int)
    ensures (a * 0x5bd1e995 - SIZE * q) * 0xe59b19bd == SIZE * (a * 0x525a6746 - q * 0xe59b19bd) + a
  {}

  lemma Remainder(q: int, r: Word)
    ensures (SIZE * q + r) % SIZE == r
  {}

  lemma TimesInjective(a: Word, b: Word)
    ensures Times(a) == Times(b) ==> a == b
  {
    hide Times;
    TimesUndone(a);
    TimesUndone(b);
  }
}
