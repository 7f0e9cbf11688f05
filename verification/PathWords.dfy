/**
 A path's index as a 64-bit word: indices below two to the sixty-fourth give different words.

 Two equal words differ by a multiple of the word size: doubling shifts the lowest bit of an odd number
 out only after sixty-four times.
 */
module PathWords {

  const TWO64: int := 0x1_0000_0000_0000_0000

  function Next(w: bv64): bv64 { w + 1 }

  function Plus(a: bv64, b: bv64): bv64 { a + b }

  predicate Odd(w: bv64) { w & 1 == 1 }

  function Twice(w: bv64): bv64 { Plus(w, w) }

  /** A path index as a 64-bit word: counting up from zero, wrapping around. */
  function Word(i: nat): bv64 { if i == 0 then 0 else Next(Word(i - 1)) }

  // Facts about single words, one at a time to keep the solver on the bits.

  lemma NextIsOneMore(w: bv64)
    ensures Next(w) == w + 1
  {}

  lemma NextOfRawSum(a: bv64, b: bv64)
    ensures Next(a + b) == a + (b + 1)
  {}

  lemma NextOfSum(a: bv64, b: bv64)
    ensures Next(Plus(a, b)) == Plus(a, Next(b))
  {
    NextOfRawSum(a, b);
    hide Next;
    NextIsOneMore(b);
  }

  lemma PlusNothing(a: bv64)
    ensures Plus(a, 0) == a
  {}

  lemma OnlyNothingAddsNothing(a: bv64, b: bv64)
    ensures Plus(a, b) == a ==> b == 0
  {}

  lemma NextFlips(w: bv64)
    ensures Odd(Next(w)) <==> !Odd(w)
  {}

  lemma ZeroIsEven()
    ensures !Odd(0) && Twice(0) == 0
  {}

  // Words of sums, and their lowest bit.

  lemma {:induction false} WordsAdd(i: nat, j: nat)
    ensures Word(i + j) == Plus(Word(i), Word(j))
    decreases j
  {
    hide Next, Plus;
    if j == 0 {
      PlusNothing(Word(i));
    } else {
      WordsAdd(i, j - 1);
      NextOfSum(Word(i), Word(j - 1));
    }
  }

  lemma {:induction false} WordParity(i: nat)
    ensures Odd(Word(i)) <==> i % 2 == 1
  {
    hide Next, Odd, Twice;
    if i == 0 {
      ZeroIsEven();
    } else {
      WordParity(i - 1);
      NextFlips(Word(i - 1));
    }
  }

  // Doubling.

  /** A word doubled `a` times. */
  function Doubled(w: bv64, a: nat): bv64
    decreases a
  {
    if a == 0 then w else Doubled(Twice(w), a - 1)
  }

  lemma {:induction false} DoubledZero(a: nat)
    ensures Doubled(0, a) == 0
  {
    ZeroIsEven();
    hide Twice;
    if a > 0 { DoubledZero(a - 1); }
  }

  lemma {:induction false} DoubledOn(w: bv64, a: nat, b: nat)
    ensures Doubled(w, a + b) == Doubled(Doubled(w, a), b)
    decreases a
  {
    hide Twice;
    if a > 0 { DoubledOn(Twice(w), a - 1, b); }
  }

  function Left1(w: bv64): bv64 { w << 1 }
  function Left2(w: bv64): bv64 { w << 2 }
  function Left4(w: bv64): bv64 { w << 4 }
  function Left8(w: bv64): bv64 { w << 8 }
  function Left16(w: bv64): bv64 { w << 16 }
  function Left32(w: bv64): bv64 { w << 32 }

  lemma Left1IsTwice(w: bv64) ensures Twice(w) == Left1(w) {}
  lemma Left2IsLeft1Twice(w: bv64) ensures Left1(Left1(w)) == Left2(w) {}
  lemma Left4IsLeft2Twice(w: bv64) ensures Left2(Left2(w)) == Left4(w) {}
  lemma Left8IsLeft4Twice(w: bv64) ensures Left4(Left4(w)) == Left8(w) {}
  lemma Left16IsLeft8Twice(w: bv64) ensures Left8(Left8(w)) == Left16(w) {}
  lemma Left32IsLeft16Twice(w: bv64) ensures Left16(Left16(w)) == Left32(w) {}

  lemma LowestBitStays(w: bv64)
    ensures Odd(w) ==> Left32(Left16(Left8(Left4(Left2(Left1(w)))))) != 0
  {}

  lemma DoubledOnce(w: bv64)
    ensures Doubled(w, 1) == Left1(w)
  {
    hide Twice, Left1;
    assert Doubled(w, 1) == Doubled(Twice(w), 0);
    Left1IsTwice(w);
  }

  /** Doubling a power of two times shifts by as much. */
  lemma DoubledIsShift(w: bv64)
    ensures Doubled(w, 2) == Left2(w) && Doubled(w, 4) == Left4(w)
  {
    hide Doubled, Left1, Left2, Left4;
    DoubledOn(w, 1, 1);
    DoubledOnce(w);
    DoubledOnce(Left1(w));
    Left2IsLeft1Twice(w);
    DoubledOn(w, 2, 2);
    var v := Left2(w);
    DoubledOn(v, 1, 1);
    DoubledOnce(v);
    DoubledOnce(Left1(v));
    Left2IsLeft1Twice(v);
    Left4IsLeft2Twice(w);
  }

  lemma DoubledFarther(w: bv64)
    ensures Doubled(w, 8) == Left8(w) && Doubled(w, 16) == Left16(w)
  {
    hide Doubled, Left4, Left8, Left16, Left2;
    DoubledOn(w, 4, 4);
    DoubledIsShift(w);
    DoubledIsShift(Left4(w));
    Left8IsLeft4Twice(w);
    DoubledOn(w, 8, 8);
    var v := Left8(w);
    DoubledOn(v, 4, 4);
    DoubledIsShift(v);
    DoubledIsShift(Left4(v));
    Left8IsLeft4Twice(v);
    Left16IsLeft8Twice(w);
  }

  lemma DoubledFarthest(w: bv64)
    ensures Doubled(w, 32) == Left32(w)
  {
    hide Doubled, Left8, Left16, Left32;
    DoubledOn(w, 16, 16);
    DoubledFarther(w);
    DoubledFarther(Left16(w));
    Left32IsLeft16Twice(w);
  }

  lemma OddDoubled63(w: bv64)
    requires Odd(w)
    ensures Doubled(w, 63) != 0
  {
    hide Doubled, Odd, Left1, Left2, Left4, Left8, Left16, Left32;
    var (w1, w2, w3) := (Left1(w), Left2(Left1(w)), Left4(Left2(Left1(w))));
    DoubledOn(w, 1, 62);
    DoubledOnce(w);
    DoubledOn(w1, 2, 60);
    DoubledIsShift(w1);
    DoubledOn(w2, 4, 56);
    DoubledIsShift(w2);
    DoubledOn(w3, 8, 48);
    DoubledFarther(w3);
    DoubledOn(Left8(w3), 16, 32);
    DoubledFarther(Left8(w3));
    DoubledFarthest(Left16(Left8(w3)));
    LowestBitStays(w);
  }

  /** An odd word doubled at most 63 times is not zero. */
  lemma OddDoubled(w: bv64, a: nat)
    requires Odd(w) && a <= 63
    ensures Doubled(w, a) != 0
  {
    hide Doubled, Odd;
    OddDoubled63(w);
    DoubledOn(w, a, 63 - a);
    DoubledZero(63 - a);
  }

  // A difference below two to the sixty-fourth is not zero as a word.

  function Pow2(a: nat): (p: nat)
    ensures p > 0
  {
    if a == 0 then 1 else 2 * Pow2(a - 1)
  }

  lemma {:induction false} Pow2Grows(a: nat, b: nat)
    requires a <= b
    ensures Pow2(a) <= Pow2(b)
    decreases b - a
  {
    if a < b { Pow2Grows(a, b - 1); }
  }

  lemma Pow2Of64()
    ensures Pow2(64) == TWO64
  {
    assert Pow2(8) == 256;
    assert Pow2(16) == 0x1_0000;
    assert Pow2(24) == 0x100_0000;
    assert Pow2(32) == 0x1_0000_0000;
    assert Pow2(40) == 0x100_0000_0000;
    assert Pow2(48) == 0x1_0000_0000_0000;
    assert Pow2(56) == 0x100_0000_0000_0000;
  }

  lemma {:induction false} NotZeroDoubled(d: nat, a: nat)
    requires d > 0 && d * Pow2(a) < TWO64
    ensures Doubled(Word(d), a) != 0
    decreases d
  {
    hide Word, Doubled, Odd, Twice, Plus;
    WordParity(d);
    if d % 2 == 1 {
      if a > 63 { Pow2Grows(64, a); }
      Pow2Of64();
      AtLeastTheFactor(d, Pow2(a));
      OddDoubled(Word(d), a);
    } else {
      var k := d / 2;
      HalvedProduct(d, k, a);
      WordsAdd(k, k);
      NotZeroDoubled(k, a + 1);
      DoubledTwice(Word(k), a);
    }
  }

  lemma DoubledTwice(w: bv64, a: nat)
    ensures Doubled(w, a + 1) == Doubled(Plus(w, w), a)
  {
    hide Plus;
  }

  lemma AtLeastTheFactor(d: nat, p: nat)
    requires d > 0
    ensures d * p >= p
  {
    assert d * p == p + (d - 1) * p;
  }

  lemma HalvedProduct(d: nat, k: nat, a: nat)
    requires d == k + k
    ensures k * Pow2(a + 1) == d * Pow2(a)
  {
    assert k * (2 * Pow2(a)) == (k + k) * Pow2(a);
  }

  /** Distinct indices below two to the sixty-fourth are distinct words. */
  lemma WordsDiffer(i: nat, j: nat)
    requires i < j < TWO64
    ensures Word(i) != Word(j)
  {
    hide Word, Plus, Doubled;
    var d := j - i;
    WordsAdd(i, d);
    OnlyNothingAddsNothing(Word(i), Word(d));
    assert d * Pow2(0) == d;
    NotZeroDoubled(d, 0);
    DoubledNever(Word(d));
  }

  lemma DoubledNever(w: bv64)
    ensures Doubled(w, 0) == w
  {
  }
}
