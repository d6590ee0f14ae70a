/** The sum of two words, as numbers: addition modulo 2^32, digit by digit with a carry. */
module WordNumbers {
  import opened Rfc1321

  // ---------------------------------------------------------------- binary digits

  /** Wide enough for the sum of two words. */
  type Wide = bv33

  function Half(w: Wide): Wide { w >> 1 }
  function Odd(w: Wide): Wide { w & 1 }
  function Sum3(x: Wide, y: Wide, c: Wide): Wide { x + y + c }
  function Join(p: Wide, a: Wide): Wide { p + p + a }
  function Minus(d: Wide, b: Wide, c: Wide): Wide { d - b - c }
  function Low(w: Wide, mask: Wide): Wide { w & mask }

  predicate IsWord(w: Wide) { w < 0x1_0000_0000 }
  predicate IsSmall(w: Wide) { w < 0x8000_0000 }
  predicate IsBit(w: Wide) { w <= 1 }
  predicate IsMask(mask: Wide) { mask & (mask + 1) == 0 }

  function Bit(w: Wide): nat { if w == 0 then 0 else 1 }

  /** The number that the binary digits stand for. */
  function Binary(w: Wide): nat
    decreases w
  {
    if w == 0 then 0 else Bit(Odd(w)) + 2 * Binary(Half(w))
  }

  lemma BinaryUnfolds(w: Wide)
    ensures Binary(w) == Bit(Odd(w)) + 2 * Binary(Half(w))
  {}

  lemma Joins(x: Wide)
    ensures x == Join(Half(x), Odd(x)) && IsBit(Odd(x))
    ensures IsWord(x) ==> IsSmall(Half(x)) && IsWord(Half(x))
  {}

  lemma Splits(m: Wide, f: Wide)
    requires IsWord(m) && IsBit(f)
    ensures Half(Join(m, f)) == m && Odd(Join(m, f)) == f
  {}

  lemma SumIsWord(p: Wide, q: Wide, c: Wide)
    requires IsSmall(p) && IsSmall(q) && IsBit(c)
    ensures IsWord(Sum3(p, q, c))
  {}

  // ---------------------------------------------------------------- one step of the carry

  lemma SumOfRaw(p: Wide, q: Wide, b: Wide, c: Wide, e: Wide, f: Wide)
    ensures Sum3(p + p + (e + e + f - b - c), q + q + b, c) == Join(p + q + e, f)
  {}

  lemma RawJoin(p: Wide, a: Wide)
    ensures Join(p, a) == p + p + a
  {}

  lemma RawJoinMinus(p: Wide, b: Wide, c: Wide, e: Wide, f: Wide)
    ensures Join(p, e + e + f - b - c) == p + p + (e + e + f - b - c)
  {}

  lemma RawSum3(p: Wide, q: Wide, e: Wide)
    ensures Sum3(p, q, e) == p + q + e
  {}

  lemma RawMinus(e: Wide, f: Wide, b: Wide, c: Wide)
    ensures Minus(e + e + f, b, c) == e + e + f - b - c
  {}

  lemma SumMinus(a: Wide, b: Wide, c: Wide)
    ensures Minus(a + b + c, b, c) == a
  {}

  lemma Regroup(p: Wide, q: Wide, a: Wide, b: Wide, c: Wide, e: Wide, f: Wide)
    requires Sum3(a, b, c) == Join(e, f)
    ensures Sum3(Join(p, a), Join(q, b), c) == Join(Sum3(p, q, e), f)
  {
    hide *;
    RawSum3(a, b, c);
    RawJoin(e, f);
    SumMinus(a, b, c);
    RawMinus(e, f, b, c);
    RawJoinMinus(p, b, c, e, f);
    RawJoin(q, b);
    RawSum3(p, q, e);
    SumOfRaw(p, q, b, c, e, f);
  }

  lemma BitsAdd(a: Wide, b: Wide, c: Wide)
    requires IsBit(a) && IsBit(b) && IsBit(c)
    ensures var d := Sum3(a, b, c);
            Bit(a) + Bit(b) + Bit(c) == Bit(Odd(d)) + 2 * Bit(Half(d)) && IsBit(Half(d))
  {}

  /** One step of the carry. */
  lemma CarryStep(x: Wide, y: Wide, c: Wide)
    requires IsWord(x) && IsWord(y) && IsBit(c)
    ensures var d := Sum3(Odd(x), Odd(y), c);
            && Half(Sum3(x, y, c)) == Sum3(Half(x), Half(y), Half(d)) && Odd(Sum3(x, y, c)) == Odd(d)
  {
    hide *;
    var d := Sum3(Odd(x), Odd(y), c);
    Joins(x);
    Joins(y);
    Joins(d);
    BitsAdd(Odd(x), Odd(y), c);
    Regroup(Half(x), Half(y), Odd(x), Odd(y), c, Half(d), Odd(d));
    SumIsWord(Half(x), Half(y), Half(d));
    Splits(Sum3(Half(x), Half(y), Half(d)), Odd(d));
  }

  lemma {:induction false} BinaryAdds(x: Wide, y: Wide, c: Wide)
    requires IsWord(x) && IsWord(y) && IsBit(c)
    ensures Binary(Sum3(x, y, c)) == Binary(x) + Binary(y) + Bit(c)
    decreases Binary(x) + Binary(y)
  {
    hide *;
    if Binary(x) + Binary(y) == 0 {
      ZeroAdds(x, y, c);
    } else {
      BinaryUnfolds(x);
      BinaryUnfolds(y);
      BinaryUnfolds(Sum3(x, y, c));
      CarryStep(x, y, c);
      Joins(x);
      Joins(y);
      BitsAdd(Odd(x), Odd(y), c);
      BinaryAdds(Half(x), Half(y), Half(Sum3(Odd(x), Odd(y), c)));
    }
  }

  lemma ZeroAdds(x: Wide, y: Wide, c: Wide)
    requires Binary(x) == 0 && Binary(y) == 0 && IsBit(c)
    ensures Binary(Sum3(x, y, c)) == Bit(c)
  {
    ZeroIsZero(x);
    ZeroIsZero(y);
    assert Sum3(0, 0, c) == c;
    hide Sum3;
    BinaryUnfolds(c);
    assert Half(c) == 0 && Odd(c) == c;
  }

  lemma {:induction false} ZeroIsZero(x: Wide)
    requires Binary(x) == 0
    ensures x == 0
    decreases x
  {
    if x != 0 {
      BinaryUnfolds(x);
      ZeroIsZero(Half(x));
    }
  }

  // ---------------------------------------------------------------- the low digits

  lemma MaskIsOdd(mask: Wide)
    requires IsMask(mask) && mask != 0
    ensures Odd(mask) == 1 && IsMask(Half(mask)) && Half(mask) < mask
  {}

  lemma LowHalves(w: Wide, mask: Wide)
    requires Odd(mask) == 1
    ensures Half(Low(w, mask)) == Low(Half(w), Half(mask)) && Odd(Low(w, mask)) == Odd(w)
  {}

  lemma HalfIsSmaller(w: Wide)
    requires w != 0
    ensures Half(w) < w
  {}

  lemma {:induction false} BinaryOfLow(w: Wide, mask: Wide)
    requires IsMask(mask)
    ensures Binary(Low(w, mask)) == Binary(w) % (Binary(mask) + 1)
    decreases mask
  {
    if mask == 0 {
      BinaryUnfolds(0);
      assert w & mask == 0;
    } else {
      hide Half, Odd, Low, IsMask, Binary;
      MaskIsOdd(mask);
      LowHalves(w, mask);
      HalfIsSmaller(mask);
      BinaryUnfolds(Low(w, mask));
      BinaryUnfolds(w);
      BinaryUnfolds(mask);
      BinaryOfLow(Half(w), Half(mask));
      Remainder(Binary(Half(w)), Binary(Half(mask)) + 1, Bit(Odd(w)));
    }
  }

  lemma Remainder(a: nat, m: nat, b: nat)
    requires m > 0 && b < 2
    ensures (b + 2 * a) % (2 * m) == b + 2 * (a % m)
  {
    var q, r := a / m, a % m;
    IsRemainder(b + 2 * a, 2 * m, q, b + 2 * r);
  }

  lemma Multiple(d: nat, k: int)
    ensures k >= 1 ==> d * k >= d
    ensures k <= -1 ==> d * k + d <= 0
  {}

  lemma IsRemainder(n: nat, d: nat, q: nat, r: nat)
    requires d > 0 && r < d && n == d * q + r
    ensures n % d == r
  {
    assert n % d == r + d * (q - n / d);
    Multiple(d, q - n / d);
  }

  // ---------------------------------------------------------------- words

  function Value(w: Word): nat {
    Binary(w as Wide)
  }

  lemma LowOfSum(x: Word, y: Word)
    ensures (x + y) as Wide == Low(x as Wide + y as Wide + 0, 0xffffffff)
  {}

  lemma RawSum(x: Word, y: Word)
    ensures Sum3(x as Wide, y as Wide, 0) == x as Wide + y as Wide + 0 && Plus(x, y) == x + y
  {}

  lemma Widens(x: Word, y: Word)
    ensures Plus(x, y) as Wide == Low(Sum3(x as Wide, y as Wide, 0), 0xffffffff)
  {
    hide *;
    LowOfSum(x, y);
    RawSum(x, y);
  }

  lemma WordsFit(x: Word)
    ensures IsWord(x as Wide) && IsMask(0xffffffff) && IsBit(0) && Bit(0) == 0
  {}

  lemma FourOnes(w: Wide)
    requires w & 15 == 15
    ensures Binary(w) == 15 + 16 * Binary(w >> 4)
  {
    FourHalves(w);
    hide Half, Odd, Bit, Binary;
    BinaryUnfolds(w);
    BinaryUnfolds(Half(w));
    BinaryUnfolds(Half(Half(w)));
    BinaryUnfolds(Half(Half(Half(w))));
  }

  lemma FourHalves(w: Wide)
    requires w & 15 == 15
    ensures Half(Half(Half(Half(w)))) == w >> 4
    ensures Odd(w) == Odd(Half(w)) == Odd(Half(Half(w))) == Odd(Half(Half(Half(w)))) == 1 && Bit(1) == 1
  {}

  lemma LargestWord()
    ensures Value(0xffffffff) == TWO_TO_THE_32 - 1
  {
    hide Binary;
    FourOnes(0xffffffff);
    FourOnes(0xfffffff);
    FourOnes(0xffffff);
    FourOnes(0xfffff);
    FourOnes(0xffff);
    FourOnes(0xfff);
    FourOnes(0xff);
    FourOnes(0xf);
    BinaryUnfolds(0);
    NoDigits();
  }

  lemma NoDigits()
    ensures Binary(0) == 0
  {}

  /** Words are added as numbers, modulo 2^32. */
  lemma PlusAdds(x: Word, y: Word)
    ensures Value(Plus(x, y)) == (Value(x) + Value(y)) % TWO_TO_THE_32
  {
    Widens(x, y);
    WordsFit(x);
    WordsFit(y);
    LargestWord();
    hide Binary, Sum3, Low, IsMask, IsWord, IsBit, Plus, Bit;
    BinaryAdds(x as Wide, y as Wide, 0);
    BinaryOfLow(Sum3(x as Wide, y as Wide, 0), 0xffffffff);
  }

  /** Different words stand for different numbers. */
  lemma ValueIsInjective(x: Word, y: Word)
    requires Value(x) == Value(y)
    ensures x == y
  {
    hide Binary;
    BinaryIsInjective(x as Wide, y as Wide);
    Narrows(x);
    Narrows(y);
  }

  lemma Narrows(x: Word)
    ensures (x as Wide) as Word == x
  {}

  lemma {:induction false} BinaryIsInjective(x: Wide, y: Wide)
    requires Binary(x) == Binary(y)
    ensures x == y
    decreases Binary(x)
  {
    if Binary(x) == 0 {
      ZeroIsZero(x);
      ZeroIsZero(y);
    } else {
      DigitsAgree(x, y);
      hide *;
      BinaryIsInjective(Half(x), Half(y));
      Joins(x);
      Joins(y);
    }
  }

  lemma DigitsAgree(x: Wide, y: Wide)
    requires Binary(x) == Binary(y) > 0
    ensures Odd(x) == Odd(y) && Binary(Half(x)) == Binary(Half(y)) < Binary(x)
  {
    hide Half, Binary;
    BinaryUnfolds(x);
    BinaryUnfolds(y);
    OddIsBit(x);
    OddIsBit(y);
  }

  lemma OddIsBit(x: Wide)
    ensures Odd(x) == 0 || Odd(x) == 1
  {}
}
