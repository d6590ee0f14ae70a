/**
 The macros of the compression function and its sixty-four unrolled steps, and the proof
 that they are the indexed loop of section 3.4 of RFC 1321.
 */
module Md5Steps {
  import opened Rfc1321

  // ---------------------------------------------------------------- F, G, H, H2, I

  lemma SelectByX(x: Word, y: Word, z: Word)
    ensures z ^ (x & (y ^ z)) == (x & y) | (!x & z)
  {}

  lemma SelectByZ(x: Word, y: Word, z: Word)
    ensures y ^ (z & (x ^ y)) == (x & z) | (y & !z)
  {}

  function FastF(x: Word, y: Word, z: Word): (r: Word)
    ensures r == F(x, y, z)
  {
    SelectByX(x, y, z);
    z ^ (x & (y ^ z))
  }

  function FastG(x: Word, y: Word, z: Word): (r: Word)
    ensures r == G(x, y, z)
  {
    SelectByZ(x, y, z);
    y ^ (z & (x ^ y))
  }

  function FastH(x: Word, y: Word, z: Word): (r: Word)
    ensures r == H(x, y, z)
  {
    (x ^ y) ^ z
  }

  function FastH2(x: Word, y: Word, z: Word): (r: Word)
    ensures r == H(x, y, z)
  {
    x ^ (y ^ z)
  }

  function FastI(x: Word, y: Word, z: Word): (r: Word)
    ensures r == I(x, y, z)
  {
    y ^ (x | !z)
  }

  // ---------------------------------------------------------------- STEP

  /** The second line of STEP. */
  function ShiftPair(v: Word, k: nat): Word
    requires k < 32
  {
    (v << k) | ((v & 0xffffffff) >> (32 - k))
  }

  /** The sixteen rotation amounts of the four rounds. */
  const AMOUNTS := {4, 5, 6, 7, 9, 10, 11, 12, 14, 15, 16, 17, 20, 21, 22, 23}

  lemma RotationsLow(v: Word)
    ensures ShiftPair(v, 4) == Rotl(v, 4)
    ensures ShiftPair(v, 5) == Rotl(v, 5)
    ensures ShiftPair(v, 6) == Rotl(v, 6)
    ensures ShiftPair(v, 7) == Rotl(v, 7)
  {}

  lemma RotationsMiddle(v: Word)
    ensures ShiftPair(v, 9) == Rotl(v, 9)
    ensures ShiftPair(v, 10) == Rotl(v, 10)
    ensures ShiftPair(v, 11) == Rotl(v, 11)
    ensures ShiftPair(v, 12) == Rotl(v, 12)
  {}

  lemma RotationsHigh(v: Word)
    ensures ShiftPair(v, 14) == Rotl(v, 14)
    ensures ShiftPair(v, 15) == Rotl(v, 15)
    ensures ShiftPair(v, 16) == Rotl(v, 16)
    ensures ShiftPair(v, 17) == Rotl(v, 17)
  {}

  lemma RotationsHighest(v: Word)
    ensures ShiftPair(v, 20) == Rotl(v, 20)
    ensures ShiftPair(v, 21) == Rotl(v, 21)
    ensures ShiftPair(v, 22) == Rotl(v, 22)
    ensures ShiftPair(v, 23) == Rotl(v, 23)
  {}

  /** Two shifts joined by `|` rotate, for every amount that is used. */
  lemma ShiftPairRotates(v: Word, k: nat)
    requires k in AMOUNTS
    ensures ShiftPair(v, k) == Rotl(v, k)
  {
    hide ShiftPair, Rotl;
    RotationsLow(v);
    RotationsMiddle(v);
    RotationsHigh(v);
    RotationsHighest(v);
  }

  lemma ShiftInAmounts(i: nat)
    requires i < 64
    ensures Shift(i) in AMOUNTS
  {}

  /** The first line of STEP; its sum is associated differently from the standard's. */
  function Accumulate(a: Word, f: Word, w: Word, t: Word): (r: Word)
    ensures r == Sum(a, f, w, t)
  {
    a + (f + w + t)
  }

  lemma PlusCommutes(x: Word, y: Word)
    ensures Plus(x, y) == Plus(y, x)
  {}

  /** After `i` operations on the words `x`, started from `s`, the registers are `a`, `b`, `c`, `d`. */
  ghost predicate At(i: nat, s: Chain, x: seq<Word>, a: Word, b: Word, c: Word, d: Word) {
    i <= 64 && |x| == 16 && Operations(i, s, x) == Chain(a, b, c, d)
  }

  /** The three lines of STEP. */
  function Step(f: Word, a: Word, b: Word, w: Word, t: Word, k: nat): Word
    requires k < 32
  {
    Plus(ShiftPair(Accumulate(a, f, w, t), k), b)
  }

  lemma StepIsOperation(f: Word, a: Word, b: Word, c: Word, d: Word, w: Word, t: Word, k: nat, i: nat, s: Chain,
                        x: seq<Word>)
    requires At(i, s, x, a, b, c, d) && Line(i, WordIndex(i), t, k)
    requires f == Auxiliary(i, b, c, d) && w == x[WordIndex(i)]
    ensures At(i + 1, s, x, d, Step(f, a, b, w, t, k), b, c)
  {
    ShiftInAmounts(i);
    hide Auxiliary, WordIndex, T, Shift, Sum, Rotl, Plus, ShiftPair, Accumulate;
    var v := Accumulate(a, f, w, t);
    ShiftPairRotates(v, k);
    PlusCommutes(ShiftPair(v, k), b);
  }

  // ---------------------------------------------------------------- SET

  /** Four bytes as SET joins them. */
  function Join(b0: Byte, b1: Byte, b2: Byte, b3: Byte): (w: Word)
    ensures w == LittleEndian(b0, b1, b2, b3)
  {
    (b0 as Word) | (b1 as Word << 8) | (b2 as Word << 16) | (b3 as Word << 24)
  }

  /** The first `n` words of `x` are in the cache. */
  ghost predicate Cached(block: array<Word>, x: seq<Word>, n: nat)
    reads block
  {
    block.Length == |x| == 16 && n <= 16 && block[..n] == x[..n]
  }

  lemma CacheStartsEmpty(block: array<Word>, x: seq<Word>)
    requires block.Length == |x| == 16
    ensures Cached(block, x, 0)
  {}

  /** SET(n): reads word `n` at `ptr` and leaves it in the cache for later rounds. */
  method Set(block: array<Word>, ptr: seq<Byte>, n: nat) returns (w: Word)
    requires |ptr| == 64 && n < 16 && Cached(block, Words(ptr), n)
    modifies block
    ensures w == Words(ptr)[n] && Cached(block, Words(ptr), n + 1)
  {
    hide LittleEndian, Join;
    w := Join(ptr[n * 4], ptr[n * 4 + 1], ptr[n * 4 + 2], ptr[n * 4 + 3]);
    block[n] := w;
  }

  /** GET(n): word `n`, from the cache. */
  function Get(block: array<Word>, n: nat, ghost x: seq<Word>): (w: Word)
    requires n < 16 && Cached(block, x, 16)
    reads block
    ensures w == x[n]
  {
    assert x[n] == x[..16][n];
    block[n]
  }

  // ---------------------------------------------------------------- the table of operations

  /** Line `i` of the table in section 3.4 reads word `n`, adds `t` and rotates by `k`. */
  ghost predicate Line(i: nat, n: nat, t: Word, k: nat) {
    i < 64 && n < 16 && k < 32 && WordIndex(i) == n && T(i) == t && Shift(i) == k
  }

  /** The additive constants, eight at a time. */
  lemma Constants0()
    ensures T(0) == 0xd76aa478 && T(1) == 0xe8c7b756 && T(2) == 0x242070db && T(3) == 0xc1bdceee
    ensures T(4) == 0xf57c0faf && T(5) == 0x4787c62a && T(6) == 0xa8304613 && T(7) == 0xfd469501
  {}

  lemma Constants8()
    ensures T(8) == 0x698098d8 && T(9) == 0x8b44f7af && T(10) == 0xffff5bb1 && T(11) == 0x895cd7be
    ensures T(12) == 0x6b901122 && T(13) == 0xfd987193 && T(14) == 0xa679438e && T(15) == 0x49b40821
  {}

  lemma Constants16()
    ensures T(16) == 0xf61e2562 && T(17) == 0xc040b340 && T(18) == 0x265e5a51 && T(19) == 0xe9b6c7aa
    ensures T(20) == 0xd62f105d && T(21) == 0x02441453 && T(22) == 0xd8a1e681 && T(23) == 0xe7d3fbc8
  {}

  lemma Constants24()
    ensures T(24) == 0x21e1cde6 && T(25) == 0xc33707d6 && T(26) == 0xf4d50d87 && T(27) == 0x455a14ed
    ensures T(28) == 0xa9e3e905 && T(29) == 0xfcefa3f8 && T(30) == 0x676f02d9 && T(31) == 0x8d2a4c8a
  {}

  lemma Constants32()
    ensures T(32) == 0xfffa3942 && T(33) == 0x8771f681 && T(34) == 0x6d9d6122 && T(35) == 0xfde5380c
    ensures T(36) == 0xa4beea44 && T(37) == 0x4bdecfa9 && T(38) == 0xf6bb4b60 && T(39) == 0xbebfbc70
  {}

  lemma Constants40()
    ensures T(40) == 0x289b7ec6 && T(41) == 0xeaa127fa && T(42) == 0xd4ef3085 && T(43) == 0x04881d05
    ensures T(44) == 0xd9d4d039 && T(45) == 0xe6db99e5 && T(46) == 0x1fa27cf8 && T(47) == 0xc4ac5665
  {}

  lemma Constants48()
    ensures T(48) == 0xf4292244 && T(49) == 0x432aff97 && T(50) == 0xab9423a7 && T(51) == 0xfc93a039
    ensures T(52) == 0x655b59c3 && T(53) == 0x8f0ccc92 && T(54) == 0xffeff47d && T(55) == 0x85845dd1
  {}

  lemma Constants56()
    ensures T(56) == 0x6fa87e4f && T(57) == 0xfe2ce6e0 && T(58) == 0xa3014314 && T(59) == 0x4e0811a1
    ensures T(60) == 0xf7537e82 && T(61) == 0xbd3af235 && T(62) == 0x2ad7d2bb && T(63) == 0xeb86d391
  {}

  lemma Table1()
    ensures Line(0, 0, 0xd76aa478, 7)
    ensures Line(1, 1, 0xe8c7b756, 12)
    ensures Line(2, 2, 0x242070db, 17)
    ensures Line(3, 3, 0xc1bdceee, 22)
    ensures Line(4, 4, 0xf57c0faf, 7)
    ensures Line(5, 5, 0x4787c62a, 12)
    ensures Line(6, 6, 0xa8304613, 17)
    ensures Line(7, 7, 0xfd469501, 22)
    ensures Line(8, 8, 0x698098d8, 7)
    ensures Line(9, 9, 0x8b44f7af, 12)
    ensures Line(10, 10, 0xffff5bb1, 17)
    ensures Line(11, 11, 0x895cd7be, 22)
    ensures Line(12, 12, 0x6b901122, 7)
    ensures Line(13, 13, 0xfd987193, 12)
    ensures Line(14, 14, 0xa679438e, 17)
    ensures Line(15, 15, 0x49b40821, 22)
  {
    Constants0();
    Constants8();
    hide T;
  }

  lemma Table2()
    ensures Line(16, 1, 0xf61e2562, 5)
    ensures Line(17, 6, 0xc040b340, 9)
    ensures Line(18, 11, 0x265e5a51, 14)
    ensures Line(19, 0, 0xe9b6c7aa, 20)
    ensures Line(20, 5, 0xd62f105d, 5)
    ensures Line(21, 10, 0x02441453, 9)
    ensures Line(22, 15, 0xd8a1e681, 14)
    ensures Line(23, 4, 0xe7d3fbc8, 20)
    ensures Line(24, 9, 0x21e1cde6, 5)
    ensures Line(25, 14, 0xc33707d6, 9)
    ensures Line(26, 3, 0xf4d50d87, 14)
    ensures Line(27, 8, 0x455a14ed, 20)
    ensures Line(28, 13, 0xa9e3e905, 5)
    ensures Line(29, 2, 0xfcefa3f8, 9)
    ensures Line(30, 7, 0x676f02d9, 14)
    ensures Line(31, 12, 0x8d2a4c8a, 20)
  {
    Constants16();
    Constants24();
    hide T;
  }

  lemma Table3()
    ensures Line(32, 5, 0xfffa3942, 4)
    ensures Line(33, 8, 0x8771f681, 11)
    ensures Line(34, 11, 0x6d9d6122, 16)
    ensures Line(35, 14, 0xfde5380c, 23)
    ensures Line(36, 1, 0xa4beea44, 4)
    ensures Line(37, 4, 0x4bdecfa9, 11)
    ensures Line(38, 7, 0xf6bb4b60, 16)
    ensures Line(39, 10, 0xbebfbc70, 23)
    ensures Line(40, 13, 0x289b7ec6, 4)
    ensures Line(41, 0, 0xeaa127fa, 11)
    ensures Line(42, 3, 0xd4ef3085, 16)
    ensures Line(43, 6, 0x04881d05, 23)
    ensures Line(44, 9, 0xd9d4d039, 4)
    ensures Line(45, 12, 0xe6db99e5, 11)
    ensures Line(46, 15, 0x1fa27cf8, 16)
    ensures Line(47, 2, 0xc4ac5665, 23)
  {
    Constants32();
    Constants40();
    hide T;
  }

  lemma Table4()
    ensures Line(48, 0, 0xf4292244, 6)
    ensures Line(49, 7, 0x432aff97, 10)
    ensures Line(50, 14, 0xab9423a7, 15)
    ensures Line(51, 5, 0xfc93a039, 21)
    ensures Line(52, 12, 0x655b59c3, 6)
    ensures Line(53, 3, 0x8f0ccc92, 10)
    ensures Line(54, 10, 0xffeff47d, 15)
    ensures Line(55, 1, 0x85845dd1, 21)
    ensures Line(56, 8, 0x6fa87e4f, 6)
    ensures Line(57, 15, 0xfe2ce6e0, 10)
    ensures Line(58, 6, 0xa3014314, 15)
    ensures Line(59, 13, 0x4e0811a1, 21)
    ensures Line(60, 4, 0xf7537e82, 6)
    ensures Line(61, 11, 0xbd3af235, 10)
    ensures Line(62, 2, 0x2ad7d2bb, 15)
    ensures Line(63, 9, 0xeb86d391, 21)
  {
    Constants48();
    Constants56();
    hide T;
  }

  // ---------------------------------------------------------------- the unrolled rounds

  function StepF(a: Word, b: Word, c: Word, d: Word, w: Word, t: Word, k: nat, ghost i: nat, ghost n: nat,
                 ghost s: Chain, ghost x: seq<Word>): (r: Word)
    requires 0 <= i < 16 && n < 16 && At(i, s, x, a, b, c, d) && w == x[n] && Line(i, n, t, k)
    ensures At(i + 1, s, x, d, r, b, c)
  {
    StepIsOperation(FastF(b, c, d), a, b, c, d, w, t, k, i, s, x);
    Step(FastF(b, c, d), a, b, w, t, k)
  }

  function StepG(a: Word, b: Word, c: Word, d: Word, w: Word, t: Word, k: nat, ghost i: nat, ghost n: nat,
                 ghost s: Chain, ghost x: seq<Word>): (r: Word)
    requires 16 <= i < 32 && n < 16 && At(i, s, x, a, b, c, d) && w == x[n] && Line(i, n, t, k)
    ensures At(i + 1, s, x, d, r, b, c)
  {
    StepIsOperation(FastG(b, c, d), a, b, c, d, w, t, k, i, s, x);
    Step(FastG(b, c, d), a, b, w, t, k)
  }

  function StepH(a: Word, b: Word, c: Word, d: Word, w: Word, t: Word, k: nat, ghost i: nat, ghost n: nat,
                 ghost s: Chain, ghost x: seq<Word>): (r: Word)
    requires 32 <= i < 48 && n < 16 && At(i, s, x, a, b, c, d) && w == x[n] && Line(i, n, t, k)
    ensures At(i + 1, s, x, d, r, b, c)
  {
    StepIsOperation(FastH(b, c, d), a, b, c, d, w, t, k, i, s, x);
    Step(FastH(b, c, d), a, b, w, t, k)
  }

  function StepH2(a: Word, b: Word, c: Word, d: Word, w: Word, t: Word, k: nat, ghost i: nat, ghost n: nat,
                  ghost s: Chain, ghost x: seq<Word>): (r: Word)
    requires 32 <= i < 48 && n < 16 && At(i, s, x, a, b, c, d) && w == x[n] && Line(i, n, t, k)
    ensures At(i + 1, s, x, d, r, b, c)
  {
    StepIsOperation(FastH2(b, c, d), a, b, c, d, w, t, k, i, s, x);
    Step(FastH2(b, c, d), a, b, w, t, k)
  }

  function StepI(a: Word, b: Word, c: Word, d: Word, w: Word, t: Word, k: nat, ghost i: nat, ghost n: nat,
                 ghost s: Chain, ghost x: seq<Word>): (r: Word)
    requires 48 <= i < 64 && n < 16 && At(i, s, x, a, b, c, d) && w == x[n] && Line(i, n, t, k)
    ensures At(i + 1, s, x, d, r, b, c)
  {
    StepIsOperation(FastI(b, c, d), a, b, c, d, w, t, k, i, s, x);
    Step(FastI(b, c, d), a, b, w, t, k)
  }

  lemma Start(a: Word, b: Word, c: Word, d: Word, x: seq<Word>)
    requires |x| == 16
    ensures At(0, Chain(a, b, c, d), x, a, b, c, d)
  {}

  /** Operations 0 to 15; each reads its word with SET, so the cache is complete at the end. */
  method Round1(block: array<Word>, ptr: seq<Byte>, a0: Word, b0: Word, c0: Word, d0: Word)
    returns (a: Word, b: Word, c: Word, d: Word)
    requires block.Length == 16 && |ptr| == 64
    modifies block
    ensures Cached(block, Words(ptr), 16)
    ensures At(16, Chain(a0, b0, c0, d0), Words(ptr), a, b, c, d)
  {
    hide *;
    Table1();
    var w: Word;
    ghost var s, x := Chain(a0, b0, c0, d0), Words(ptr);
    a, b, c, d := a0, b0, c0, d0;
    Start(a, b, c, d, x);
    CacheStartsEmpty(block, x);
    w := Set(block, ptr, 0);
    a := StepF(a, b, c, d, w, 0xd76aa478, 7, 0, 0, s, x);
    w := Set(block, ptr, 1);
    d := StepF(d, a, b, c, w, 0xe8c7b756, 12, 1, 1, s, x);
    w := Set(block, ptr, 2);
    c := StepF(c, d, a, b, w, 0x242070db, 17, 2, 2, s, x);
    w := Set(block, ptr, 3);
    b := StepF(b, c, d, a, w, 0xc1bdceee, 22, 3, 3, s, x);
    w := Set(block, ptr, 4);
    a := StepF(a, b, c, d, w, 0xf57c0faf, 7, 4, 4, s, x);
    w := Set(block, ptr, 5);
    d := StepF(d, a, b, c, w, 0x4787c62a, 12, 5, 5, s, x);
    w := Set(block, ptr, 6);
    c := StepF(c, d, a, b, w, 0xa8304613, 17, 6, 6, s, x);
    w := Set(block, ptr, 7);
    b := StepF(b, c, d, a, w, 0xfd469501, 22, 7, 7, s, x);
    w := Set(block, ptr, 8);
    a := StepF(a, b, c, d, w, 0x698098d8, 7, 8, 8, s, x);
    w := Set(block, ptr, 9);
    d := StepF(d, a, b, c, w, 0x8b44f7af, 12, 9, 9, s, x);
    w := Set(block, ptr, 10);
    c := StepF(c, d, a, b, w, 0xffff5bb1, 17, 10, 10, s, x);
    w := Set(block, ptr, 11);
    b := StepF(b, c, d, a, w, 0x895cd7be, 22, 11, 11, s, x);
    w := Set(block, ptr, 12);
    a := StepF(a, b, c, d, w, 0x6b901122, 7, 12, 12, s, x);
    w := Set(block, ptr, 13);
    d := StepF(d, a, b, c, w, 0xfd987193, 12, 13, 13, s, x);
    w := Set(block, ptr, 14);
    c := StepF(c, d, a, b, w, 0xa679438e, 17, 14, 14, s, x);
    w := Set(block, ptr, 15);
    b := StepF(b, c, d, a, w, 0x49b40821, 22, 15, 15, s, x);
  }

  /** Operations 16 to 31, on cached words. */
  method Round2(block: array<Word>, a0: Word, b0: Word, c0: Word, d0: Word, ghost s: Chain, ghost x: seq<Word>)
    returns (a: Word, b: Word, c: Word, d: Word)
    requires Cached(block, x, 16) && At(16, s, x, a0, b0, c0, d0)
    ensures At(32, s, x, a, b, c, d)
  {
    hide *;
    Table2();
    a, b, c, d := a0, b0, c0, d0;
    a := StepG(a, b, c, d, Get(block, 1, x), 0xf61e2562, 5, 16, 1, s, x);
    d := StepG(d, a, b, c, Get(block, 6, x), 0xc040b340, 9, 17, 6, s, x);
    c := StepG(c, d, a, b, Get(block, 11, x), 0x265e5a51, 14, 18, 11, s, x);
    b := StepG(b, c, d, a, Get(block, 0, x), 0xe9b6c7aa, 20, 19, 0, s, x);
    a := StepG(a, b, c, d, Get(block, 5, x), 0xd62f105d, 5, 20, 5, s, x);
    d := StepG(d, a, b, c, Get(block, 10, x), 0x02441453, 9, 21, 10, s, x);
    c := StepG(c, d, a, b, Get(block, 15, x), 0xd8a1e681, 14, 22, 15, s, x);
    b := StepG(b, c, d, a, Get(block, 4, x), 0xe7d3fbc8, 20, 23, 4, s, x);
    a := StepG(a, b, c, d, Get(block, 9, x), 0x21e1cde6, 5, 24, 9, s, x);
    d := StepG(d, a, b, c, Get(block, 14, x), 0xc33707d6, 9, 25, 14, s, x);
    c := StepG(c, d, a, b, Get(block, 3, x), 0xf4d50d87, 14, 26, 3, s, x);
    b := StepG(b, c, d, a, Get(block, 8, x), 0x455a14ed, 20, 27, 8, s, x);
    a := StepG(a, b, c, d, Get(block, 13, x), 0xa9e3e905, 5, 28, 13, s, x);
    d := StepG(d, a, b, c, Get(block, 2, x), 0xfcefa3f8, 9, 29, 2, s, x);
    c := StepG(c, d, a, b, Get(block, 7, x), 0x676f02d9, 14, 30, 7, s, x);
    b := StepG(b, c, d, a, Get(block, 12, x), 0x8d2a4c8a, 20, 31, 12, s, x);
  }

  /** Operations 32 to 47, on cached words. */
  method Round3(block: array<Word>, a0: Word, b0: Word, c0: Word, d0: Word, ghost s: Chain, ghost x: seq<Word>)
    returns (a: Word, b: Word, c: Word, d: Word)
    requires Cached(block, x, 16) && At(32, s, x, a0, b0, c0, d0)
    ensures At(48, s, x, a, b, c, d)
  {
    hide *;
    Table3();
    a, b, c, d := a0, b0, c0, d0;
    a := StepH(a, b, c, d, Get(block, 5, x), 0xfffa3942, 4, 32, 5, s, x);
    d := StepH2(d, a, b, c, Get(block, 8, x), 0x8771f681, 11, 33, 8, s, x);
    c := StepH(c, d, a, b, Get(block, 11, x), 0x6d9d6122, 16, 34, 11, s, x);
    b := StepH2(b, c, d, a, Get(block, 14, x), 0xfde5380c, 23, 35, 14, s, x);
    a := StepH(a, b, c, d, Get(block, 1, x), 0xa4beea44, 4, 36, 1, s, x);
    d := StepH2(d, a, b, c, Get(block, 4, x), 0x4bdecfa9, 11, 37, 4, s, x);
    c := StepH(c, d, a, b, Get(block, 7, x), 0xf6bb4b60, 16, 38, 7, s, x);
    b := StepH2(b, c, d, a, Get(block, 10, x), 0xbebfbc70, 23, 39, 10, s, x);
    a := StepH(a, b, c, d, Get(block, 13, x), 0x289b7ec6, 4, 40, 13, s, x);
    d := StepH2(d, a, b, c, Get(block, 0, x), 0xeaa127fa, 11, 41, 0, s, x);
    c := StepH(c, d, a, b, Get(block, 3, x), 0xd4ef3085, 16, 42, 3, s, x);
    b := StepH2(b, c, d, a, Get(block, 6, x), 0x04881d05, 23, 43, 6, s, x);
    a := StepH(a, b, c, d, Get(block, 9, x), 0xd9d4d039, 4, 44, 9, s, x);
    d := StepH2(d, a, b, c, Get(block, 12, x), 0xe6db99e5, 11, 45, 12, s, x);
    c := StepH(c, d, a, b, Get(block, 15, x), 0x1fa27cf8, 16, 46, 15, s, x);
    b := StepH2(b, c, d, a, Get(block, 2, x), 0xc4ac5665, 23, 47, 2, s, x);
  }

  /** Operations 48 to 63, on cached words. */
  method Round4(block: array<Word>, a0: Word, b0: Word, c0: Word, d0: Word, ghost s: Chain, ghost x: seq<Word>)
    returns (a: Word, b: Word, c: Word, d: Word)
    requires Cached(block, x, 16) && At(48, s, x, a0, b0, c0, d0)
    ensures At(64, s, x, a, b, c, d)
  {
    hide *;
    Table4();
    a, b, c, d := a0, b0, c0, d0;
    a := StepI(a, b, c, d, Get(block, 0, x), 0xf4292244, 6, 48, 0, s, x);
    d := StepI(d, a, b, c, Get(block, 7, x), 0x432aff97, 10, 49, 7, s, x);
    c := StepI(c, d, a, b, Get(block, 14, x), 0xab9423a7, 15, 50, 14, s, x);
    b := StepI(b, c, d, a, Get(block, 5, x), 0xfc93a039, 21, 51, 5, s, x);
    a := StepI(a, b, c, d, Get(block, 12, x), 0x655b59c3, 6, 52, 12, s, x);
    d := StepI(d, a, b, c, Get(block, 3, x), 0x8f0ccc92, 10, 53, 3, s, x);
    c := StepI(c, d, a, b, Get(block, 10, x), 0xffeff47d, 15, 54, 10, s, x);
    b := StepI(b, c, d, a, Get(block, 1, x), 0x85845dd1, 21, 55, 1, s, x);
    a := StepI(a, b, c, d, Get(block, 8, x), 0x6fa87e4f, 6, 56, 8, s, x);
    d := StepI(d, a, b, c, Get(block, 15, x), 0xfe2ce6e0, 10, 57, 15, s, x);
    c := StepI(c, d, a, b, Get(block, 6, x), 0xa3014314, 15, 58, 6, s, x);
    b := StepI(b, c, d, a, Get(block, 13, x), 0x4e0811a1, 21, 59, 13, s, x);
    a := StepI(a, b, c, d, Get(block, 4, x), 0xf7537e82, 6, 60, 4, s, x);
    d := StepI(d, a, b, c, Get(block, 11, x), 0xbd3af235, 10, 61, 11, s, x);
    c := StepI(c, d, a, b, Get(block, 2, x), 0x2ad7d2bb, 15, 62, 2, s, x);
    b := StepI(b, c, d, a, Get(block, 9, x), 0xeb86d391, 21, 63, 9, s, x);
  }
}
