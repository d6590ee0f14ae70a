/**
 The digests of section A.5 of RFC 1321 for the empty message and for "abc", worked out operation by
 operation, so that the definitions that the code shares with the standard are the standard's.
 */
module Md5Vectors {
  import opened Rfc1321
  import opened Md5Facts
  import opened Md5Steps

  /** The four bytes of a word form it again. */
  lemma BytesFormWord(w: Word)
    ensures LittleEndian(Byte0(w), Byte1(w), Byte2(w), Byte3(w)) == w
  {}

  // ---------------------------------------------------------------- the four rounds

  lemma RoundF(s: Chain, x: seq<Word>)
    requires |x| == 16
    ensures forall n | 0 < n <= 16 ::
              var t := Operations(n - 1, s, x);
              var v := Register(F(t.b, t.c, t.d), t.a, t.b, x[WordIndex(n - 1)], T(n - 1), Shift(n - 1));
              Operations(n, s, x) == Chain(t.d, v, t.b, t.c)
  {
    hide T, Shift, WordIndex, Register, F;
  }

  lemma RoundG(s: Chain, x: seq<Word>)
    requires |x| == 16
    ensures forall n | 16 < n <= 32 ::
              var t := Operations(n - 1, s, x);
              var v := Register(G(t.b, t.c, t.d), t.a, t.b, x[WordIndex(n - 1)], T(n - 1), Shift(n - 1));
              Operations(n, s, x) == Chain(t.d, v, t.b, t.c)
  {
    hide T, Shift, WordIndex, Register, G;
  }

  lemma RoundH(s: Chain, x: seq<Word>)
    requires |x| == 16
    ensures forall n | 32 < n <= 48 ::
              var t := Operations(n - 1, s, x);
              var v := Register(H(t.b, t.c, t.d), t.a, t.b, x[WordIndex(n - 1)], T(n - 1), Shift(n - 1));
              Operations(n, s, x) == Chain(t.d, v, t.b, t.c)
  {
    hide T, Shift, WordIndex, Register, H;
  }

  lemma RoundI(s: Chain, x: seq<Word>)
    requires |x| == 16
    ensures forall n | 48 < n <= 64 ::
              var t := Operations(n - 1, s, x);
              var v := Register(I(t.b, t.c, t.d), t.a, t.b, x[WordIndex(n - 1)], T(n - 1), Shift(n - 1));
              Operations(n, s, x) == Chain(t.d, v, t.b, t.c)
  {
    hide T, Shift, WordIndex, Register, I;
  }

  lemma NoOperations(s: Chain, x: seq<Word>)
    requires |x| == 16
    ensures Operations(0, s, x) == s
  {}

  // ---------------------------------------------------------------- messages of one block

  /** The words of a padded message of at most three bytes. */
  ghost predicate IsShort(x: seq<Word>, first: Word, bits: Word) {
    |x| == 16 && x[0] == first && x[14] == bits && forall n | 0 < n < 16 && n != 14 :: x[n] == 0
  }

  lemma OneBlock(m: seq<Byte>)
    requires |Pad(m)| == 64
    ensures Digest(m) == Output(PlusEach(Operations(64, IV, Words(Pad(m))), IV))
  {
    hide Operations, PlusEach, Output, Words, Pad, Compress, Absorb;
    AbsorbBlock(IV, Pad(m));
    CompressUnfolds(IV, Pad(m));
  }

  lemma CompressUnfolds(s: Chain, block: seq<Byte>)
    requires |block| == 64
    ensures Compress(s, block) == PlusEach(Operations(64, s, Words(block)), s)
  {
    hide Operations, PlusEach, Words;
  }

  lemma SameByte(x: Byte, y: Byte)
    requires ByteValue(x) == ByteValue(y)
    ensures x == y
  {
    assert (x as nat) as Byte == x && (y as nat) as Byte == y;
  }

  lemma LowBytes()
    ensures LowByte(0) == 0 && LowByte(24) == 24
  {
    hide LowByte;
    LowByteValue(0);
    LowByteValue(24);
    SameByte(LowByte(0), 0);
    SameByte(LowByte(24), 24);
  }

  lemma {:induction false} LowFirstOfZero(k: nat)
    ensures LowFirst(0, k) == Zeros(k)
  {
    hide LowByte;
    LowBytes();
    if k > 0 {
      LowFirstOfZero(k - 1);
    }
  }

  lemma LengthOfShort()
    ensures LengthBytes(0) == Zeros(8) && LengthBytes(3) == [24] + Zeros(7)
  {
    hide LowByte, LowFirst, Zeros;
    LowBytes();
    LowFirstOfZero(8);
    LowFirstOfZero(7);
    LowFirstStarts(24, 8);
  }

  lemma LowFirstStarts(v: nat, k: nat)
    requires k > 0
    ensures LowFirst(v, k) == [LowByte(v)] + LowFirst(v / 256, k - 1)
  {}

  /** The words of a block that is zero but for its first four bytes and byte 56. */
  lemma ShortWords(block: seq<Byte>, b0: Byte, b1: Byte, b2: Byte, b3: Byte, length: Byte)
    requires block == [b0, b1, b2, b3] + Zeros(52) + [length] + Zeros(7)
    ensures |block| == 64 && IsShort(Words(block), LittleEndian(b0, b1, b2, b3), LittleEndian(length, 0, 0, 0))
  {
    NoBytes();
    hide LittleEndian;
  }

  lemma NoBytes()
    ensures LittleEndian(0, 0, 0, 0) == 0
  {}

  lemma FirstWords()
    ensures LittleEndian(0x80, 0, 0, 0) == 0x80 && LittleEndian(0x61, 0x62, 0x63, 0x80) == 0x80636261
    ensures LittleEndian(24, 0, 0, 0) == 24 && LittleEndian(0, 0, 0, 0) == 0
  {}

  lemma PadOfShort(m: seq<Byte>)
    requires |m| <= 3
    ensures Pad(m) == m + [0x80] + Zeros(55 - |m|) + LengthBytes(|m|)
  {
    hide LengthBytes, Zeros;
  }

  lemma EmptyWords()
    ensures |Pad([])| == 64 && IsShort(Words(Pad([])), 0x80, 0)
  {
    FirstWords();
    LengthOfShort();
    PadOfShort([]);
    hide LengthBytes, LittleEndian, Words, Pad;
    assert [] + [0x80] + Zeros(55) + Zeros(8) == [0x80, 0, 0, 0] + Zeros(52) + [0] + Zeros(7);
    ShortWords(Pad([]), 0x80, 0, 0, 0, 0);
  }

  lemma AbcWords()
    ensures |Pad([0x61, 0x62, 0x63])| == 64 && IsShort(Words(Pad([0x61, 0x62, 0x63])), 0x80636261, 24)
  {
    FirstWords();
    LengthOfShort();
    PadOfShort([0x61, 0x62, 0x63]);
    hide LengthBytes, LittleEndian, Words, Pad;
    assert [0x61, 0x62, 0x63] + [0x80] + Zeros(52) + ([24] + Zeros(7))
        == [0x61, 0x62, 0x63, 0x80] + Zeros(52) + [24] + Zeros(7);
    ShortWords(Pad([0x61, 0x62, 0x63]), 0x61, 0x62, 0x63, 0x80, 24);
  }

  // ---------------------------------------------------------------- the empty message

  /** The sums of round 1 on the empty message. */
  lemma EmptySums1()
    ensures Register(F(0xefcdab89, 0x98badcfe, 0x10325476), 0x67452301, 0xefcdab89, 0x80, 0xd76aa478, 7) == 0xa5202774
    ensures Register(F(0xa5202774, 0xefcdab89, 0x98badcfe), 0x10325476, 0xa5202774, 0x0, 0xe8c7b756, 12) == 0xf59592dd
    ensures Register(F(0xf59592dd, 0xa5202774, 0xefcdab89), 0x98badcfe, 0xf59592dd, 0x0, 0x242070db, 17) == 0xe7f06b23
    ensures Register(F(0xe7f06b23, 0xf59592dd, 0xa5202774), 0xefcdab89, 0xe7f06b23, 0x0, 0xc1bdceee, 22) == 0x1b163203
    ensures Register(F(0x1b163203, 0xe7f06b23, 0xf59592dd), 0xa5202774, 0x1b163203, 0x0, 0xf57c0faf, 7) == 0x32033344
    ensures Register(F(0x32033344, 0x1b163203, 0xe7f06b23), 0xf59592dd, 0x32033344, 0x0, 0x4787c62a, 12) == 0x2f35d494
    ensures Register(F(0x2f35d494, 0x32033344, 0x1b163203), 0xe7f06b23, 0x2f35d494, 0x0, 0xa8304613, 17) == 0xf5b158db
    ensures Register(F(0xf5b158db, 0x2f35d494, 0x32033344), 0x1b163203, 0xf5b158db, 0x0, 0xfd469501, 22) == 0x9bc13ce9
    ensures Register(F(0x9bc13ce9, 0xf5b158db, 0x2f35d494), 0x32033344, 0x9bc13ce9, 0x0, 0x698098d8, 7) == 0x3893b991
    ensures Register(F(0x3893b991, 0x9bc13ce9, 0xf5b158db), 0x2f35d494, 0x3893b991, 0x0, 0x8b44f7af, 12) == 0xfce4a312
    ensures Register(F(0xfce4a312, 0x3893b991, 0x9bc13ce9), 0xf5b158db, 0xfce4a312, 0x0, 0xffff5bb1, 17) == 0xe1ef0576
    ensures Register(F(0xe1ef0576, 0xfce4a312, 0x3893b991), 0x9bc13ce9, 0xe1ef0576, 0x0, 0x895cd7be, 22) == 0x70768a29
    ensures Register(F(0x70768a29, 0xe1ef0576, 0xfce4a312), 0x3893b991, 0x70768a29, 0x0, 0x6b901122, 7) == 0xf56c7cf1
    ensures Register(F(0xf56c7cf1, 0x70768a29, 0xe1ef0576), 0xfce4a312, 0xf56c7cf1, 0x0, 0xfd987193, 12) == 0x374943a7
    ensures Register(F(0x374943a7, 0xf56c7cf1, 0x70768a29), 0xe1ef0576, 0x374943a7, 0x0, 0xa679438e, 17) == 0x5aa53f75
    ensures Register(F(0x5aa53f75, 0x374943a7, 0xf56c7cf1), 0x70768a29, 0x5aa53f75, 0x0, 0x49b40821, 22) == 0xd6819c6a
  {}

  lemma EmptySums2()
    ensures Register(G(0xd6819c6a, 0x5aa53f75, 0x374943a7), 0xf56c7cf1, 0xd6819c6a, 0x0, 0xf61e2562, 5) == 0x1c7d7513
    ensures Register(G(0x1c7d7513, 0xd6819c6a, 0x5aa53f75), 0x374943a7, 0x1c7d7513, 0x0, 0xc040b340, 9) == 0x7bd57a3a
    ensures Register(G(0x7bd57a3a, 0x1c7d7513, 0xd6819c6a), 0x5aa53f75, 0x7bd57a3a, 0x0, 0x265e5a51, 14) == 0xc095f13a
    ensures Register(G(0xc095f13a, 0x7bd57a3a, 0x1c7d7513), 0xd6819c6a, 0xc095f13a, 0x80, 0xe9b6c7aa, 20) == 0xbd782e17
    ensures Register(G(0xbd782e17, 0xc095f13a, 0x7bd57a3a), 0x1c7d7513, 0xbd782e17, 0x0, 0xd62f105d, 5) == 0x3d1e3e6c
    ensures Register(G(0x3d1e3e6c, 0xbd782e17, 0xc095f13a), 0x7bd57a3a, 0x3d1e3e6c, 0x0, 0x02441453, 9) == 0x68b7b3e3
    ensures Register(G(0x68b7b3e3, 0x3d1e3e6c, 0xbd782e17), 0xc095f13a, 0x68b7b3e3, 0x0, 0xd8a1e681, 14) == 0xeb41643e
    ensures Register(G(0xeb41643e, 0x68b7b3e3, 0x3d1e3e6c), 0xbd782e17, 0xeb41643e, 0x0, 0xe7d3fbc8, 20) == 0xe422531a
    ensures Register(G(0xe422531a, 0xeb41643e, 0x68b7b3e3), 0x3d1e3e6c, 0xe422531a, 0x0, 0x21e1cde6, 5) == 0x306ec122
    ensures Register(G(0x306ec122, 0xe422531a, 0xeb41643e), 0x68b7b3e3, 0x306ec122, 0x0, 0xc33707d6, 9) == 0xd28c77c2
    ensures Register(G(0xd28c77c2, 0x306ec122, 0xe422531a), 0xeb41643e, 0xd28c77c2, 0x0, 0xf4d50d87, 14) == 0xa3c663da
    ensures Register(G(0xa3c663da, 0xd28c77c2, 0x306ec122), 0xe422531a, 0xa3c663da, 0x0, 0x455a14ed, 20) == 0xa0572807
    ensures Register(G(0xa0572807, 0xa3c663da, 0xd28c77c2), 0x306ec122, 0xa0572807, 0x0, 0xa9e3e905, 5) == 0x13707036
    ensures Register(G(0x13707036, 0xa0572807, 0xa3c663da), 0xd28c77c2, 0x13707036, 0x0, 0xfcefa3f8, 9) == 0xae7813db
    ensures Register(G(0xae7813db, 0x13707036, 0xa0572807), 0xa3c663da, 0xae7813db, 0x0, 0x676f02d9, 14) == 0x1c31c384
    ensures Register(G(0x1c31c384, 0xae7813db, 0x13707036), 0xa0572807, 0x1c31c384, 0x0, 0x8d2a4c8a, 20) == 0xa2205f1f
  {}

  lemma EmptySums3()
    ensures Register(H(0xa2205f1f, 0x1c31c384, 0xae7813db), 0x13707036, 0xa2205f1f, 0x0, 0xfffa3942, 4) == 0xdf63eaa1
    ensures Register(H(0xdf63eaa1, 0xa2205f1f, 0x1c31c384), 0xae7813db, 0xdf63eaa1, 0x0, 0x8771f681, 11) == 0xc3689f5b
    ensures Register(H(0xc3689f5b, 0xdf63eaa1, 0xa2205f1f), 0x1c31c384, 0xc3689f5b, 0x0, 0x6d9d6122, 16) == 0x12f3e755
    ensures Register(H(0x12f3e755, 0xc3689f5b, 0xdf63eaa1), 0xa2205f1f, 0x12f3e755, 0x0, 0xfde5380c, 23) == 0x004b6669
    ensures Register(H(0x004b6669, 0x12f3e755, 0xc3689f5b), 0xdf63eaa1, 0x004b6669, 0x0, 0xa4beea44, 4) == 0x5f7a9b2e
    ensures Register(H(0x5f7a9b2e, 0x004b6669, 0x12f3e755), 0xc3689f5b, 0x5f7a9b2e, 0x0, 0x4bdecfa9, 11) == 0xabc34e16
    ensures Register(H(0xabc34e16, 0x5f7a9b2e, 0x004b6669), 0x12f3e755, 0xabc34e16, 0x0, 0xf6bb4b60, 16) == 0x91ca4cb7
    ensures Register(H(0x91ca4cb7, 0xabc34e16, 0x5f7a9b2e), 0x004b6669, 0x91ca4cb7, 0x0, 0xbebfbc70, 23) == 0xc5dc8c15
    ensures Register(H(0xc5dc8c15, 0x91ca4cb7, 0xabc34e16), 0x5f7a9b2e, 0xc5dc8c15, 0x0, 0x289b7ec6, 4) == 0x4497169d
    ensures Register(H(0x4497169d, 0xc5dc8c15, 0x91ca4cb7), 0xabc34e16, 0x4497169d, 0x80, 0xeaa127fa, 11) == 0x76fd93d4
    ensures Register(H(0x76fd93d4, 0x4497169d, 0xc5dc8c15), 0x91ca4cb7, 0x76fd93d4, 0x0, 0xd4ef3085, 16) == 0xfd95f243
    ensures Register(H(0xfd95f243, 0x76fd93d4, 0x4497169d), 0xc5dc8c15, 0xfd95f243, 0x0, 0x04881d05, 23) == 0x0fe32453
    ensures Register(H(0x0fe32453, 0xfd95f243, 0x76fd93d4), 0x4497169d, 0x0fe32453, 0x0, 0xd9d4d039, 4) == 0x3f55edfd
    ensures Register(H(0x3f55edfd, 0x0fe32453, 0xfd95f243), 0x76fd93d4, 0x3f55edfd, 0x0, 0xe6db99e5, 11) == 0x22a31f54
    ensures Register(H(0x22a31f54, 0x3f55edfd, 0x0fe32453), 0xfd95f243, 0x22a31f54, 0x0, 0x1fa27cf8, 16) == 0x68d84ea2
    ensures Register(H(0x68d84ea2, 0x22a31f54, 0x3f55edfd), 0x0fe32453, 0x68d84ea2, 0x0, 0xc4ac5665, 23) == 0xca7d2dbd
  {}

  lemma EmptySums4()
    ensures Register(I(0xca7d2dbd, 0x68d84ea2, 0x22a31f54), 0x3f55edfd, 0xca7d2dbd, 0x80, 0xf4292244, 6) == 0x93aa2577
    ensures Register(I(0x93aa2577, 0xca7d2dbd, 0x68d84ea2), 0x22a31f54, 0x93aa2577, 0x0, 0x432aff97, 10) == 0x1688dc85
    ensures Register(I(0x1688dc85, 0x93aa2577, 0xca7d2dbd), 0x68d84ea2, 0x1688dc85, 0x0, 0xab9423a7, 15) == 0xcd85b8cb
    ensures Register(I(0xcd85b8cb, 0x1688dc85, 0x93aa2577), 0xca7d2dbd, 0xcd85b8cb, 0x0, 0xfc93a039, 21) == 0x561e0689
    ensures Register(I(0x561e0689, 0xcd85b8cb, 0x1688dc85), 0x93aa2577, 0x561e0689, 0x0, 0x655b59c3, 6) == 0x5625a114
    ensures Register(I(0x5625a114, 0x561e0689, 0xcd85b8cb), 0x1688dc85, 0x5625a114, 0x0, 0x8f0ccc92, 10) == 0x3450f42b
    ensures Register(I(0x3450f42b, 0x5625a114, 0x561e0689), 0xcd85b8cb, 0x3450f42b, 0x0, 0xffeff47d, 15) == 0x392ad0d0
    ensures Register(I(0x392ad0d0, 0x3450f42b, 0x5625a114), 0x561e0689, 0x392ad0d0, 0x0, 0x85845dd1, 21) == 0x1e77fa61
    ensures Register(I(0x1e77fa61, 0x392ad0d0, 0x3450f42b), 0x5625a114, 0x1e77fa61, 0x0, 0x6fa87e4f, 6) == 0x474a9c8c
    ensures Register(I(0x474a9c8c, 0x1e77fa61, 0x392ad0d0), 0x3450f42b, 0x474a9c8c, 0x0, 0xfe2ce6e0, 10) == 0xdfce00bc
    ensures Register(I(0xdfce00bc, 0x474a9c8c, 0x1e77fa61), 0x392ad0d0, 0xdfce00bc, 0x0, 0xa3014314, 15) == 0x36594b14
    ensures Register(I(0x36594b14, 0xdfce00bc, 0x474a9c8c), 0x1e77fa61, 0x36594b14, 0x0, 0x4e0811a1, 21) == 0x30130182
    ensures Register(I(0x30130182, 0x36594b14, 0xdfce00bc), 0x474a9c8c, 0x30130182, 0x0, 0xf7537e82, 6) == 0x7246fad3
    ensures Register(I(0x7246fad3, 0x30130182, 0x36594b14), 0xdfce00bc, 0x7246fad3, 0x0, 0xbd3af235, 10) == 0x6e10a476
    ensures Register(I(0x6e10a476, 0x7246fad3, 0x30130182), 0x36594b14, 0x6e10a476, 0x0, 0x2ad7d2bb, 15) == 0xff4ea3eb
    ensures Register(I(0xff4ea3eb, 0x6e10a476, 0x7246fad3), 0x30130182, 0xff4ea3eb, 0x0, 0xeb86d391, 21) == 0x14e45506
  {}

  lemma EmptyRound1(x: seq<Word>)
    requires IsShort(x, 0x80, 0)
    ensures Operations(16, IV, x) == Chain(0xf56c7cf1, 0xd6819c6a, 0x5aa53f75, 0x374943a7)
  {
    hide Operations, T, Shift, WordIndex, Register, F, G, H, I;
    NoOperations(IV, x);
    Table1();
    EmptySums1();
    RoundF(IV, x);
  }

  lemma EmptyRound2(x: seq<Word>)
    requires IsShort(x, 0x80, 0)
    requires Operations(16, IV, x) == Chain(0xf56c7cf1, 0xd6819c6a, 0x5aa53f75, 0x374943a7)
    ensures Operations(32, IV, x) == Chain(0x13707036, 0xa2205f1f, 0x1c31c384, 0xae7813db)
  {
    hide Operations, T, Shift, WordIndex, Register, F, G, H, I;
    Table2();
    EmptySums2();
    RoundG(IV, x);
  }

  lemma EmptyRound3(x: seq<Word>)
    requires IsShort(x, 0x80, 0)
    requires Operations(32, IV, x) == Chain(0x13707036, 0xa2205f1f, 0x1c31c384, 0xae7813db)
    ensures Operations(48, IV, x) == Chain(0x3f55edfd, 0xca7d2dbd, 0x68d84ea2, 0x22a31f54)
  {
    hide Operations, T, Shift, WordIndex, Register, F, G, H, I;
    Table3();
    EmptySums3();
    RoundH(IV, x);
  }

  lemma EmptyRound4(x: seq<Word>)
    requires IsShort(x, 0x80, 0)
    requires Operations(48, IV, x) == Chain(0x3f55edfd, 0xca7d2dbd, 0x68d84ea2, 0x22a31f54)
    ensures Operations(64, IV, x) == Chain(0x7246fad3, 0x14e45506, 0xff4ea3eb, 0x6e10a476)
  {
    hide Operations, T, Shift, WordIndex, Register, F, G, H, I;
    Table4();
    EmptySums4();
    RoundI(IV, x);
  }

  lemma EmptyChain(x: seq<Word>)
    requires IsShort(x, 0x80, 0)
    ensures PlusEach(Operations(64, IV, x), IV) == Chain(0xd98c1dd4, 0x04b2008f, 0x980980e9, 0x7e42f8ec)
  {
    hide Operations;
    EmptyRound1(x);
    EmptyRound2(x);
    EmptyRound3(x);
    EmptyRound4(x);
  }

  lemma EmptyOutput()
    ensures Output(Chain(0xd98c1dd4, 0x04b2008f, 0x980980e9, 0x7e42f8ec))
         == [0xd4, 0x1d, 0x8c, 0xd9, 0x8f, 0x00, 0xb2, 0x04,
             0xe9, 0x80, 0x09, 0x98, 0xec, 0xf8, 0x42, 0x7e]
  {}

  /** MD5 ("") = d41d8cd98f00b204e9800998ecf8427e */
  lemma DigestOfEmpty()
    ensures Digest([])
         == [0xd4, 0x1d, 0x8c, 0xd9, 0x8f, 0x00, 0xb2, 0x04,
             0xe9, 0x80, 0x09, 0x98, 0xec, 0xf8, 0x42, 0x7e]
  {
    hide Operations, PlusEach, Output, LittleEndian, LengthBytes, Words, Absorb, Compress, Pad;
    var m: seq<Byte> := [];
    EmptyWords();
    EmptyChain(Words(Pad(m)));
    EmptyOutput();
    OneBlock(m);
  }

  // ---------------------------------------------------------------- "abc"

  /** The sums of round 1 on "abc". */
  lemma AbcSums1()
    ensures Register(F(0xefcdab89, 0x98badcfe, 0x10325476), 0x67452301, 0xefcdab89, 0x80636261, 0xd76aa478, 7)
         == 0xd6d117b4
    ensures Register(F(0xd6d117b4, 0xefcdab89, 0x98badcfe), 0x10325476, 0xd6d117b4, 0x0, 0xe8c7b756, 12) == 0x344a8432
    ensures Register(F(0x344a8432, 0xd6d117b4, 0xefcdab89), 0x98badcfe, 0x344a8432, 0x0, 0x242070db, 17) == 0x2f6fbd72
    ensures Register(F(0x2f6fbd72, 0x344a8432, 0xd6d117b4), 0xefcdab89, 0x2f6fbd72, 0x0, 0xc1bdceee, 22) == 0x7ad956f2
    ensures Register(F(0x7ad956f2, 0x2f6fbd72, 0x344a8432), 0xd6d117b4, 0x7ad956f2, 0x0, 0xf57c0faf, 7) == 0xc73741ef
    ensures Register(F(0xc73741ef, 0x7ad956f2, 0x2f6fbd72), 0x344a8432, 0xc73741ef, 0x0, 0x4787c62a, 12) == 0x8bac3051
    ensures Register(F(0x8bac3051, 0xc73741ef, 0x7ad956f2), 0x2f6fbd72, 0x8bac3051, 0x0, 0xa8304613, 17) == 0x207dc67b
    ensures Register(F(0x207dc67b, 0x8bac3051, 0xc73741ef), 0x7ad956f2, 0x207dc67b, 0x0, 0xfd469501, 22) == 0x928d99f6
    ensures Register(F(0x928d99f6, 0x207dc67b, 0x8bac3051), 0xc73741ef, 0x928d99f6, 0x0, 0x698098d8, 7) == 0x854b3712
    ensures Register(F(0x854b3712, 0x928d99f6, 0x207dc67b), 0x8bac3051, 0x854b3712, 0x0, 0x8b44f7af, 12) == 0x74e2f284
    ensures Register(F(0x74e2f284, 0x854b3712, 0x928d99f6), 0x207dc67b, 0x74e2f284, 0x0, 0xffff5bb1, 17) == 0x3020401c
    ensures Register(F(0x3020401c, 0x74e2f284, 0x854b3712), 0x928d99f6, 0x3020401c, 0x0, 0x895cd7be, 22) == 0x5ed49596
    ensures Register(F(0x5ed49596, 0x3020401c, 0x74e2f284), 0x854b3712, 0x5ed49596, 0x0, 0x6b901122, 7) == 0xdda9b9a6
    ensures Register(F(0xdda9b9a6, 0x5ed49596, 0x3020401c), 0x74e2f284, 0xdda9b9a6, 0x0, 0xfd987193, 12) == 0xa1051895
    ensures Register(F(0xa1051895, 0xdda9b9a6, 0x5ed49596), 0x3020401c, 0xa1051895, 0x18, 0xa679438e, 17) == 0xe396856b
    ensures Register(F(0xe396856b, 0xa1051895, 0xdda9b9a6), 0x5ed49596, 0xe396856b, 0x0, 0x49b40821, 22) == 0x72aff2e0
  {}

  lemma AbcSums2()
    ensures Register(G(0x72aff2e0, 0xe396856b, 0xa1051895), 0xdda9b9a6, 0x72aff2e0, 0x0, 0xf61e2562, 5) == 0x3e9e9126
    ensures Register(G(0x3e9e9126, 0x72aff2e0, 0xe396856b), 0xa1051895, 0x3e9e9126, 0x0, 0xc040b340, 9) == 0x4a1d804e
    ensures Register(G(0x4a1d804e, 0x3e9e9126, 0x72aff2e0), 0xe396856b, 0x4a1d804e, 0x0, 0x265e5a51, 14) == 0xe25e1652
    ensures Register(G(0xe25e1652, 0x4a1d804e, 0x3e9e9126), 0x72aff2e0, 0xe25e1652, 0x80636261, 0xe9b6c7aa, 20)
         == 0xb5b204e4
    ensures Register(G(0xb5b204e4, 0xe25e1652, 0x4a1d804e), 0x3e9e9126, 0xb5b204e4, 0x0, 0xd62f105d, 5) == 0x59a8ffda
    ensures Register(G(0x59a8ffda, 0xb5b204e4, 0xe25e1652), 0x4a1d804e, 0x59a8ffda, 0x0, 0x02441453, 9) == 0x6d002f1e
    ensures Register(G(0x6d002f1e, 0x59a8ffda, 0xb5b204e4), 0xe25e1652, 0x6d002f1e, 0x0, 0xd8a1e681, 14) == 0xabfc7920
    ensures Register(G(0xabfc7920, 0x6d002f1e, 0x59a8ffda), 0xb5b204e4, 0xabfc7920, 0x0, 0xe7d3fbc8, 20) == 0x47092c07
    ensures Register(G(0x47092c07, 0xabfc7920, 0x6d002f1e), 0x59a8ffda, 0x47092c07, 0x0, 0x21e1cde6, 5) == 0xb7f268cf
    ensures Register(G(0xb7f268cf, 0x47092c07, 0xabfc7920), 0x6d002f1e, 0xb7f268cf, 0x18, 0xc33707d6, 9) == 0x09388eff
    ensures Register(G(0x09388eff, 0xb7f268cf, 0x47092c07), 0xabfc7920, 0x09388eff, 0x0, 0xf4d50d87, 14) == 0xfe1623b1
    ensures Register(G(0xfe1623b1, 0x09388eff, 0xb7f268cf), 0x47092c07, 0xfe1623b1, 0x0, 0x455a14ed, 20) == 0x786acb8f
    ensures Register(G(0x786acb8f, 0xfe1623b1, 0x09388eff), 0xb7f268cf, 0x786acb8f, 0x0, 0xa9e3e905, 5) == 0x790a77fb
    ensures Register(G(0x790a77fb, 0x786acb8f, 0xfe1623b1), 0x09388eff, 0x790a77fb, 0x0, 0xfcefa3f8, 9) == 0x9f47e4f8
    ensures Register(G(0x9f47e4f8, 0x790a77fb, 0x786acb8f), 0xfe1623b1, 0x9f47e4f8, 0x0, 0x676f02d9, 14) == 0xa62884aa
    ensures Register(G(0xa62884aa, 0x9f47e4f8, 0x790a77fb), 0x786acb8f, 0xa62884aa, 0x0, 0x8d2a4c8a, 20) == 0x726342d3
  {}

  lemma AbcSums3()
    ensures Register(H(0x726342d3, 0xa62884aa, 0x9f47e4f8), 0x790a77fb, 0x726342d3, 0x0, 0xfffa3942, 4) == 0xb3707ebf
    ensures Register(H(0xb3707ebf, 0x726342d3, 0xa62884aa), 0x9f47e4f8, 0xb3707ebf, 0x0, 0x8771f681, 11) == 0x60127b2e
    ensures Register(H(0x60127b2e, 0xb3707ebf, 0x726342d3), 0xa62884aa, 0x60127b2e, 0x0, 0x6d9d6122, 16) == 0x8d212ff5
    ensures Register(H(0x8d212ff5, 0x60127b2e, 0xb3707ebf), 0x726342d3, 0x8d212ff5, 0x18, 0xfde5380c, 23) == 0x3b0875c7
    ensures Register(H(0x3b0875c7, 0x8d212ff5, 0x60127b2e), 0xb3707ebf, 0x3b0875c7, 0x0, 0xa4beea44, 4) == 0x21b117b9
    ensures Register(H(0x21b117b9, 0x3b0875c7, 0x8d212ff5), 0x60127b2e, 0x21b117b9, 0x0, 0x4bdecfa9, 11) == 0x6e7429d5
    ensures Register(H(0x6e7429d5, 0x21b117b9, 0x3b0875c7), 0x8d212ff5, 0x6e7429d5, 0x0, 0xf6bb4b60, 16) == 0x3575227e
    ensures Register(H(0x3575227e, 0x6e7429d5, 0x21b117b9), 0x3b0875c7, 0x3575227e, 0x0, 0xbebfbc70, 23) == 0x5a2f5ea5
    ensures Register(H(0x5a2f5ea5, 0x3575227e, 0x6e7429d5), 0x21b117b9, 0x5a2f5ea5, 0x0, 0x289b7ec6, 4) == 0x11de1779
    ensures Register(H(0x11de1779, 0x5a2f5ea5, 0x3575227e), 0x6e7429d5, 0x11de1779, 0x80636261, 0xeaa127fa, 11)
         == 0xfadcaa38
    ensures Register(H(0xfadcaa38, 0x11de1779, 0x5a2f5ea5), 0x3575227e, 0xfadcaa38, 0x0, 0xd4ef3085, 16) == 0x31c465ca
    ensures Register(H(0x31c465ca, 0xfadcaa38, 0x11de1779), 0x5a2f5ea5, 0x31c465ca, 0x0, 0x04881d05, 23) == 0x4c6124f4
    ensures Register(H(0x4c6124f4, 0x31c465ca, 0xfadcaa38), 0x11de1779, 0x4c6124f4, 0x0, 0xd9d4d039, 4) == 0x7f2e507b
    ensures Register(H(0x7f2e507b, 0x4c6124f4, 0x31c465ca), 0xfadcaa38, 0x7f2e507b, 0x0, 0xe6db99e5, 11) == 0x99d9679d
    ensures Register(H(0x99d9679d, 0x7f2e507b, 0x4c6124f4), 0x31c465ca, 0x99d9679d, 0x0, 0x1fa27cf8, 16) == 0x8fae6399
    ensures Register(H(0x8fae6399, 0x99d9679d, 0x7f2e507b), 0x4c6124f4, 0x8fae6399, 0x0, 0xc4ac5665, 23) == 0x7beb9700
  {}

  lemma AbcSums4()
    ensures Register(I(0x7beb9700, 0x8fae6399, 0x99d9679d), 0x7f2e507b, 0x7beb9700, 0x80636261, 0xf4292244, 6)
         == 0x7b201df8
    ensures Register(I(0x7b201df8, 0x7beb9700, 0x8fae6399), 0x99d9679d, 0x7b201df8, 0x0, 0x432aff97, 10) == 0xf4e8e96e
    ensures Register(I(0xf4e8e96e, 0x7b201df8, 0x7beb9700), 0x8fae6399, 0xf4e8e96e, 0x18, 0xab9423a7, 15) == 0xb298cefd
    ensures Register(I(0xb298cefd, 0xf4e8e96e, 0x7b201df8), 0x7beb9700, 0xb298cefd, 0x0, 0xfc93a039, 21) == 0x8bf025c4
    ensures Register(I(0x8bf025c4, 0xb298cefd, 0xf4e8e96e), 0x7b201df8, 0x8bf025c4, 0x0, 0x655b59c3, 6) == 0x06cc5e8a
    ensures Register(I(0x06cc5e8a, 0x8bf025c4, 0xb298cefd), 0xf4e8e96e, 0x06cc5e8a, 0x0, 0x8f0ccc92, 10) == 0x5b0d97aa
    ensures Register(I(0x5b0d97aa, 0x06cc5e8a, 0x8bf025c4), 0xb298cefd, 0x5b0d97aa, 0x0, 0xffeff47d, 15) == 0x7d632dd0
    ensures Register(I(0x7d632dd0, 0x5b0d97aa, 0x06cc5e8a), 0x8bf025c4, 0x7d632dd0, 0x0, 0x85845dd1, 21) == 0x3bfa2c27
    ensures Register(I(0x3bfa2c27, 0x7d632dd0, 0x5b0d97aa), 0x06cc5e8a, 0x3bfa2c27, 0x0, 0x6fa87e4f, 6) == 0x7f81cc35
    ensures Register(I(0x7f81cc35, 0x3bfa2c27, 0x7d632dd0), 0x5b0d97aa, 0x7f81cc35, 0x0, 0xfe2ce6e0, 10) == 0x094454ab
    ensures Register(I(0x094454ab, 0x7f81cc35, 0x3bfa2c27), 0x7d632dd0, 0x094454ab, 0x0, 0xa3014314, 15) == 0x4f9dbe3f
    ensures Register(I(0x4f9dbe3f, 0x094454ab, 0x7f81cc35), 0x3bfa2c27, 0x4f9dbe3f, 0x0, 0x4e0811a1, 21) == 0x7327d604
    ensures Register(I(0x7327d604, 0x4f9dbe3f, 0x094454ab), 0x7f81cc35, 0x7327d604, 0x0, 0xf7537e82, 6) == 0x310ade8f
    ensures Register(I(0x310ade8f, 0x7327d604, 0x4f9dbe3f), 0x094454ab, 0x310ade8f, 0x0, 0xbd3af235, 10) == 0x624d8cb2
    ensures Register(I(0x624d8cb2, 0x310ade8f, 0x7327d604), 0x4f9dbe3f, 0x624d8cb2, 0x0, 0x2ad7d2bb, 15) == 0xe484b9d8
    ensures Register(I(0xe484b9d8, 0x624d8cb2, 0x310ade8f), 0x7327d604, 0xe484b9d8, 0x0, 0xeb86d391, 21) == 0xc08226b3
  {}

  lemma AbcRound1(x: seq<Word>)
    requires IsShort(x, 0x80636261, 24)
    ensures Operations(16, IV, x) == Chain(0xdda9b9a6, 0x72aff2e0, 0xe396856b, 0xa1051895)
  {
    hide Operations, T, Shift, WordIndex, Register, F, G, H, I;
    NoOperations(IV, x);
    Table1();
    AbcSums1();
    RoundF(IV, x);
  }

  lemma AbcRound2(x: seq<Word>)
    requires IsShort(x, 0x80636261, 24)
    requires Operations(16, IV, x) == Chain(0xdda9b9a6, 0x72aff2e0, 0xe396856b, 0xa1051895)
    ensures Operations(32, IV, x) == Chain(0x790a77fb, 0x726342d3, 0xa62884aa, 0x9f47e4f8)
  {
    hide Operations, T, Shift, WordIndex, Register, F, G, H, I;
    Table2();
    AbcSums2();
    RoundG(IV, x);
  }

  lemma AbcRound3(x: seq<Word>)
    requires IsShort(x, 0x80636261, 24)
    requires Operations(32, IV, x) == Chain(0x790a77fb, 0x726342d3, 0xa62884aa, 0x9f47e4f8)
    ensures Operations(48, IV, x) == Chain(0x7f2e507b, 0x7beb9700, 0x8fae6399, 0x99d9679d)
  {
    hide Operations, T, Shift, WordIndex, Register, F, G, H, I;
    Table3();
    AbcSums3();
    RoundH(IV, x);
  }

  lemma AbcRound4(x: seq<Word>)
    requires IsShort(x, 0x80636261, 24)
    requires Operations(48, IV, x) == Chain(0x7f2e507b, 0x7beb9700, 0x8fae6399, 0x99d9679d)
    ensures Operations(64, IV, x) == Chain(0x310ade8f, 0xc08226b3, 0xe484b9d8, 0x624d8cb2)
  {
    hide Operations, T, Shift, WordIndex, Register, F, G, H, I;
    Table4();
    AbcSums4();
    RoundI(IV, x);
  }

  lemma AbcChain(x: seq<Word>)
    requires IsShort(x, 0x80636261, 24)
    ensures PlusEach(Operations(64, IV, x), IV) == Chain(0x98500190, 0xb04fd23c, 0x7d3f96d6, 0x727fe128)
  {
    hide Operations;
    AbcRound1(x);
    AbcRound2(x);
    AbcRound3(x);
    AbcRound4(x);
  }

  lemma AbcOutput()
    ensures Output(Chain(0x98500190, 0xb04fd23c, 0x7d3f96d6, 0x727fe128))
         == [0x90, 0x01, 0x50, 0x98, 0x3c, 0xd2, 0x4f, 0xb0,
             0xd6, 0x96, 0x3f, 0x7d, 0x28, 0xe1, 0x7f, 0x72]
  {}

  /** MD5 ("abc") = 900150983cd24fb0d6963f7d28e17f72 */
  lemma DigestOfAbc()
    ensures Digest([0x61, 0x62, 0x63])
         == [0x90, 0x01, 0x50, 0x98, 0x3c, 0xd2, 0x4f, 0xb0,
             0xd6, 0x96, 0x3f, 0x7d, 0x28, 0xe1, 0x7f, 0x72]
  {
    hide Operations, PlusEach, Output, LittleEndian, LengthBytes, Words, Absorb, Compress, Pad;
    var m: seq<Byte> := [0x61, 0x62, 0x63];
    AbcWords();
    AbcChain(Words(Pad(m)));
    AbcOutput();
    OneBlock(m);
  }
}
