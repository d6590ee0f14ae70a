/**
 The MD5 message digest as RFC 1321 defines it: the padding of sections 3.1 and 3.2,
 the buffer of section 3.3, the sixty-four operations of section 3.4 written as one
 indexed loop over rotating registers, and the output order of section 3.5.

 Nothing here is optimised and nothing here is incremental: this is the reference that
 the streaming context of `Md5` is proved to compute.
 */
module Rfc1321 {
  type Byte = bv8
  type Word = bv32

  const TWO_TO_THE_29 := 0x2000_0000
  const TWO_TO_THE_32 := 0x1_0000_0000
  const TWO_TO_THE_61 := 0x2000_0000_0000_0000
  const TWO_TO_THE_64 := 0x1_0000_0000_0000_0000

  /** The four registers of the chaining value. */
  datatype Chain = Chain(a: Word, b: Word, c: Word, d: Word)

  /** Section 3.3: the initial registers. */
  const IV := Chain(0x67452301, 0xefcdab89, 0x98badcfe, 0x10325476)

  // ---------------------------------------------------------------- words and bytes

  /** Section 2: four bytes form a word with the low-order byte first. */
  function LittleEndian(b0: Byte, b1: Byte, b2: Byte, b3: Byte): Word {
    b0 as Word + 0x100 * (b1 as Word + 0x100 * (b2 as Word + 0x100 * b3 as Word))
  }

  /** The sixteen words of a 64-byte block. */
  function Words(block: seq<Byte>): (x: seq<Word>)
    requires |block| == 64
    ensures |x| == 16
  {
    seq(16, n requires 0 <= n < 16 =>
      LittleEndian(block[4 * n], block[4 * n + 1], block[4 * n + 2], block[4 * n + 3]))
  }

  function Byte0(w: Word): Byte { (w & 0xff) as Byte }
  function Byte1(w: Word): Byte { ((w >> 8) & 0xff) as Byte }
  function Byte2(w: Word): Byte { ((w >> 16) & 0xff) as Byte }
  function Byte3(w: Word): Byte { ((w >> 24) & 0xff) as Byte }

  /** A word as four bytes, low-order byte first. */
  function Bytes(w: Word): (r: seq<Byte>)
    ensures |r| == 4
  {
    [Byte0(w), Byte1(w), Byte2(w), Byte3(w)]
  }

  // ---------------------------------------------------------------- the four rounds

  function F(x: Word, y: Word, z: Word): Word { (x & y) | (!x & z) }
  function G(x: Word, y: Word, z: Word): Word { (x & z) | (y & !z) }
  function H(x: Word, y: Word, z: Word): Word { x ^ y ^ z }
  function I(x: Word, y: Word, z: Word): Word { y ^ (x | !z) }

  /** The auxiliary function of operation `i`. */
  function Auxiliary(i: nat, x: Word, y: Word, z: Word): Word {
    match i / 16
    case 0 => F(x, y, z)
    case 1 => G(x, y, z)
    case 2 => H(x, y, z)
    case _ => I(x, y, z)
  }

  /** The message word that operation `i` uses. */
  function WordIndex(i: nat): (k: nat)
    ensures k < 16
  {
    match i / 16
    case 0 => i % 16
    case 1 => (5 * i + 1) % 16
    case 2 => (3 * i + 5) % 16
    case _ => (7 * i) % 16
  }

  function Quad(i: nat, p: nat, q: nat, r: nat, s: nat): nat {
    match i % 4
    case 0 => p
    case 1 => q
    case 2 => r
    case _ => s
  }

  /** The rotation amount of operation `i`. */
  function Shift(i: nat): (k: nat)
    ensures 0 < k < 32
  {
    match i / 16
    case 0 => Quad(i, 7, 12, 17, 22)
    case 1 => Quad(i, 5, 9, 14, 20)
    case 2 => Quad(i, 4, 11, 16, 23)
    case _ => Quad(i, 6, 10, 15, 21)
  }

  /** The additive constants of the four rounds, by the number of the operation, counted from zero. */
  function Constant1(i: nat): Word {
    match i
    case 0 => 0xd76aa478 case 1 => 0xe8c7b756 case 2 => 0x242070db case 3 => 0xc1bdceee
    case 4 => 0xf57c0faf case 5 => 0x4787c62a case 6 => 0xa8304613 case 7 => 0xfd469501
    case 8 => 0x698098d8 case 9 => 0x8b44f7af case 10 => 0xffff5bb1 case 11 => 0x895cd7be
    case 12 => 0x6b901122 case 13 => 0xfd987193 case 14 => 0xa679438e case _ => 0x49b40821
  }

  function Constant2(i: nat): Word {
    match i
    case 16 => 0xf61e2562 case 17 => 0xc040b340 case 18 => 0x265e5a51 case 19 => 0xe9b6c7aa
    case 20 => 0xd62f105d case 21 => 0x02441453 case 22 => 0xd8a1e681 case 23 => 0xe7d3fbc8
    case 24 => 0x21e1cde6 case 25 => 0xc33707d6 case 26 => 0xf4d50d87 case 27 => 0x455a14ed
    case 28 => 0xa9e3e905 case 29 => 0xfcefa3f8 case 30 => 0x676f02d9 case _ => 0x8d2a4c8a
  }

  function Constant3(i: nat): Word {
    match i
    case 32 => 0xfffa3942 case 33 => 0x8771f681 case 34 => 0x6d9d6122 case 35 => 0xfde5380c
    case 36 => 0xa4beea44 case 37 => 0x4bdecfa9 case 38 => 0xf6bb4b60 case 39 => 0xbebfbc70
    case 40 => 0x289b7ec6 case 41 => 0xeaa127fa case 42 => 0xd4ef3085 case 43 => 0x04881d05
    case 44 => 0xd9d4d039 case 45 => 0xe6db99e5 case 46 => 0x1fa27cf8 case _ => 0xc4ac5665
  }

  function Constant4(i: nat): Word {
    match i
    case 48 => 0xf4292244 case 49 => 0x432aff97 case 50 => 0xab9423a7 case 51 => 0xfc93a039
    case 52 => 0x655b59c3 case 53 => 0x8f0ccc92 case 54 => 0xffeff47d case 55 => 0x85845dd1
    case 56 => 0x6fa87e4f case 57 => 0xfe2ce6e0 case 58 => 0xa3014314 case 59 => 0x4e0811a1
    case 60 => 0xf7537e82 case 61 => 0xbd3af235 case 62 => 0x2ad7d2bb case _ => 0xeb86d391
  }

  function T(i: nat): Word {
    if i < 16 then Constant1(i) else if i < 32 then Constant2(i) else if i < 48 then Constant3(i) else Constant4(i)
  }

  /** X <<< s. */
  function Rotl(x: Word, s: nat): Word
    requires s < 32
  {
    x.RotateLeft(s)
  }

  /** Addition of words, modulo 2^32. */
  function Plus(x: Word, y: Word): Word {
    x + y
  }

  function Sum(a: Word, f: Word, w: Word, t: Word): Word {
    a + f + w + t
  }

  /** a = b + ((a + f + X[k] + T[i]) <<< s). */
  function Register(f: Word, a: Word, b: Word, w: Word, t: Word, s: nat): Word
    requires s < 32
  {
    Plus(b, Rotl(Sum(a, f, w, t), s))
  }

  /** Operation `i`: computes one register and rotates the roles of all four. */
  function Operation(i: nat, s: Chain, x: seq<Word>): Chain
    requires i < 64 && |x| == 16
  {
    Chain(s.d, Register(Auxiliary(i, s.b, s.c, s.d), s.a, s.b, x[WordIndex(i)], T(i), Shift(i)), s.b, s.c)
  }

  /** The first `n` operations. */
  function Operations(n: nat, s: Chain, x: seq<Word>): Chain
    requires n <= 64 && |x| == 16
  {
    if n == 0 then s else Operation(n - 1, Operations(n - 1, s, x), x)
  }

  function PlusEach(s: Chain, t: Chain): Chain {
    Chain(Plus(s.a, t.a), Plus(s.b, t.b), Plus(s.c, t.c), Plus(s.d, t.d))
  }

  /** Section 3.4 on one block. */
  function Compress(s: Chain, block: seq<Byte>): Chain
    requires |block| == 64
  {
    var x := Words(block);
    PlusEach(Operations(4 * |x|, s, x), s)
  }

  /** Section 3.4 on a whole number of blocks, from the left. */
  function Absorb(s: Chain, bytes: seq<Byte>): Chain
    requires |bytes| % 64 == 0
    decreases |bytes|
  {
    if |bytes| == 0 then s else
    var rest := bytes[64..];
    assert |rest| % 64 == 0;
    Absorb(Compress(s, bytes[..64]), rest)
  }

  // ---------------------------------------------------------------- the digest

  /** How many zero bytes section 3.1 puts after the byte 0x80. */
  function ZeroCount(n: nat): nat {
    (119 - n % 64) % 64
  }

  lemma ZeroCountFillsBlock(n: nat)
    ensures (n + 9 + ZeroCount(n)) % 64 == 0
  {
    var q, r := n / 64, n % 64;
    assert n + 9 + (119 - r) == 64 * (q + 2);
  }

  function Zeros(k: nat): (z: seq<Byte>)
    ensures |z| == k
  {
    seq(k, _ => 0)
  }

  /** The low-order byte of `v`. */
  function LowByte(v: nat): Byte {
    (v % 256) as Byte
  }

  /** The low `k` bytes of `v`, low-order byte first. */
  function LowFirst(v: nat, k: nat): (r: seq<Byte>)
    ensures |r| == k
    decreases k
  {
    if k == 0 then [] else [LowByte(v)] + LowFirst(v / 256, k - 1)
  }

  /** Section 3.2: the bit length modulo 2^64 as eight bytes, low-order byte first. */
  function LengthBytes(n: nat): (r: seq<Byte>)
    ensures |r| == 8
  {
    LowFirst(8 * n % TWO_TO_THE_64, 8)
  }

  /** Sections 3.1 and 3.2: everything appended to a message of `n` bytes. */
  function Padding(n: nat): (p: seq<Byte>)
    ensures |p| == 9 + ZeroCount(n) && (n + |p|) % 64 == 0
  {
    ZeroCountFillsBlock(n);
    [0x80] + Zeros(ZeroCount(n)) + LengthBytes(n)
  }

  function Pad(message: seq<Byte>): (p: seq<Byte>)
    ensures |p| % 64 == 0
  {
    var p := Padding(|message|);
    assert (|message| + |p|) % 64 == 0;
    message + p
  }

  /** Section 3.5: A, B, C, D, each low-order byte first. */
  function Output(s: Chain): (r: seq<Byte>)
    ensures |r| == 16
  {
    Bytes(s.a) + Bytes(s.b) + Bytes(s.c) + Bytes(s.d)
  }

  function Digest(message: seq<Byte>): (r: seq<Byte>)
    ensures |r| == 16
  {
    Output(Absorb(IV, Pad(message)))
  }
}
