/**
 Facts about the streaming form: absorbing block by block, cutting a message into whole
 blocks and a tail, the split byte counter, and the padding.
 */
module Md5Facts {
  import Casts
  import opened Rfc1321

  // ---------------------------------------------------------------- absorbing blocks

  lemma {:induction false} AbsorbConcat(s: Chain, x: seq<Byte>, y: seq<Byte>)
    requires |x| % 64 == 0 && |y| % 64 == 0
    ensures Absorb(s, x + y) == Absorb(Absorb(s, x), y)
    decreases |x|
  {
    hide Compress;
    if |x| == 0 {
      assert x + y == y;
    } else {
      assert (x + y)[..64] == x[..64];
      assert (x + y)[64..] == x[64..] + y;
      AbsorbConcat(Compress(s, x[..64]), x[64..], y);
    }
  }

  lemma AbsorbNothing(s: Chain)
    ensures Absorb(s, []) == s
  {}

  lemma AbsorbBlock(s: Chain, block: seq<Byte>)
    requires |block| == 64
    ensures Absorb(s, block) == Compress(s, block)
  {
    hide Compress;
    assert block[..64] == block;
    assert Absorb(Compress(s, block), block[64..]) == Compress(s, block);
  }

  // ---------------------------------------------------------------- whole blocks and tail

  /** The part of a message that fills whole blocks, and the rest. */
  function Whole(m: seq<Byte>): (r: seq<Byte>)
    ensures |r| % 64 == 0
  {
    m[..|m| - |m| % 64]
  }

  function Tail(m: seq<Byte>): (r: seq<Byte>)
    ensures |r| == |m| % 64
  {
    m[|m| - |m| % 64..]
  }

  lemma WholeMessage(m: seq<Byte>)
    requires |m| % 64 == 0
    ensures Whole(m) == m
  {}

  /** A short piece of data joins the tail. */
  lemma TailGrows(m: seq<Byte>, data: seq<Byte>)
    requires |m| % 64 + |data| < 64
    ensures |m + data| % 64 == |m| % 64 + |data|
    ensures Whole(m + data) == Whole(m) && Tail(m + data) == Tail(m) + data
  {
    assert |m + data| - |m + data| % 64 == |m| - |m| % 64;
  }

  /** The piece of data that completes the partial block makes the message whole. */
  lemma TailFills(m: seq<Byte>, data: seq<Byte>)
    requires |m| % 64 + |data| == 64
    ensures |m + data| % 64 == 0 && Whole(m) + (Tail(m) + data) == m + data
  {}

  /** After a whole message, data is cut where its own last whole block ends. */
  lemma WholeExtends(m: seq<Byte>, data: seq<Byte>)
    requires |m| % 64 == 0
    ensures Whole(m + data) == m + data[..|data| - |data| % 64]
    ensures Tail(m + data) == data[|data| - |data| % 64..]
  {
    assert |m + data| % 64 == |data| % 64;
  }

  // ---------------------------------------------------------------- the split counter

  /**
   Adding `size` to a counter that stands at `n`, the way the context does it: the low 29
   bits wrap, a wrap shows as a smaller value, and the bits of `size` above 29 go straight
   to the high word.
   */
  lemma CounterAdvances(n: nat, size: nat)
    requires size < TWO_TO_THE_64
    ensures var lo, hi := n % TWO_TO_THE_29, n / TWO_TO_THE_29 % TWO_TO_THE_32;
            var lo' := (lo + size) % TWO_TO_THE_64 % TWO_TO_THE_29;
            var hi' := if lo' < lo then (hi + 1) % TWO_TO_THE_32 else hi;
            && lo' == (n + size) % TWO_TO_THE_29
            && (hi' + size / TWO_TO_THE_29) % TWO_TO_THE_32 == (n + size) / TWO_TO_THE_29 % TWO_TO_THE_32
  {
    var lo, q := n % TWO_TO_THE_29, n / TWO_TO_THE_29;
    var r, p := size % TWO_TO_THE_29, size / TWO_TO_THE_29;
    var carry := if lo + r < TWO_TO_THE_29 then 0 else 1;
    var lo' := lo + r - carry * TWO_TO_THE_29;
    LowWordWraps(lo, size);
    assert n + size == (q + p + carry) * TWO_TO_THE_29 + lo';
    assert (n + size) / TWO_TO_THE_29 == q + p + carry && (n + size) % TWO_TO_THE_29 == lo';
    HighWordAdds(q, p, carry);
  }

  /** The sum may itself wrap at 64 bits without changing its low 29. */
  lemma LowWordWraps(lo: nat, size: nat)
    requires lo < TWO_TO_THE_29 && size < TWO_TO_THE_64
    ensures (lo + size) % TWO_TO_THE_64 % TWO_TO_THE_29
         == (var s := lo + size % TWO_TO_THE_29; if s < TWO_TO_THE_29 then s else s - TWO_TO_THE_29)
  {
    var s, r, p := lo + size, size % TWO_TO_THE_29, size / TWO_TO_THE_29;
    var w := if s < TWO_TO_THE_64 then s else s - TWO_TO_THE_64;
    assert s % TWO_TO_THE_64 == w;
    var k := if s < TWO_TO_THE_64 then p else p - TWO_TO_THE_64 / TWO_TO_THE_29;
    assert w == k * TWO_TO_THE_29 + (lo + r);
  }

  lemma HighWordAdds(q: nat, p: nat, carry: nat)
    requires carry <= 1
    ensures var hi := q % TWO_TO_THE_32;
            var hi' := if carry == 1 then (hi + 1) % TWO_TO_THE_32 else hi;
            (hi' + p) % TWO_TO_THE_32 == (q + p + carry) % TWO_TO_THE_32
  {
    var t, hi := q / TWO_TO_THE_32, q % TWO_TO_THE_32;
    var w := if hi + carry < TWO_TO_THE_32 then 0 else 1;
    assert q + p + carry == (t + w) * TWO_TO_THE_32 + (hi + carry - w * TWO_TO_THE_32 + p);
  }

  /** The low six bits of the 29-bit counter are the length modulo 64. */
  lemma LowBits(n: nat)
    ensures n % TWO_TO_THE_29 % 64 == n % 64
  {
    var q, r := n / TWO_TO_THE_29, n % TWO_TO_THE_29;
    RemainderIs(r, r / 64, r % 64);
    RemainderIs(n, 0x80_0000 * q + r / 64, r % 64);
  }

  lemma RemainderIs(n: nat, k: nat, r: nat)
    requires n == 64 * k + r && r < 64
    ensures n % 64 == r
  {}

  // ---------------------------------------------------------------- padding

  /** One more block when the tail leaves room for nine bytes, two otherwise. */
  lemma PaddingFillsBlocks(m: seq<Byte>)
    ensures var u := |m| % 64;
            if u < 56 then
              Pad(m) == Whole(m) + (Tail(m) + [0x80] + Zeros(55 - u)) + LengthBytes(|m|)
            else
              Pad(m) == Whole(m) + (Tail(m) + [0x80] + Zeros(63 - u)) + Zeros(56) + LengthBytes(|m|)
  {
    hide LengthBytes;
    var u := |m| % 64;
    assert m == Whole(m) + Tail(m);
    if u < 56 {
      assert ZeroCount(|m|) == 55 - u;
    } else {
      assert ZeroCount(|m|) == 119 - u;
      assert Zeros(119 - u) == Zeros(63 - u) + Zeros(56);
    }
  }

  /** The bit length modulo 2^64 is the low word shifted by three and the high word. */
  lemma BitLength(n: nat)
    ensures 8 * n % TWO_TO_THE_64
         == n % TWO_TO_THE_29 * 8 + n / TWO_TO_THE_29 % TWO_TO_THE_32 * TWO_TO_THE_32
  {
    var lo, q := n % TWO_TO_THE_29, n / TWO_TO_THE_29;
    var hi, top := q % TWO_TO_THE_32, q / TWO_TO_THE_32;
    assert 8 * n == top * TWO_TO_THE_64 + (lo * 8 + hi * TWO_TO_THE_32);
  }

  /** 256^k * v. */
  function Scale(v: nat, k: nat): nat
    decreases k
  {
    if k == 0 then v else 256 * Scale(v, k - 1)
  }

  lemma LowByteIgnoresHigh(lo: nat, h: nat)
    ensures LowByte(lo + 256 * h) == LowByte(lo)
  {
    assert (lo + 256 * h) % 256 == lo % 256;
  }

  /** The low bytes of a two-part number come from its low part, the others from its high part. */
  lemma {:induction false} LowFirstSplits(lo: nat, hi: nat, k: nat, j: nat)
    requires lo < Scale(1, k)
    ensures LowFirst(lo + Scale(hi, k), k + j) == LowFirst(lo, k) + LowFirst(hi, j)
  {
    hide LowByte;
    if k > 0 {
      LowByteIgnoresHigh(lo, Scale(hi, k - 1));
      var v := lo + Scale(hi, k);
      assert v / 256 == lo / 256 + Scale(hi, k - 1);
      LowFirstSplits(lo / 256, hi, k - 1, j);
      assert (k + j) - 1 == (k - 1) + j;
    }
  }

  lemma FourBytes(w: nat)
    ensures LowFirst(w, 4) == [LowByte(w), LowByte(w / 0x100), LowByte(w / 0x1_0000), LowByte(w / 0x100_0000)]
  {
    hide LowByte;
    var w1, w2, w3 := w / 0x100, w / 0x1_0000, w / 0x100_0000;
    assert w2 == w1 / 256 && w3 == w2 / 256;
    assert LowFirst(w3, 1) == [LowByte(w3)];
    assert LowFirst(w2, 2) == [LowByte(w2)] + LowFirst(w3, 1);
    assert LowFirst(w1, 3) == [LowByte(w1)] + LowFirst(w2, 2);
  }

  /** The eight length bytes are the four of the shifted low word and the four of the high word. */
  lemma LengthBytesAreCounter(n: nat)
    ensures LengthBytes(n) == LowFirst(n % TWO_TO_THE_29 * 8 % TWO_TO_THE_32, 4)
                            + LowFirst(n / TWO_TO_THE_29 % TWO_TO_THE_32, 4)
  {
    hide LowFirst;
    BitLength(n);
    var lo, hi := n % TWO_TO_THE_29 * 8, n / TWO_TO_THE_29 % TWO_TO_THE_32;
    assert Scale(1, 4) == TWO_TO_THE_32 && Scale(hi, 4) == hi * TWO_TO_THE_32;
    LowFirstSplits(lo, hi, 4, 4);
  }

  /** The appended part never holds a whole superfluous block: section 3.1 asks for the least. */
  lemma PaddingIsMinimal(n: nat, z: nat)
    requires (n + 9 + z) % 64 == 0
    ensures ZeroCount(n) <= z && |Padding(n)| < 9 + 64
  {
    var r := n % 64;
    assert (r + 9 + z) % 64 == 0;
  }

  function ByteValue(b: Byte): nat {
    b as nat
  }

  lemma LowByteValue(v: nat)
    ensures ByteValue(LowByte(v)) == v % 256
  {
    Casts.ByteRoundTrip(v % 256);
  }

  /** The number that bytes stand for, low-order byte first. */
  function Number(r: seq<Byte>): nat {
    if |r| == 0 then 0 else ByteValue(r[0]) + 256 * Number(r[1..])
  }

  lemma {:induction false} LowFirstIsNumber(v: nat, k: nat)
    requires v < Scale(1, k)
    ensures Number(LowFirst(v, k)) == v
  {
    hide LowByte, ByteValue;
    if k > 0 {
      LowByteValue(v);
      LowFirstIsNumber(v / 256, k - 1);
      assert LowFirst(v, k)[1..] == LowFirst(v / 256, k - 1);
    }
  }

  /** The length bytes stand for the bit length. */
  lemma LengthIsNumber(n: nat)
    ensures Number(LengthBytes(n)) == 8 * n % TWO_TO_THE_64
  {
    hide Number, LowFirst;
    assert Scale(1, 8) == TWO_TO_THE_64;
    LowFirstIsNumber(8 * n % TWO_TO_THE_64, 8);
  }

  /** Messages of any length are told apart by their padded blocks. */
  lemma PadInjective(m1: seq<Byte>, m2: seq<Byte>)
    requires Pad(m1) == Pad(m2)
    ensures m1 == m2
  {
    LengthsAreClose(m1, m2);
    hide Padding, Pad;
    LengthAtEnd(m1);
    LengthAtEnd(m2);
    LengthBytesRepeat(|m1|, |m2|);
    CloseAndCongruent(|m1|, |m2|);
    MessageStarts(m1);
    MessageStarts(m2);
  }

  lemma MessageStarts(m: seq<Byte>)
    ensures |m| <= |Pad(m)| && Pad(m)[..|m|] == m
  {
    hide Padding;
  }

  /** At most 72 bytes are appended, at least 9, so padded forms of one length leave little to differ by. */
  lemma LengthsAreClose(m1: seq<Byte>, m2: seq<Byte>)
    requires |Pad(m1)| == |Pad(m2)|
    ensures |m1| < |m2| + 64 && |m2| < |m1| + 64
  {
    hide LengthBytes;
  }

  lemma CloseAndCongruent(n1: nat, n2: nat)
    requires n1 < n2 + 64 && n2 < n1 + 64 && n1 % TWO_TO_THE_61 == n2 % TWO_TO_THE_61
    ensures n1 == n2
  {
    var q1, q2 := n1 / TWO_TO_THE_61, n2 / TWO_TO_THE_61;
    assert n1 - n2 == TWO_TO_THE_61 * (q1 - q2);
  }

  lemma LengthAtEnd(m: seq<Byte>)
    ensures |Pad(m)| >= 8 && Pad(m)[|Pad(m)| - 8..] == LengthBytes(|m|)
  {
    hide LengthBytes;
  }

  /** The length bytes alone tell lengths apart only up to multiples of 2^61. */
  lemma LengthBytesRepeat(n1: nat, n2: nat)
    ensures LengthBytes(n1) == LengthBytes(n2) <==> n1 % TWO_TO_THE_61 == n2 % TWO_TO_THE_61
  {
    hide LengthBytes, Number;
    LengthIsNumber(n1);
    LengthIsNumber(n2);
    BitsOfLength(n1);
    BitsOfLength(n2);
    if n1 % TWO_TO_THE_61 == n2 % TWO_TO_THE_61 {
      SameBits(n1, n2);
    }
  }

  lemma SameBits(n1: nat, n2: nat)
    requires 8 * n1 % TWO_TO_THE_64 == 8 * n2 % TWO_TO_THE_64
    ensures LengthBytes(n1) == LengthBytes(n2)
  {}

  lemma BitsOfLength(n: nat)
    ensures 8 * n % TWO_TO_THE_64 == 8 * (n % TWO_TO_THE_61)
  {
    var q, r := n / TWO_TO_THE_61, n % TWO_TO_THE_61;
    assert 8 * n == TWO_TO_THE_64 * q + 8 * r;
  }
}
