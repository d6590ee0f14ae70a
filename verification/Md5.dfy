/**
 The streaming context: a partial-block buffer, a byte counter split into 29 and 32 bits,
 and the chaining registers.  The class invariant ties the context to the whole message
 seen so far, so the digest does not depend on how the message was cut.
 */
module Md5 {
  import opened Rfc1321
  import opened Md5Facts
  import opened Md5Steps

  /** After all four rounds and the final additions, one block has been compressed. */
  lemma RoundsAreCompress(s: Chain, block: seq<Byte>, a: Word, b: Word, c: Word, d: Word)
    requires |block| == 64 && At(64, s, Words(block), a, b, c, d)
    ensures Compress(s, block) == Chain(Plus(a, s.a), Plus(b, s.b), Plus(c, s.c), Plus(d, s.d))
  {
    hide Operations, Words, Plus;
  }

  class Context {
    var lo: nat
    var hi: nat
    var a: Word
    var b: Word
    var c: Word
    var d: Word
    const buffer: array<Byte>
    const block: array<Word>
    ghost var message: seq<Byte>

    ghost function Registers(): Chain
      reads this
    {
      Chain(a, b, c, d)
    }

    /** `lo` and `hi` count the bytes, the registers hold every whole block, the buffer holds the rest. */
    ghost predicate Valid()
      reads this, buffer
    {
      && buffer.Length == 64 && block.Length == 16
      && lo == |message| % TWO_TO_THE_29
      && hi == |message| / TWO_TO_THE_29 % TWO_TO_THE_32
      && Registers() == Absorb(IV, Whole(message))
      && buffer[..|message| % 64] == Tail(message)
    }

    /** Storage for a context; its contents are arbitrary until `Init`. */
    constructor ()
      ensures buffer.Length == 64 && block.Length == 16
      ensures fresh(buffer) && fresh(block)
    {
      buffer := new Byte[64];
      block := new Word[16];
    }

    method Init()
      requires buffer.Length == 64 && block.Length == 16
      modifies this
      ensures Valid() && message == []
    {
      a, b, c, d := 0x67452301, 0xefcdab89, 0x98badcfe, 0x10325476;
      lo, hi := 0, 0;
      message := [];
    }

    /** Compresses the first `size` bytes of `data` and returns what follows them. */
    method Body(data: seq<Byte>, size: nat) returns (rest: seq<Byte>)
      requires block.Length == 16
      requires 0 < size <= |data| && size % 64 == 0
      modifies `a, `b, `c, `d, block
      ensures Registers() == Absorb(old(Registers()), data[..size])
      ensures size == |data| ==> Registers() == Absorb(old(Registers()), data)
      ensures rest == data[size..]
    {
      hide Compress, Words, At, Absorb, Plus;
      AbsorbNothing(Registers());
      var a', b', c', d' := a, b, c, d;
      ghost var start := Registers();
      var ptr, left := data, size;
      while true
        invariant 0 < left <= size && left % 64 == 0
        invariant ptr == data[size - left..]
        invariant Chain(a', b', c', d') == Absorb(start, data[..size - left])
        decreases left
      {
        var savedA, savedB, savedC, savedD := a', b', c', d';
        ghost var s, x := Chain(a', b', c', d'), Words(ptr[..64]);

        a', b', c', d' := Round1(block, ptr[..64], a', b', c', d');
        a', b', c', d' := Round2(block, a', b', c', d', s, x);
        a', b', c', d' := Round3(block, a', b', c', d', s, x);
        a', b', c', d' := Round4(block, a', b', c', d', s, x);
        RoundsAreCompress(s, ptr[..64], a', b', c', d');

        a' := Plus(a', savedA);
        b' := Plus(b', savedB);
        c' := Plus(c', savedC);
        d' := Plus(d', savedD);

        assert data[..size - left] + ptr[..64] == data[..size - left + 64];
        AbsorbConcat(start, data[..size - left], ptr[..64]);
        AbsorbBlock(s, ptr[..64]);

        ptr := ptr[64..];
        left := left - 64;
        if left == 0 {
          break;
        }
      }
      a, b, c, d := a', b', c', d';
      rest := ptr;
      assert size == |data| ==> data[..size] == data;
    }

    /** The byte counter, advanced by `size`. */
    method Count(size: nat)
      requires size < TWO_TO_THE_64
      requires lo == |message| % TWO_TO_THE_29 && hi == |message| / TWO_TO_THE_29 % TWO_TO_THE_32
      modifies `lo, `hi
      ensures lo == (|message| + size) % TWO_TO_THE_29
      ensures hi == (|message| + size) / TWO_TO_THE_29 % TWO_TO_THE_32
    {
      CounterAdvances(|message|, size);
      var savedLo := lo;
      lo := (savedLo + size) % TWO_TO_THE_64 % TWO_TO_THE_29;
      if lo < savedLo {
        hi := (hi + 1) % TWO_TO_THE_32;
      }
      hi := (hi + size / TWO_TO_THE_29) % TWO_TO_THE_32;
    }

    /** Feeds `data`; afterwards the context stands for the longer message. */
    method Update(data: seq<Byte>)
      requires Valid() && |data| < TWO_TO_THE_64
      modifies this, buffer, block
      ensures Valid() && message == old(message) + data
    {
      hide Absorb, Whole, Tail;
      var used, size, ptr := lo % 64, |data|, data;
      ghost var m := message;
      LowBits(|m|);
      Count(size);
      message := m + data;

      if used != 0 {
        var available := 64 - used;
        if size < available {
          TailGrows(m, data);
          Copy(buffer, used, data, size);
          assert buffer[..used + size] == Tail(m) + data;
          return;
        }
        TailFills(m, data[..available]);
        Copy(buffer, used, data, available);
        assert buffer[..] == Tail(m) + data[..available];
        AbsorbConcat(IV, Whole(m), buffer[..]);
        ptr := data[available..];
        size := size - available;
        var _ := Body(buffer[..], 64);
        m := m + data[..available];
        assert m + ptr == message;
      } else {
        WholeMessage(m);
      }
      FinishUpdate(ptr, size, m);
    }

    /** The last part of `Update`, entered when the message fed so far fills its blocks. */
    method FinishUpdate(data: seq<Byte>, length: nat, ghost m: seq<Byte>)
      requires buffer.Length == 64 && block.Length == 16 && length == |data|
      requires |m| % 64 == 0 && message == m + data && Registers() == Absorb(IV, m)
      modifies `a, `b, `c, `d, buffer, block
      ensures Registers() == Absorb(IV, Whole(message))
      ensures buffer[..|message| % 64] == Tail(message)
    {
      hide Absorb, Whole, Tail;
      WholeExtends(m, data);
      var ptr, size := data, length;
      if size >= 64 {
        AbsorbConcat(IV, m, data[..size - size % 64]);
        ptr := Body(data, size - size % 64);
        size := size % 64;
      } else {
        assert m + data[..0] == m;
      }
      Copy(buffer, 0, ptr, size);
    }

    /** Pads, compresses the last blocks, writes the digest and clears the context. */
    method Final(result: array<Byte>)
      requires Valid() && result.Length >= 16 && result != buffer
      modifies this, buffer, block, result
      ensures result[..16] == Digest(old(message))
      ensures result[16..] == old(result[16..])
      ensures lo == hi == 0 && Registers() == Chain(0, 0, 0, 0)
      ensures buffer[..] == Zeros(64) && forall i | 0 <= i < 16 :: block[i] == 0
    {
      hide Absorb, Whole, Tail, Pad, LengthBytes;
      ghost var m := message;
      LowBits(|m|);
      PaddingFillsBlocks(m);
      var used := lo % 64;
      buffer[used] := 0x80;
      used := used + 1;
      var available := 64 - used;
      ghost var done := Whole(m);
      if available < 8 {
        Clear(buffer, used, available);
        assert buffer[..] == Tail(m) + [0x80] + Zeros(available);
        AbsorbConcat(IV, done, buffer[..]);
        done := done + buffer[..];
        var _ := Body(buffer[..], 64);
        assert Registers() == Absorb(IV, done);
        used := 0;
        available := 64;
        Clear(buffer, used, available - 8);
        assert buffer[..56] == Zeros(56);
      } else {
        Clear(buffer, used, available - 8);
        assert buffer[..56] == Tail(m) + [0x80] + Zeros(available - 8);
      }
      FinishFinal(result, m, done);
    }

    /** The last part of `Final`: the length, the last block and the output. */
    method FinishFinal(result: array<Byte>, ghost m: seq<Byte>, ghost done: seq<Byte>)
      requires buffer.Length == 64 && block.Length == 16 && result.Length >= 16 && result != buffer
      requires lo == |m| % TWO_TO_THE_29 && hi == |m| / TWO_TO_THE_29 % TWO_TO_THE_32
      requires |done| % 64 == 0 && Registers() == Absorb(IV, done)
      requires done + buffer[..56] + LengthBytes(|m|) == Pad(m)
      modifies this, buffer, block, result
      ensures result[..16] == Digest(m)
      ensures result[16..] == old(result[16..])
      ensures lo == hi == 0 && Registers() == Chain(0, 0, 0, 0)
      ensures buffer[..] == Zeros(64) && forall i | 0 <= i < 16 :: block[i] == 0
    {
      hide Absorb, Pad, LengthBytes, LowFirst, Bytes;
      LengthBytesAreCounter(|m|);
      lo := lo * 8 % TWO_TO_THE_32;
      StoreCounter(buffer, 56, lo);
      StoreCounter(buffer, 60, hi);
      assert buffer[..] == buffer[..56] + LengthBytes(|m|);
      assert done + buffer[..] == Pad(m);
      AbsorbConcat(IV, done, buffer[..]);
      var _ := Body(buffer[..], 64);

      Emit(result);
      Wipe();
    }

    /** Writes the registers to the first sixteen bytes of `result`. */
    method Emit(result: array<Byte>)
      requires result.Length >= 16
      modifies result
      ensures result[..16] == Output(Registers()) && result[16..] == old(result[16..])
    {
      hide Bytes;
      ghost var r := result[..];
      StoreRegister(result, 0, a);
      assert result[..4] == Bytes(a) && result[4..] == r[4..];
      StoreRegister(result, 4, b);
      assert result[..8] == Bytes(a) + Bytes(b) && result[8..] == r[8..];
      StoreRegister(result, 8, c);
      assert result[..12] == Bytes(a) + Bytes(b) + Bytes(c) && result[12..] == r[12..];
      StoreRegister(result, 12, d);
    }

    /** memset(ctx, 0, sizeof(*ctx)). */
    method Wipe()
      requires buffer.Length == 64 && block.Length == 16
      modifies this, buffer, block
      ensures lo == hi == 0 && Registers() == Chain(0, 0, 0, 0)
      ensures buffer[..] == Zeros(64) && forall i | 0 <= i < 16 :: block[i] == 0
    {
      lo, hi, a, b, c, d := 0, 0, 0, 0, 0, 0;
      Clear(buffer, 0, 64);
      forall i | 0 <= i < 16 {
        block[i] := 0;
      }
    }
  }

  /** Four assignments that store a counter word, low-order byte first. */
  method StoreCounter(to: array<Byte>, at: nat, w: nat)
    requires at + 4 <= to.Length
    modifies to
    ensures to[..] == old(to[..at]) + LowFirst(w, 4) + old(to[at + 4..])
  {
    FourBytes(w);
    hide LowFirst, LowByte;
    to[at] := LowByte(w);
    to[at + 1] := LowByte(w / 0x100);
    to[at + 2] := LowByte(w / 0x1_0000);
    to[at + 3] := LowByte(w / 0x100_0000);
    assert to[at..at + 4] == LowFirst(w, 4);
  }

  /** Four assignments that store a register, low-order byte first. */
  method StoreRegister(to: array<Byte>, at: nat, w: Word)
    requires at + 4 <= to.Length
    modifies to
    ensures to[..] == old(to[..at]) + Bytes(w) + old(to[at + 4..])
  {
    hide Byte0, Byte1, Byte2, Byte3;
    to[at] := Byte0(w);
    to[at + 1] := Byte1(w);
    to[at + 2] := Byte2(w);
    to[at + 3] := Byte3(w);
    assert to[at..at + 4] == Bytes(w);
  }

  /** memset(&to[at], 0, n). */
  method Clear(to: array<Byte>, at: nat, n: nat)
    requires at + n <= to.Length
    modifies to
    ensures to[..] == old(to[..at]) + Zeros(n) + old(to[at + n..])
  {
    forall i | 0 <= i < n {
      to[at + i] := 0;
    }
  }

  /** memcpy(&to[at], from, n). */
  method Copy(to: array<Byte>, at: nat, from: seq<Byte>, n: nat)
    requires n <= |from| && at + n <= to.Length
    modifies to
    ensures to[..] == old(to[..at]) + from[..n] + old(to[at + n..])
  {
    forall i | 0 <= i < n {
      to[at + i] := from[i];
    }
  }

  // ---------------------------------------------------------------- any way of cutting

  function Flatten(chunks: seq<seq<Byte>>): seq<Byte> {
    if |chunks| == 0 then [] else Flatten(chunks[..|chunks| - 1]) + chunks[|chunks| - 1]
  }

  /** Init, one Update for each chunk, Final: the digest of the whole message. */
  method DigestOfChunks(chunks: seq<seq<Byte>>) returns (digest: seq<Byte>)
    requires forall k | 0 <= k < |chunks| :: |chunks[k]| < TWO_TO_THE_64
    ensures digest == Digest(Flatten(chunks))
  {
    hide Digest;
    var context := new Context();
    context.Init();
    for k := 0 to |chunks|
      invariant context.Valid() && context.message == Flatten(chunks[..k])
      invariant fresh(context) && fresh(context.buffer) && fresh(context.block)
    {
      context.Update(chunks[k]);
      assert chunks[..k + 1][..k] == chunks[..k];
    }
    assert chunks[..|chunks|] == chunks;
    var result := new Byte[16];
    context.Final(result);
    digest := result[..16];
  }
}
