/**
 The Base64 encoder and decoder of the Basic authentication build.  Both write at most a
 caller-given number of bytes, and the encoder reads its input as signed bytes, so its
 right shifts copy the sign.
 */
module Base64 {
  import Text

  type Byte = bv8
  newtype uint16 = x: int | 0 <= x < 0x1_0000

  const PAD: Byte := 0x3D

  // ---------------------------------------------------------------- section 6.8 of RFC 2045

  /** The alphabet: A-Z, a-z, 0-9, + and /. */
  function Letter(c: Byte): Byte {
    if c < 26 then 0x41 + c
    else if c < 52 then 0x61 + (c - 26)
    else if c < 62 then 0x30 + (c - 52)
    else if c == 62 then 0x2B
    else 0x2F
  }

  /** The 24-bit group that three bytes form. */
  function Bits(b0: Byte, b1: Byte, b2: Byte): bv24 {
    (b0 as bv24 << 16) | (b1 as bv24 << 8) | b2 as bv24
  }

  /** The four six-bit digits of a group, from the left. */
  function Digit0(g: bv24): Byte { ((g >> 18) & 0x3F) as Byte }
  function Digit1(g: bv24): Byte { ((g >> 12) & 0x3F) as Byte }
  function Digit2(g: bv24): Byte { ((g >> 6) & 0x3F) as Byte }
  function Digit3(g: bv24): Byte { (g & 0x3F) as Byte }

  function Standard(x: seq<Byte>): seq<Byte> {
    if |x| == 0 then []
    else if |x| == 1 then
      var g := Bits(x[0], 0, 0);
      [Letter(Digit0(g)), Letter(Digit1(g)), PAD, PAD]
    else if |x| == 2 then
      var g := Bits(x[0], x[1], 0);
      [Letter(Digit0(g)), Letter(Digit1(g)), Letter(Digit2(g)), PAD]
    else
      var g := Bits(x[0], x[1], x[2]);
      [Letter(Digit0(g)), Letter(Digit1(g)), Letter(Digit2(g)), Letter(Digit3(g))] + Standard(x[3..])
  }

  // ---------------------------------------------------------------- the encoder's arithmetic

  /** `x >> k` on an int8_t: the sign is copied in from the left. */
  function Sar(x: Byte, k: nat): Byte
    requires k < 8
  {
    if x < 0x80 then x >> k else !(!x >> k)
  }

  function Sextet0(b0: Byte): Byte { Sar(b0, 2) & 0x3F }
  function Sextet1Head(b0: Byte): Byte { (b0 << 4) & 0x3F }
  function Sextet1Tail(c: Byte, b1: Byte): Byte { c | (Sar(b1, 4) & 0x3F) }
  function Sextet2Head(b1: Byte): Byte { (b1 << 2) & 0x3F }
  function Sextet2Tail(c: Byte, b2: Byte): Byte { c | (Sar(b2, 6) & 0x3F) }
  function Sextet3(b2: Byte): Byte { b2 & 0x3F }

  function Sextet1(b0: Byte, b1: Byte): Byte { Sextet1Tail(Sextet1Head(b0), b1) }
  function Sextet2(b1: Byte, b2: Byte): Byte { Sextet2Tail(Sextet2Head(b1), b2) }

  /** The text the encoder produces for the first group of `x`. */
  function Group(x: seq<Byte>): (g: seq<Byte>)
    requires |x| > 0
    ensures |g| == 4
  {
    if |x| == 1 then
      [Letter(Sextet0(x[0])), Letter(Sextet1Head(x[0])), PAD, PAD]
    else if |x| == 2 then
      [Letter(Sextet0(x[0])), Letter(Sextet1(x[0], x[1])), Letter(Sextet2Head(x[1])), PAD]
    else
      [Letter(Sextet0(x[0])), Letter(Sextet1(x[0], x[1])), Letter(Sextet2(x[1], x[2])), Letter(Sextet3(x[2]))]
  }

  /** The text the encoder produces when nothing is cut off. */
  function Encoded(x: seq<Byte>): seq<Byte> {
    if |x| == 0 then [] else Group(x) + (if |x| <= 3 then [] else Encoded(x[3..]))
  }

  // ---------------------------------------------------------------- the decoder's arithmetic

  function DecodeChar(c: Byte): (r: Byte)
    ensures r <= 65
  {
    if 0x41 <= c <= 0x5A then c - 0x41
    else if 0x61 <= c <= 0x7A then c - 0x61 + 26
    else if 0x30 <= c <= 0x39 then c - 0x30 + 52
    else if c == 0x2B then 62
    else if c == 0x2F then 63
    else if c == 0x3D then 64
    else 65
  }

  function Octet0(c0: Byte, c1: Byte): Byte { ((c0 << 2) & 0xFC) | ((c1 >> 4) & 0x03) }
  function Octet1(c1: Byte, c2: Byte): Byte { ((c1 << 4) & 0xF0) | ((c2 >> 2) & 0x0F) }
  function Octet2(c2: Byte, c3: Byte): Byte { ((c2 << 6) & 0xC0) | (c3 & 0x3F) }

  /** The value of character `k` of `s`; past the end it is not a digit. */
  function CharAt(s: seq<Byte>, k: nat): (r: Byte)
    ensures r < 64 ==> k < |s|
  {
    if k < |s| then DecodeChar(s[k]) else 65
  }

  /** The bytes the decoder produces from `s` when nothing is cut off. */
  function Decoded(s: seq<Byte>): seq<Byte> {
    if |s| == 0 then []
    else
      var c0, c1, c2, c3 := CharAt(s, 0), CharAt(s, 1), CharAt(s, 2), CharAt(s, 3);
      if c1 >= 64 then []
      else if c2 >= 64 then [Octet0(c0, c1)]
      else if c3 >= 64 then [Octet0(c0, c1), Octet1(c1, c2)]
      else [Octet0(c0, c1), Octet1(c1, c2), Octet2(c2, c3)] + Decoded(s[4..])
  }

  // ---------------------------------------------------------------- bounded output

  /** The first `o` bytes of `full` have been written over `before`, and nothing else. */
  ghost predicate Written<T>(before: seq<T>, out: seq<T>, full: seq<T>, o: nat) {
    |out| == |before| && o <= |full| && o <= |out| && out == full[..o] + before[o..]
  }

  /** `out` is `before` with as much of `full` as fits below `olen`, a NUL, and nothing else changed. */
  ghost predicate Truncated(before: seq<Byte>, out: seq<Byte>, full: seq<Byte>, olen: nat, count: nat) {
    && 1 <= olen <= |before|
    && count == Text.Min(|full|, olen - 1)
    && out == full[..count] + [0] + before[count + 1..]
  }

  /** output[o++] = c. */
  method Put<T>(output: array<T>, o: uint16, c: T, ghost before: seq<T>, ghost full: seq<T>) returns (o': uint16)
    requires o as int < output.Length && o < 0xFFFF
    requires Written(before, output[..], full, o as nat) && o as int < |full| && full[o] == c
    modifies output
    ensures o' == o + 1 && Written(before, output[..], full, o' as nat)
  {
    output[o] := c;
    o' := o + 1;
  }

  /** The end of both codecs: the last position is given up for the NUL when the output is full. */
  method Terminate(output: array<Byte>, o: uint16, olen: uint16, ghost before: seq<Byte>, ghost full: seq<Byte>)
    returns (count: uint16)
    requires 1 <= olen as int <= output.Length && o <= olen
    requires Written(before, output[..], full, o as nat) && (o < olen ==> o as int == |full|)
    modifies output
    ensures Truncated(before, output[..], full, olen as nat, count as nat)
  {
    count := o;
    if o >= olen {
      count := olen - 1;
    }
    output[count] := 0;
  }

  /** The body of the encoder's loop: one group, abandoned as soon as the output is full. */
  method EncodeGroup(input: seq<Byte>, i: uint16, ilen: uint16, output: array<Byte>, start: uint16, olen: uint16,
                     ghost before: seq<Byte>, ghost full: seq<Byte>)
    returns (o: uint16)
    requires i < ilen && ilen as int <= |input| && i as int % 3 == 0
    requires start <= olen && olen as int <= output.Length
    requires Written(before, output[..], full, start as nat)
    requires start as int + 4 <= |full| && full[start..start as int + 4] == Group(input[i..ilen])
    modifies output
    ensures Written(before, output[..], full, o as nat) && o as int == Text.Min(start as int + 4, olen as int) <= |full|
  {
    hide Letter, Written, Sextet0, Sextet1Head, Sextet1Tail, Sextet2Head, Sextet2Tail, Sextet3;
    ghost var x, g := input[i..ilen], full[start..start as int + 4];
    o := start;
    if o >= olen { return; }
    var c := Sextet0(input[i]);
    assert full[o] == g[0];
    o := Put(output, o, Letter(c), before, full);
    if o >= olen { return; }
    c := Sextet1Head(input[i]);
    assert full[o] == g[1];
    if i + 1 < ilen {
      c := Sextet1Tail(c, input[i + 1]);
      o := Put(output, o, Letter(c), before, full);
      if o >= olen { return; }
      c := Sextet2Head(input[i + 1]);
      assert full[o] == g[2];
      if i + 2 < ilen {
        c := Sextet2Tail(c, input[i + 2]);
        o := Put(output, o, Letter(c), before, full);
        if o >= olen { return; }
        c := Sextet3(input[i + 2]);
        assert full[o] == g[3];
        o := Put(output, o, Letter(c), before, full);
      } else {
        o := Put(output, o, Letter(c), before, full);
        if o >= olen { return; }
        assert full[o] == g[3];
        o := Put(output, o, PAD, before, full);
      }
    } else {
      o := Put(output, o, Letter(c), before, full);
      if o >= olen { return; }
      assert full[o] == g[2];
      o := Put(output, o, PAD, before, full);
      if o >= olen { return; }
      assert full[o] == g[3];
      o := Put(output, o, PAD, before, full);
    }
  }

  method Encode(input: seq<Byte>, ilen: uint16, output: array<Byte>, olen: uint16) returns (count: uint16)
    requires ilen as int <= |input| && 1 <= olen as int <= output.Length
    modifies output
    ensures Truncated(old(output[..]), output[..], Encoded(input[..ilen]), olen as nat, count as nat)
  {
    hide Group, Encoded, Written;
    EncodedStarts([]);
    ghost var x, before := input[..ilen], output[..];
    ghost var full := Encoded(x);
    WrittenNothing(before, full);
    var i: uint16 := 0;
    var o: uint16 := 0;
    while i < ilen
      invariant i as int % 3 == 0 && i as int <= ilen as int + 2
      invariant o <= olen && Written(before, output[..], full, o as nat) && o as int <= |full|
      invariant full[o..] == if i < ilen then Encoded(x[i..]) else []
      decreases ilen as int - i as int
    {
      ghost var rest := x[i..];
      assert rest == input[i..ilen];
      EncodedStarts(rest);
      assert full[o..] == Group(rest) + (if |rest| <= 3 then [] else Encoded(rest[3..]));
      assert full[o..o as int + 4] == full[o..][..4];
      ghost var start := o;
      o := EncodeGroup(input, i, ilen, output, o, olen, before, full);
      if o >= olen {
        break;
      }
      assert full[o..] == full[start..][4..];
      assert ilen as int - i as int > 3 ==> rest[3..] == x[i as int + 3..];
      i := i + 3;
    }
    count := Terminate(output, o, olen, before, full);
  }

  method Decode(input: seq<Byte>, ilen: uint16, output: array<Byte>, olen: uint16) returns (count: uint16)
    requires ilen as int <= |input| && 1 <= olen as int <= output.Length
    modifies output
    ensures Truncated(old(output[..]), output[..], Decoded(input[..ilen]), olen as nat, count as nat)
  {
    hide DecodeChar, Octet0, Octet1, Octet2, Written;
    ghost var x, before := input[..ilen], output[..];
    ghost var full := Decoded(x);
    assert Written(before, output[..], full, 0) by { WrittenNothing(before, full); }
    var i: uint16 := 0;
    var o: uint16 := 0;
    while i < ilen
      invariant i as int % 4 == 0 && i <= ilen
      invariant o <= olen && Written(before, output[..], full, o as nat) && o as int <= |full|
      invariant full[o..] == Decoded(x[i..])
    {
      ghost var rest, start := x[i..], o;
      var c0 := DecodeChar(input[i]);
      var c1 := if i + 1 < ilen then DecodeChar(input[i + 1]) else 65;
      var c2 := if i + 2 < ilen then DecodeChar(input[i + 2]) else 65;
      var c3 := if i + 3 < ilen then DecodeChar(input[i + 3]) else 65;
      assert c0 == CharAt(rest, 0) && c1 == CharAt(rest, 1) && c2 == CharAt(rest, 2) && c3 == CharAt(rest, 3);
      if o >= olen { break; }
      if c1 < 64 {
        assert full[start] == full[start..][0];
        o := Put(output, o, Octet0(c0, c1), before, full);
        if o >= olen { break; }
        if c2 < 64 {
          assert full[start + 1] == full[start..][1];
          o := Put(output, o, Octet1(c1, c2), before, full);
          if o >= olen { break; }
          if c3 < 64 {
            assert full[start + 2] == full[start..][2];
            o := Put(output, o, Octet2(c2, c3), before, full);
            assert full[o..] == full[start..][3..];
            if o >= olen { break; }
          } else {
            break;
          }
        } else {
          break;
        }
      } else {
        break;
      }
      assert rest[4..] == x[i as int + 4..];
      i := i + 4;
    }
    assert o < olen ==> o as int == |full|;
    count := Terminate(output, o, olen, before, full);
  }

  lemma EncodedStarts(x: seq<Byte>)
    ensures Encoded(x) == if |x| == 0 then [] else Group(x) + (if |x| <= 3 then [] else Encoded(x[3..]))
  {
    hide Group;
  }

  lemma WrittenNothing<T>(before: seq<T>, full: seq<T>)
    ensures Written(before, before, full, 0)
  {}
}
