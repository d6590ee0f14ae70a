/**
 What the two codecs are for: the text is the standard's, and decoding undoes encoding.
 Both hold exactly for the inputs whose negative bytes the sign-copying shifts spare.
 */
module Base64Laws {
  import opened Base64

  // ---------------------------------------------------------------- letters and digits

  /** The alphabet of section 6.8 of RFC 2045, letter by letter: A-Z, a-z, 0-9, + and /. */
  lemma LettersAre()
    ensures Letter(0) == 0x41 && Letter(1) == 0x42 && Letter(2) == 0x43 && Letter(3) == 0x44  // ABCD
    ensures Letter(4) == 0x45 && Letter(5) == 0x46 && Letter(6) == 0x47 && Letter(7) == 0x48  // EFGH
    ensures Letter(8) == 0x49 && Letter(9) == 0x4a && Letter(10) == 0x4b && Letter(11) == 0x4c  // IJKL
    ensures Letter(12) == 0x4d && Letter(13) == 0x4e && Letter(14) == 0x4f && Letter(15) == 0x50  // MNOP
    ensures Letter(16) == 0x51 && Letter(17) == 0x52 && Letter(18) == 0x53 && Letter(19) == 0x54  // QRST
    ensures Letter(20) == 0x55 && Letter(21) == 0x56 && Letter(22) == 0x57 && Letter(23) == 0x58  // UVWX
    ensures Letter(24) == 0x59 && Letter(25) == 0x5a && Letter(26) == 0x61 && Letter(27) == 0x62  // YZab
    ensures Letter(28) == 0x63 && Letter(29) == 0x64 && Letter(30) == 0x65 && Letter(31) == 0x66  // cdef
    ensures Letter(32) == 0x67 && Letter(33) == 0x68 && Letter(34) == 0x69 && Letter(35) == 0x6a  // ghij
    ensures Letter(36) == 0x6b && Letter(37) == 0x6c && Letter(38) == 0x6d && Letter(39) == 0x6e  // klmn
    ensures Letter(40) == 0x6f && Letter(41) == 0x70 && Letter(42) == 0x71 && Letter(43) == 0x72  // opqr
    ensures Letter(44) == 0x73 && Letter(45) == 0x74 && Letter(46) == 0x75 && Letter(47) == 0x76  // stuv
    ensures Letter(48) == 0x77 && Letter(49) == 0x78 && Letter(50) == 0x79 && Letter(51) == 0x7a  // wxyz
    ensures Letter(52) == 0x30 && Letter(53) == 0x31 && Letter(54) == 0x32 && Letter(55) == 0x33  // 0123
    ensures Letter(56) == 0x34 && Letter(57) == 0x35 && Letter(58) == 0x36 && Letter(59) == 0x37  // 4567
    ensures Letter(60) == 0x38 && Letter(61) == 0x39 && Letter(62) == 0x2b && Letter(63) == 0x2f  // 89+/
  {}

  /** The bytes of "Man", of "Ma" and of "M". */
  lemma ManIsTWFu()
    ensures Standard([0x4d, 0x61, 0x6e]) == [0x54, 0x57, 0x46, 0x75]
    ensures Standard([0x4d, 0x61]) == [0x54, 0x57, 0x45, 0x3d]
    ensures Standard([0x4d]) == [0x54, 0x51, 0x3d, 0x3d]
  {
    assert [0x4d, 0x61, 0x6e as Byte][3..] == [];
  }

  lemma LetterDecodes(c: Byte)
    requires c < 64
    ensures DecodeChar(Letter(c)) == c && Letter(c) != PAD
  {}

  lemma DigitEncodes(c: Byte)
    requires DecodeChar(c) < 64
    ensures Letter(DecodeChar(c)) == c && c != PAD
  {}

  lemma PadIsNoDigit()
    ensures DecodeChar(PAD) == 64
  {}

  lemma DigitsAreSmall(g: bv24)
    ensures Digit0(g) < 64 && Digit1(g) < 64 && Digit2(g) < 64 && Digit3(g) < 64
  {}

  lemma DigitsOfOctets(c0: Byte, c1: Byte, c2: Byte, c3: Byte)
    requires c0 < 64 && c1 < 64 && c2 < 64 && c3 < 64
    ensures var g := Bits(Octet0(c0, c1), Octet1(c1, c2), Octet2(c2, c3));
            Digit0(g) == c0 && Digit1(g) == c1 && Digit2(g) == c2 && Digit3(g) == c3
  {}

  // ---------------------------------------------------------------- where the sign does no harm

  /** A byte that follows the first of its group. */
  predicate SparesFirst(b0: Byte, b1: Byte) {
    b1 < 0x80 || b0 & 0x03 == 0x03
  }

  /** A byte that follows the second of its group. */
  predicate SparesSecond(b1: Byte, b2: Byte) {
    b2 < 0x80 || b1 & 0x0F == 0x0F
  }

  predicate CleanAt(x: seq<Byte>, i: nat)
    requires 0 < i < |x|
  {
    && (i % 3 == 1 ==> SparesFirst(x[i - 1], x[i]))
    && (i % 3 == 2 ==> SparesSecond(x[i - 1], x[i]))
  }

  /** Every negative byte that is not the first of its group follows a byte whose carried-over bits are all ones. */
  ghost predicate Clean(x: seq<Byte>) {
    forall i: nat | 0 < i < |x| :: CleanAt(x, i)
  }

  lemma PlainBytesAreClean(x: seq<Byte>)
    requires forall k | 0 <= k < |x| :: x[k] < 0x80
    ensures Clean(x)
  {}

  predicate CleanGroup(x: seq<Byte>) {
    && (|x| >= 2 ==> SparesFirst(x[0], x[1]))
    && (|x| >= 3 ==> SparesSecond(x[1], x[2]))
  }

  lemma CleanByGroups(x: seq<Byte>)
    ensures Clean(x) <==> CleanGroup(x) && (|x| > 3 ==> Clean(x[3..]))
  {
    hide SparesFirst, SparesSecond;
    if Clean(x) {
      assert |x| >= 2 ==> CleanAt(x, 1);
      assert |x| >= 3 ==> CleanAt(x, 2);
      if |x| > 3 {
        forall i: nat | 0 < i < |x| - 3 ensures CleanAt(x[3..], i) {
          assert CleanAt(x, i + 3);
        }
      }
    }
    if CleanGroup(x) && (|x| > 3 ==> Clean(x[3..])) {
      forall i: nat | 0 < i < |x| ensures CleanAt(x, i) {
        assert i > 3 ==> CleanAt(x[3..], i - 3);
      }
    }
  }

  // ---------------------------------------------------------------- the encoder's digits

  lemma SextetsAreSmall(b0: Byte, b1: Byte, b2: Byte)
    ensures Sextet0(b0) < 64 && Sextet1Head(b0) < 64 && Sextet1(b0, b1) < 64
    ensures Sextet2Head(b1) < 64 && Sextet2(b1, b2) < 64 && Sextet3(b2) < 64
  {}

  lemma FirstAndLastDigits(b0: Byte, b1: Byte, b2: Byte)
    ensures Sextet0(b0) == Digit0(Bits(b0, b1, b2)) && Sextet3(b2) == Digit3(Bits(b0, b1, b2))
    ensures Sextet1Head(b0) == Digit1(Bits(b0, 0, b2)) && Sextet2Head(b1) == Digit2(Bits(b0, b1, 0))
  {}

  lemma SecondDigit(b0: Byte, b1: Byte, b2: Byte)
    ensures Sextet1(b0, b1) == Digit1(Bits(b0, b1, b2)) <==> SparesFirst(b0, b1)
  {}

  lemma ThirdDigit(b0: Byte, b1: Byte, b2: Byte)
    ensures Sextet2(b1, b2) == Digit2(Bits(b0, b1, b2)) <==> SparesSecond(b1, b2)
  {}

  lemma LettersAreDistinct(c: Byte, d: Byte)
    requires c < 64 && d < 64
    ensures Letter(c) == Letter(d) <==> c == d
  {
    LetterDecodes(c);
    LetterDecodes(d);
  }

  lemma ShortGroup(x: seq<Byte>)
    requires 1 <= |x| <= 2
    ensures Group(x) == Standard(x) <==> CleanGroup(x)
  {
    hide Letter, Sextet0, Sextet1, Sextet1Head, Sextet2Head, Bits, Digit0, Digit1, Digit2, SparesFirst;
    if |x| == 1 {
      FirstAndLastDigits(x[0], 0, 0);
    } else {
      FirstAndLastDigits(x[0], x[1], 0);
      SecondDigit(x[0], x[1], 0);
      SextetsAreSmall(x[0], x[1], 0);
      DigitsAreSmall(Bits(x[0], x[1], 0));
      LettersAreDistinct(Sextet1(x[0], x[1]), Digit1(Bits(x[0], x[1], 0)));
    }
  }

  lemma FullGroup(x: seq<Byte>)
    requires |x| >= 3
    ensures Group(x) == Standard(x)[..4] <==> CleanGroup(x)
  {
    hide Letter, Sextet0, Sextet1, Sextet2, Sextet3, Bits, Digit0, Digit1, Digit2, Digit3, SparesFirst, SparesSecond;
    var b0, b1, b2 := x[0], x[1], x[2];
    var g := Bits(b0, b1, b2);
    FirstAndLastDigits(b0, b1, b2);
    SecondDigit(b0, b1, b2);
    ThirdDigit(b0, b1, b2);
    SextetsAreSmall(b0, b1, b2);
    DigitsAreSmall(g);
    LettersAreDistinct(Sextet1(b0, b1), Digit1(g));
    LettersAreDistinct(Sextet2(b1, b2), Digit2(g));
    assert Standard(x)[..4] == [Letter(Digit0(g)), Letter(Digit1(g)), Letter(Digit2(g)), Letter(Digit3(g))];
  }

  /** The encoder produces the standard's text exactly when its input is clean. */
  lemma {:induction false} EncodedIsStandard(x: seq<Byte>)
    ensures Encoded(x) == Standard(x) <==> Clean(x)
  {
    hide Group, CleanGroup, Letter, Bits, Digit0, Digit1, Digit2, Digit3, Clean;
    if |x| == 0 {
      assert Clean(x) by { EmptyIsClean(x); }
    } else if |x| <= 2 {
      CleanByGroups(x);
      ShortGroup(x);
    } else {
      CleanByGroups(x);
      FullGroup(x);
      var head, tail := Standard(x)[..4], x[3..];
      assert Standard(x) == head + Standard(tail);
      EncodedIsStandard(tail);
      EmptyIsClean([]);
      var rest := if |x| <= 3 then [] else Encoded(tail);
      assert rest == Encoded(tail);
      assert Encoded(x)[..4] == Group(x) && Encoded(x)[4..] == rest;
    }
  }

  lemma EmptyIsClean(x: seq<Byte>)
    requires |x| == 0
    ensures Clean(x)
  {}

  // ---------------------------------------------------------------- decoding undoes encoding

  /** Decoding a text that starts with four letters. */
  lemma DecodedLetters(c0: Byte, c1: Byte, c2: Byte, c3: Byte, s: seq<Byte>)
    requires c0 < 64 && c1 < 64 && c2 < 64 && c3 < 64
    ensures Decoded([Letter(c0), Letter(c1), Letter(c2), Letter(c3)] + s)
         == [Octet0(c0, c1), Octet1(c1, c2), Octet2(c2, c3)] + Decoded(s)
  {
    hide Letter, DecodeChar, Octet0, Octet1, Octet2;
    LetterDecodes(c0);
    LetterDecodes(c1);
    LetterDecodes(c2);
    LetterDecodes(c3);
    var t := [Letter(c0), Letter(c1), Letter(c2), Letter(c3)] + s;
    assert t[4..] == s;
  }

  /** Decoding a text that ends in padding. */
  lemma DecodedPadded(c0: Byte, c1: Byte, c2: Byte)
    requires c0 < 64 && c1 < 64 && c2 < 64
    ensures Decoded([Letter(c0), Letter(c1), PAD, PAD]) == [Octet0(c0, c1)]
    ensures Decoded([Letter(c0), Letter(c1), Letter(c2), PAD]) == [Octet0(c0, c1), Octet1(c1, c2)]
  {
    hide Letter, DecodeChar, Octet0, Octet1, Octet2;
    LetterDecodes(c0);
    LetterDecodes(c1);
    LetterDecodes(c2);
    PadIsNoDigit();
  }

  lemma FirstOctet(b0: Byte, b1: Byte)
    ensures Octet0(Sextet0(b0), Sextet1Head(b0)) == b0
    ensures Octet0(Sextet0(b0), Sextet1(b0, b1)) == b0 <==> SparesFirst(b0, b1)
  {}

  lemma SecondOctet(b0: Byte, b1: Byte, b2: Byte)
    ensures Octet1(Sextet1(b0, b1), Sextet2Head(b1)) == b1
    ensures Octet1(Sextet1(b0, b1), Sextet2(b1, b2)) == b1 <==> SparesSecond(b1, b2)
  {}

  lemma ThirdOctet(b1: Byte, b2: Byte)
    ensures Octet2(Sextet2(b1, b2), Sextet3(b2)) == b2
  {}

  /** Decoding gives back what was encoded exactly when it was clean. */
  lemma {:induction false} RoundTrip(x: seq<Byte>)
    ensures Decoded(Encoded(x)) == x <==> Clean(x)
  {
    hide Letter, Octet0, Octet1, Octet2, Sextet0, Sextet1, Sextet1Head, Sextet2, Sextet2Head, Sextet3;
    hide SparesFirst, SparesSecond, Clean, Decoded;
    if |x| == 0 {
      EmptyIsClean(x);
      assert Decoded([]) == [] by { DecodedNothing(); }
    } else {
      var b0, b1, b2 := x[0], if |x| > 1 then x[1] else 0, if |x| > 2 then x[2] else 0;
      CleanByGroups(x);
      SextetsAreSmall(b0, b1, b2);
      FirstOctet(b0, b1);
      SecondOctet(b0, b1, b2);
      ThirdOctet(b1, b2);
      if |x| == 1 {
        DecodedPadded(Sextet0(b0), Sextet1Head(b0), 0);
        assert Encoded(x) == Group(x) && x == [b0];
      } else if |x| == 2 {
        DecodedPadded(Sextet0(b0), Sextet1(b0, b1), Sextet2Head(b1));
        assert Encoded(x) == Group(x) && x == [b0, b1];
      } else {
        var tail := x[3..];
        RoundTrip(tail);
        EmptyIsClean([]);
        DecodedLetters(Sextet0(b0), Sextet1(b0, b1), Sextet2(b1, b2), Sextet3(b2), Encoded(tail));
        var y := Decoded(Encoded(x));
        assert Encoded(x) == Group(x) + Encoded(tail);
        assert y == y[..3] + y[3..] && x == [b0, b1, b2] + tail;
      }
    }
  }

  lemma DecodedNothing()
    ensures Decoded([]) == []
  {}

  /** One negative byte behind a zero byte is enough to spoil both. */
  lemma SignIsCopied()
    ensures Encoded([0, 0x80]) != Standard([0, 0x80]) && Decoded(Encoded([0, 0x80])) != [0, 0x80]
  {
    hide Encoded, Decoded, Standard;
    var x: seq<Byte> := [0, 0x80];
    assert !CleanAt(x, 1);
    EncodedIsStandard(x);
    RoundTrip(x);
  }

  // ---------------------------------------------------------------- padding is optional for the decoder

  function TrimPads(s: seq<Byte>): (r: seq<Byte>)
    ensures |r| <= |s|
  {
    if |s| > 0 && s[|s| - 1] == PAD then TrimPads(s[..|s| - 1]) else s
  }

  lemma {:induction false} LastPadIsIgnored(s: seq<Byte>)
    requires |s| > 0 && s[|s| - 1] == PAD
    ensures Decoded(s[..|s| - 1]) == Decoded(s)
  {
    hide DecodeChar, Octet0, Octet1, Octet2;
    PadIsNoDigit();
    var t := s[..|s| - 1];
    if |s| > 4 {
      LastPadIsIgnored(s[4..]);
      assert s[4..][..|s| - 5] == t[4..];
    }
  }

  /** For any text at all, removing the trailing padding changes nothing. */
  lemma {:induction false} PaddingIsOptional(s: seq<Byte>)
    ensures Decoded(TrimPads(s)) == Decoded(s)
  {
    hide Decoded;
    if |s| > 0 && s[|s| - 1] == PAD {
      LastPadIsIgnored(s);
      PaddingIsOptional(s[..|s| - 1]);
    }
  }

  // ---------------------------------------------------------------- characters that are no digits

  predicate IsDigit(c: Byte) {
    DecodeChar(c) < 64
  }

  /** The digits are the 64 letters, and no others. */
  lemma DigitsAreLetters(c: Byte)
    ensures IsDigit(c) <==> 0x41 <= c <= 0x5A || 0x61 <= c <= 0x7A || 0x30 <= c <= 0x39 || c == 0x2B || c == 0x2F
  {}

  /** Another character ends the text, unless it is the first of its group. */
  lemma {:induction false} StrayEnds(s: seq<Byte>, k: nat)
    requires k < |s| && k % 4 != 0 && !IsDigit(s[k]) && forall j | 0 <= j < k :: IsDigit(s[j])
    ensures Decoded(s) == Decoded(s[..k])
  {
    hide DecodeChar, Octet0, Octet1, Octet2;
    if k > 4 {
      StrayEnds(s[4..], k - 4);
      assert s[4..][..k - 4] == s[..k][4..];
    }
  }

  /** As the first of its group it counts as the letter A if it is the padding, and as B otherwise. */
  lemma StrayFirst(s: seq<Byte>)
    requires |s| > 0 && !IsDigit(s[0])
    ensures Decoded(s) == Decoded([if s[0] == 0x3D then 0x41 else 0x42] + s[1..])
  {
    var t := [if s[0] == 0x3D then 0x41 else 0x42] + s[1..];
    assert |s| >= 4 ==> t[4..] == s[4..];
    SameFirst(s[0], CharAt(s, 1));
    assert CharAt(t, 1) == CharAt(s, 1) && CharAt(t, 2) == CharAt(s, 2) && CharAt(t, 3) == CharAt(s, 3);
    hide DecodeChar, Octet0, Octet1, Octet2;
  }

  lemma SameFirst(c: Byte, c1: Byte)
    requires !IsDigit(c)
    ensures Octet0(DecodeChar(c), c1) == Octet0(DecodeChar(if c == 0x3D then 0x41 else 0x42), c1)
  {}

  // ---------------------------------------------------------------- encoding undoes decoding

  /** The last group of a padded text; the bits that padding leaves over are zero. */
  predicate CanonicalEnd(s: seq<Byte>) {
    && |s| == 4 && IsDigit(s[0]) && IsDigit(s[1])
    && if s[3] != PAD then IsDigit(s[2]) && IsDigit(s[3])
       else if s[2] != PAD then IsDigit(s[2]) && DecodeChar(s[2]) & 0x03 == 0
       else DecodeChar(s[1]) & 0x0F == 0
  }

  predicate Canonical(s: seq<Byte>) {
    if |s| == 0 then true
    else if |s| <= 4 then CanonicalEnd(s)
    else IsDigit(s[0]) && IsDigit(s[1]) && IsDigit(s[2]) && IsDigit(s[3]) && Canonical(s[4..])
  }

  lemma ZeroBitsAreKept(c0: Byte, c1: Byte, c2: Byte)
    requires c0 < 64 && c1 < 64 && c2 < 64
    ensures c1 & 0x0F == 0 ==>
              var g := Bits(Octet0(c0, c1), 0, 0); Digit0(g) == c0 && Digit1(g) == c1
    ensures c2 & 0x03 == 0 ==>
              var g := Bits(Octet0(c0, c1), Octet1(c1, c2), 0);
              Digit0(g) == c0 && Digit1(g) == c1 && Digit2(g) == c2
  {}

  lemma StandardLetters(b0: Byte, b1: Byte, b2: Byte, x: seq<Byte>)
    ensures Standard([b0, b1, b2] + x)
         == var g := Bits(b0, b1, b2);
            [Letter(Digit0(g)), Letter(Digit1(g)), Letter(Digit2(g)), Letter(Digit3(g))] + Standard(x)
  {
    hide Letter, Bits, Digit0, Digit1, Digit2, Digit3;
    assert ([b0, b1, b2] + x)[3..] == x;
  }

  lemma FourDigits(s: seq<Byte>)
    requires |s| >= 4 && IsDigit(s[0]) && IsDigit(s[1]) && IsDigit(s[2]) && IsDigit(s[3])
    requires Standard(Decoded(s[4..])) == s[4..]
    ensures Standard(Decoded(s)) == s
  {
    hide DecodeChar, Letter, Octet0, Octet1, Octet2, Bits, Digit0, Digit1, Digit2, Digit3, Standard;
    var c0, c1, c2, c3 := DecodeChar(s[0]), DecodeChar(s[1]), DecodeChar(s[2]), DecodeChar(s[3]);
    DigitEncodes(s[0]);
    DigitEncodes(s[1]);
    DigitEncodes(s[2]);
    DigitEncodes(s[3]);
    DigitsOfOctets(c0, c1, c2, c3);
    var rest := Decoded(s[4..]);
    assert Decoded(s) == [Octet0(c0, c1), Octet1(c1, c2), Octet2(c2, c3)] + rest;
    StandardLetters(Octet0(c0, c1), Octet1(c1, c2), Octet2(c2, c3), rest);
    assert s == [s[0], s[1], s[2], s[3]] + s[4..];
  }

  lemma PaddedEnd(s: seq<Byte>)
    requires CanonicalEnd(s) && s[3] == PAD
    ensures Standard(Decoded(s)) == s
  {
    hide DecodeChar, Letter, Octet0, Octet1, Octet2, Bits, Digit0, Digit1, Digit2, Digit3;
    PadIsNoDigit();
    var c0, c1, c2 := DecodeChar(s[0]), DecodeChar(s[1]), if s[2] == PAD then 0 else DecodeChar(s[2]);
    DigitEncodes(s[0]);
    DigitEncodes(s[1]);
    if s[2] != PAD {
      DigitEncodes(s[2]);
    }
    ZeroBitsAreKept(c0, c1, c2);
  }

  /** A canonical text is the standard's text of what it decodes to. */
  lemma {:induction false} CanonicalIsStandard(s: seq<Byte>)
    requires Canonical(s)
    ensures Standard(Decoded(s)) == s
  {
    hide DecodeChar, Standard, Decoded;
    if |s| == 0 {
      NothingIsStandard();
    } else if |s| == 4 && s[3] == PAD {
      PaddedEnd(s);
    } else {
      NothingIsStandard();
      CanonicalIsStandard(s[4..]);
      FourDigits(s);
    }
  }

  lemma NothingIsStandard()
    ensures Standard(Decoded([])) == []
  {}

  /** Encoding gives back a canonical text exactly when the bytes it stands for are clean. */
  lemma ReverseTrip(s: seq<Byte>)
    requires Canonical(s)
    ensures Encoded(Decoded(s)) == s <==> Clean(Decoded(s))
  {
    hide Decoded, Encoded, Standard, Clean;
    CanonicalIsStandard(s);
    EncodedIsStandard(Decoded(s));
  }

  // ---------------------------------------------------------------- both codecs in turn

  lemma {:induction false} EncodedLength(x: seq<Byte>)
    ensures |Encoded(x)| == (|x| + 2) / 3 * 4
  {
    hide Group;
    if |x| > 3 {
      EncodedLength(x[3..]);
    }
  }

  /** Encodes and decodes in buffers that are large enough. */
  method Recode(x: seq<Byte>) returns (y: seq<Byte>)
    requires |x| <= 49149
    ensures y == x <==> Clean(x)
  {
    hide Encoded, Decoded, Clean;
    EncodedLength(x);
    RoundTrip(x);
    var size: uint16 := 65535;
    var text := new Byte[65535];
    assert x[..|x|] == x;
    var n := Encode(x, |x| as uint16, text, size);
    assert text[..n] == Encoded(x);
    DecodedIsShorter(Encoded(x));
    var bytes := new Byte[65535];
    assert text[..][..n] == text[..n];
    var m := Decode(text[..], n, bytes, size);
    y := bytes[..m];
    assert y == Decoded(Encoded(x));
  }

  lemma {:induction false} DecodedIsShorter(s: seq<Byte>)
    ensures |Decoded(s)| <= |s|
  {
    hide DecodeChar, Octet0, Octet1, Octet2;
    if |s| > 4 {
      DecodedIsShorter(s[4..]);
    } else if |s| == 4 {
      assert Decoded(s[4..]) == [];
    }
  }
}
