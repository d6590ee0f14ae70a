/**
 What the form parser is for: the calls give back the pairs of a form-urlencoded text in
 order, and in a body the characters that are dropped make no difference.
 */
module FormLaws {
  import opened Text
  import opened FormText

  // ---------------------------------------------------------------- successive calls

  function ReplyOf(s: Scan): Reply {
    Reply(s.nameLen == 0, CString(s.name), CString(s.value))
  }

  /** The replies to `n` calls in a row. */
  function Replies(text: string, nameSize: nat, valueSize: nat, n: nat): (r: seq<Reply>)
    ensures |r| == n
    decreases n
  {
    if n == 0 then [] else
    var (scan, rest) := Run(Begin(nameSize, valueSize), text);
    [ReplyOf(scan)] + Replies(rest, nameSize, valueSize, n - 1)
  }

  // ---------------------------------------------------------------- percent coding

  /** One character of a printed text, as it is or as a percent sign and two digits. */
  datatype Coded = Plain(c: char) | Percent(high: char, low: char)

  predicate IsHex(c: char) {
    HexDigit(c) >= 0
  }

  /** The characters that stand for themselves. */
  predicate IsLiteral(c: char) {
    NUL < c < 256 as char && c != '=' && c != '&' && c != '%' && !IsDropped(c)
  }

  predicate LegalCoded(k: Coded) {
    match k
    case Plain(c) => IsLiteral(c)
    case Percent(high, low) => IsHex(high) && IsHex(low) && (HexDigit(high) > 0 || HexDigit(low) > 0)
  }

  function Meaning(k: Coded): (c: char)
    requires LegalCoded(k)
    ensures NUL < c < 256 as char
  {
    match k
    case Plain(c) => c
    case Percent(high, low) => (16 * HexDigit(high) + HexDigit(low)) as char
  }

  function ShowCoded(k: Coded): (s: string)
    ensures |s| > 0
  {
    match k
    case Plain(c) => [c]
    case Percent(high, low) => ['%', high, low]
  }

  predicate Legal(ks: seq<Coded>) {
    forall i | 0 <= i < |ks| :: LegalCoded(ks[i])
  }

  function Meanings(ks: seq<Coded>): (s: string)
    requires Legal(ks)
    ensures |s| == |ks| && IsText(s)
  {
    if |ks| == 0 then "" else [Meaning(ks[0])] + Meanings(ks[1..])
  }

  function ShowAll(ks: seq<Coded>): string {
    if |ks| == 0 then "" else ShowCoded(ks[0]) + ShowAll(ks[1..])
  }

  const UPPER := "0123456789ABCDEF"
  const LOWER := "0123456789abcdef"

  /** The digits of both cases have their values, and nothing else is a digit. */
  lemma HexDigitsAre(c: char)
    ensures forall d | 0 <= d < 16 :: HexDigit(UPPER[d]) == d && HexDigit(LOWER[d]) == d
    ensures HexDigit(c) == -1 <==> c !in UPPER && c !in LOWER
  {
    assert HexDigit(c) >= 0 ==> c == UPPER[HexDigit(c)] || c == LOWER[HexDigit(c)];
  }

  /** A code by its number, with digits of either case. */
  function CodeOf(n: nat, lower: bool): Coded
    requires n < 256
  {
    var digits := if lower then LOWER else UPPER;
    Percent(digits[n / 16], digits[n % 16])
  }

  /** Every text can be printed: what does not stand for itself is coded. */
  function Escape(w: string, lower: bool): (ks: seq<Coded>)
    requires IsText(w)
    ensures |ks| == |w|
  {
    if |w| == 0 then []
    else [if IsLiteral(w[0]) then Plain(w[0]) else CodeOf(w[0] as int, lower)] + Escape(w[1..], lower)
  }

  lemma CodeMeans(n: nat, lower: bool)
    requires 0 < n < 256
    ensures LegalCoded(CodeOf(n, lower)) && Meaning(CodeOf(n, lower)) == n as char
  {
    HexDigitsAre('0');
    hide HexDigit;
  }

  lemma {:induction false} EscapeKeepsMeaning(w: string, lower: bool)
    requires IsText(w)
    ensures Legal(Escape(w, lower)) && Meanings(Escape(w, lower)) == w
  {
    hide LegalCoded, CodeOf, Meaning, IsLiteral;
    if |w| > 0 {
      CodeMeans(w[0] as int, lower);
      if IsLiteral(w[0]) {
        LiteralMeans(w[0]);
      }
      EscapeKeepsMeaning(w[1..], lower);
    }
  }

  lemma LiteralMeans(c: char)
    requires IsLiteral(c)
    ensures LegalCoded(Plain(c)) && Meaning(Plain(c)) == c
  {}

  /** The decoder undoes either form of a code. */
  lemma DecodeHex(high: char, low: char, rest: string)
    requires LegalCoded(Percent(high, low))
    ensures Decode([high, low] + rest) == Meaning(Percent(high, low))
  {
    var t := [high, low];
    assert ([high, low] + rest)[..2] == t;
    assert t[1..] == [low] && [low][1..] == "";
    HexIsPlain(high);
    HexIsPlain(low);
    assert CString("") == "";
    assert CString([low]) == [low];
    assert CString(t) == t;
    assert Digits("", 16 * HexDigit(high) + HexDigit(low)) == 16 * HexDigit(high) + HexDigit(low);
    assert Digits([low], HexDigit(high)) == 16 * HexDigit(high) + HexDigit(low);
  }

  /** The two digits of any number, in either case. */
  lemma CodeDecodes(n: nat, lower: bool, rest: string)
    requires 0 < n < 256
    ensures var digits := if lower then "0123456789abcdef" else "0123456789ABCDEF";
            Decode([digits[n / 16], digits[n % 16]] + rest) == n as char
  {
    CodeMeans(n, lower);
    DecodeHex(CodeOf(n, lower).high, CodeOf(n, lower).low, rest);
    hide Decode, HexDigit, Meaning, LegalCoded;
  }

  lemma ShortString(a: char, b: char)
    requires a != NUL && b != NUL
    ensures CString([a, b]) == [a, b] && CString([a]) == [a] && CString("") == ""
  {
    assert [a, b][1..] == [b] && [b][1..] == "" && [a][1..] == "";
  }

  lemma OneDigit(c: char, rest: string)
    ensures Digits([c] + rest, 0) == if HexDigit(c) < 0 then 0 else Digits(rest, HexDigit(c))
    ensures Digits("", 0) == 0
  {
    hide HexDigit;
    assert ([c] + rest)[1..] == rest;
  }

  /** A pair that strtol reads up to an end that is not its own. */
  lemma OddCode(a: char, b: char, n: int)
    requires a != NUL && b != NUL && StrToL([a, b]) == n
    ensures Decode([a, b]) == (n % 256) as char
  {
    hide StrToL;
    ShortString(a, b);
    assert [a, b][..2] == [a, b];
  }

  /** Other pairs are read as strtol reads them: space and a sign are skipped, and it stops where the digits do. */
  lemma OddCodes()
    ensures Decode("-1") == 255 as char && Decode("+f") == 15 as char && Decode(" 9") == 9 as char
    ensures Decode("g1") == NUL && Decode("1g") == 1 as char
  {
    HexDigitsAre('g');
    assert ['-', '1'][1..] == ['1'] + "" && ['+', 'f'][1..] == ['f'] + "" && [' ', '9'][1..] == ['9'] + "";
    assert HexDigit('1') == 1 && HexDigit('f') == 15 && HexDigit('9') == 9 && HexDigit('g') < 0;
    OneDigit('1', "");
    OneDigit('f', "");
    OneDigit('9', "");
    OneDigit('g', "1");
    OneDigit('1', "g");
    assert ['g', '1'] == ['g'] + "1" && ['1', 'g'] == ['1'] + "g";
    StopsAt('1', "g");
    hide Decode, Digits, HexDigit;
    OddCode('-', '1', -1);
    OddCode('+', 'f', 15);
    OddCode(' ', '9', 9);
    OddCode('g', '1', 0);
    OddCode('1', 'g', 1);
  }

  lemma StopsAt(c: char, rest: string)
    ensures |rest| > 0 && HexDigit(rest[0]) < 0 ==> Digits(rest, HexDigit(c)) == HexDigit(c)
    ensures Digits("", HexDigit(c)) == HexDigit(c)
  {}

  lemma HexIsPlain(c: char)
    requires IsHex(c)
    ensures c != NUL && !IsSpace(c) && c != '+' && c != '-' && !IsDropped(c)
  {}

  // ---------------------------------------------------------------- a name or a value

  lemma CodedIsStored(s: Scan, k: Coded, rest: string)
    requires s.valueLen > 0 && LegalCoded(k)
    ensures Run(s, ShowCoded(k) + rest) == Run(Store(s, Meaning(k)), rest)
  {
    hide Run, Decode, HexDigit;
    match k
    case Plain(c) =>
      RunStep(s, c, rest);
    case Percent(high, low) =>
      assert ShowCoded(k) + rest == ['%'] + ([high, low] + rest);
      RunStep(s, '%', [high, low] + rest);
      DecodeHex(high, low, rest);
      assert ([high, low] + rest)[2..] == rest;
  }

  lemma CodedUnfolds(ks: seq<Coded>)
    requires Legal(ks)
    ensures |ks| == 0 ==> Meanings(ks) == "" && ShowAll(ks) == ""
    ensures |ks| > 0 ==>
              && LegalCoded(ks[0]) && Legal(ks[1..])
              && Meanings(ks) == [Meaning(ks[0])] + Meanings(ks[1..])
              && ShowAll(ks) == ShowCoded(ks[0]) + ShowAll(ks[1..])
  {}

  lemma {:induction false} NameIsStored(s: Scan, ks: seq<Coded>, rest: string)
    requires s.valueLen > 0 && Legal(ks) && |ks| <= s.nameLen
    ensures Run(s, ShowAll(ks) + rest) == Run(s.(name := s.name + Meanings(ks), nameLen := s.nameLen - |ks|), rest)
    decreases |ks|
  {
    hide Run, ShowCoded, Meaning, Legal, LegalCoded, IsText, HexDigit, Meanings, ShowAll;
    CodedUnfolds(ks);
    if |ks| == 0 {
      assert ShowAll(ks) + rest == rest && s.name + "" == s.name;
    } else {
      var t := Store(s, Meaning(ks[0]));
      assert ShowAll(ks) + rest == ShowCoded(ks[0]) + (ShowAll(ks[1..]) + rest);
      CodedIsStored(s, ks[0], ShowAll(ks[1..]) + rest);
      NameIsStored(t, ks[1..], rest);
      assert t.name + Meanings(ks[1..]) == s.name + Meanings(ks);
    }
  }

  lemma {:induction false} ValueIsStored(s: Scan, ks: seq<Coded>, rest: string)
    requires s.nameLen == 0 && Legal(ks) && |ks| <= s.valueLen
    ensures Run(s, ShowAll(ks) + rest) == Run(s.(value := s.value + Meanings(ks), valueLen := s.valueLen - |ks|), rest)
    decreases |ks|
  {
    hide Run, ShowCoded, Meaning, Legal, LegalCoded, IsText, HexDigit, Meanings, ShowAll;
    CodedUnfolds(ks);
    if |ks| == 0 {
      assert ShowAll(ks) + rest == rest && s.value + "" == s.value;
    } else {
      var t := Store(s, Meaning(ks[0]));
      assert ShowAll(ks) + rest == ShowCoded(ks[0]) + (ShowAll(ks[1..]) + rest);
      CodedIsStored(s, ks[0], ShowAll(ks[1..]) + rest);
      ValueIsStored(t, ks[1..], rest);
      assert t.value + Meanings(ks[1..]) == s.value + Meanings(ks);
      assert t.name == s.name && t.nameLen == 0 && t.valueLen - |ks[1..]| == s.valueLen - |ks|;
    }
  }

  // ---------------------------------------------------------------- pairs

  /** A key and a value; any number of ampersands may stand before them. */
  datatype Pair = Pair(lead: string, key: seq<Coded>, value: seq<Coded>)

  predicate AllAmps(s: string) {
    forall i | 0 <= i < |s| :: s[i] == '&'
  }

  predicate LegalPair(p: Pair) {
    AllAmps(p.lead) && Legal(p.key) && Legal(p.value)
  }

  predicate LegalPairs(ps: seq<Pair>) {
    forall i | 0 <= i < |ps| :: LegalPair(ps[i])
  }

  predicate PairFits(p: Pair, nameSize: nat, valueSize: nat) {
    |p.key| <= nameSize && |p.value| <= valueSize
  }

  predicate PairsFit(ps: seq<Pair>, nameSize: nat, valueSize: nat) {
    forall i | 0 <= i < |ps| :: PairFits(ps[i], nameSize, valueSize)
  }

  /** An ampersand behind the pair ends it: its key is not empty, or its value has filled the buffer. */
  predicate IsEndedByAmp(p: Pair, valueSize: nat) {
    |p.key| > 0 || |p.value| == valueSize
  }

  /** Every pair that another one follows is ended by the ampersand between them. */
  predicate IsSeparable(ps: seq<Pair>, valueSize: nat) {
    forall i | 0 <= i < |ps| - 1 :: IsEndedByAmp(ps[i], valueSize)
  }

  function ShowPair(p: Pair): string {
    p.lead + (ShowAll(p.key) + (['='] + ShowAll(p.value)))
  }

  function ShowPairs(ps: seq<Pair>): string {
    if |ps| == 0 then ""
    else if |ps| == 1 then ShowPair(ps[0])
    else ShowPair(ps[0]) + (['&'] + ShowPairs(ps[1..]))
  }

  function PairReply(p: Pair): Reply
    requires LegalPair(p)
  {
    Reply(true, Meanings(p.key), Meanings(p.value))
  }

  function PairReplies(ps: seq<Pair>): (r: seq<Reply>)
    requires LegalPairs(ps)
    ensures |r| == |ps|
  {
    if |ps| == 0 then [] else assert LegalPair(ps[0]); [PairReply(ps[0])] + PairReplies(ps[1..])
  }

  function PairScan(p: Pair, valueSize: nat): Scan
    requires LegalPair(p) && |p.value| <= valueSize
  {
    Scan(Meanings(p.key), Meanings(p.value), 0, valueSize - |p.value|)
  }

  lemma {:induction false} AmpsAreSkipped(s: Scan, w: string, rest: string)
    requires AllAmps(w) && s.name == "" && s.valueLen > 0
    ensures Run(s, w + rest) == Run(s, rest)
  {
    hide Run;
    if |w| == 0 {
      assert w + rest == rest;
    } else {
      assert w + rest == ['&'] + (w[1..] + rest);
      RunStep(s, '&', w[1..] + rest);
      AmpsAreSkipped(s, w[1..], rest);
    }
  }

  /** What may stand behind a pair. */
  predicate EndsPair(tail: string) {
    |tail| == 0 || tail[0] == '&' || tail[0] == NUL
  }

  /** What a call leaves behind a pair: a value that fills its buffer leaves the character that ends it. */
  function Left(p: Pair, tail: string, valueSize: nat): string {
    if |p.value| == valueSize || |tail| == 0 then tail else tail[1..]
  }

  lemma PairIsStored(p: Pair, tail: string, nameSize: nat, valueSize: nat)
    requires LegalPair(p) && PairFits(p, nameSize, valueSize) && valueSize > 0
    ensures Run(Begin(nameSize, valueSize), ShowPair(p) + tail) == Run(PairScan(p, valueSize), tail)
    ensures ReplyOf(PairScan(p, valueSize)) == PairReply(p)
  {
    hide Run, Legal, ShowAll, CString, IsText;
    var s0 := Begin(nameSize, valueSize);
    var t := ['='] + (ShowAll(p.value) + tail);
    var s1 := s0.(name := "" + Meanings(p.key), nameLen := nameSize - |p.key|);
    var s2 := s1.(nameLen := 0);
    assert ShowPair(p) + tail == p.lead + (ShowAll(p.key) + t);
    AmpsAreSkipped(s0, p.lead, ShowAll(p.key) + t);
    NameIsStored(s0, p.key, t);
    RunStep(s1, '=', ShowAll(p.value) + tail);
    ValueIsStored(s2, p.value, tail);
    assert PairScan(p, valueSize) == s2.(value := "" + Meanings(p.value), valueLen := valueSize - |p.value|);
    TextIsString(Meanings(p.key));
    TextIsString(Meanings(p.value));
  }

  lemma PairIsRead(p: Pair, tail: string, nameSize: nat, valueSize: nat)
    requires LegalPair(p) && PairFits(p, nameSize, valueSize) && EndsPair(tail) && valueSize > 0
    requires IsEndedByAmp(p, valueSize) || |tail| == 0 || tail[0] == NUL
    ensures Run(Begin(nameSize, valueSize), ShowPair(p) + tail) == (PairScan(p, valueSize), Left(p, tail, valueSize))
    ensures ReplyOf(PairScan(p, valueSize)) == PairReply(p)
  {
    hide Run, Legal, ShowAll, CString, IsText;
    PairIsStored(p, tail, nameSize, valueSize);
    var s := PairScan(p, valueSize);
    if s.valueLen == 0 || |tail| == 0 {
      RunEnds(s, tail);
    } else {
      assert tail == [tail[0]] + tail[1..];
      RunStep(s, tail[0], tail[1..]);
    }
  }

  lemma AmpIsSkipped(text: string, nameSize: nat, valueSize: nat, n: nat)
    requires valueSize > 0
    ensures Replies(['&'] + text, nameSize, valueSize, n) == Replies(text, nameSize, valueSize, n)
  {
    if n > 0 {
      AmpsAreSkipped(Begin(nameSize, valueSize), ['&'], text);
    }
  }

  /** One call for each pair, and then `m` more calls read on behind the character that ended the last one. */
  lemma {:induction false} PairsAreRead(ps: seq<Pair>, tail: string, nameSize: nat, valueSize: nat, m: nat)
    requires |ps| > 0 && LegalPairs(ps) && PairsFit(ps, nameSize, valueSize) && IsSeparable(ps, valueSize)
    requires valueSize > 0 && (|tail| == 0 || tail[0] == NUL)
    ensures Replies(ShowPairs(ps) + tail, nameSize, valueSize, |ps| + m)
         == PairReplies(ps) + Replies(Left(ps[|ps| - 1], tail, valueSize), nameSize, valueSize, m)
    decreases |ps|
  {
    hide Run, LegalPair, PairFits, ShowPair, PairReply, ReplyOf, PairScan, IsEndedByAmp, Left, Replies;
    var p, rest, more := ps[0], ps[1..], Replies(Left(ps[|ps| - 1], tail, valueSize), nameSize, valueSize, m);
    assert LegalPair(p) && PairFits(p, nameSize, valueSize);
    if |ps| == 1 {
      PairIsRead(p, tail, nameSize, valueSize);
      RunReplies(ShowPair(p) + tail, nameSize, valueSize, m);
      assert ShowPairs(ps) == ShowPair(p) && PairReplies(ps) == [PairReply(p)];
    } else {
      FirstIsRead(ps, tail, nameSize, valueSize, |ps| - 1 + m);
      SeparableOneByOne(ps, valueSize);
      PairsAreRead(rest, tail, nameSize, valueSize, m);
      assert rest[|rest| - 1] == ps[|ps| - 1];
      assert [PairReply(p)] + (PairReplies(rest) + more) == PairReplies(ps) + more;
    }
  }

  lemma RunReplies(text: string, nameSize: nat, valueSize: nat, n: nat)
    ensures var (s, rest) := Run(Begin(nameSize, valueSize), text);
            Replies(text, nameSize, valueSize, n + 1) == [ReplyOf(s)] + Replies(rest, nameSize, valueSize, n)
  {}

  /** The first of several pairs, if the ampersand ends it. */
  lemma FirstIsRead(ps: seq<Pair>, tail: string, nameSize: nat, valueSize: nat, n: nat)
    requires |ps| > 1 && LegalPair(ps[0]) && PairFits(ps[0], nameSize, valueSize) && IsEndedByAmp(ps[0], valueSize)
    requires valueSize > 0
    ensures Replies(ShowPairs(ps) + tail, nameSize, valueSize, n + 1)
         == [PairReply(ps[0])] + Replies(ShowPairs(ps[1..]) + tail, nameSize, valueSize, n)
  {
    hide Run, LegalPair, PairFits, ShowPair, PairReply, ReplyOf, PairScan, IsEndedByAmp;
    var rest := ShowPairs(ps[1..]) + tail;
    assert ShowPairs(ps) + tail == ShowPair(ps[0]) + (['&'] + rest);
    PairIsRead(ps[0], ['&'] + rest, nameSize, valueSize);
    assert (['&'] + rest)[1..] == rest;
    AmpIsSkipped(rest, nameSize, valueSize, n);
  }

  lemma SeparableOneByOne(ps: seq<Pair>, valueSize: nat)
    requires |ps| > 1
    ensures IsSeparable(ps, valueSize) <==> IsEndedByAmp(ps[0], valueSize) && IsSeparable(ps[1..], valueSize)
  {
    hide IsEndedByAmp;
    if IsEndedByAmp(ps[0], valueSize) && IsSeparable(ps[1..], valueSize) {
      forall i | 0 <= i < |ps| - 1 ensures IsEndedByAmp(ps[i], valueSize) {
        assert i > 0 ==> ps[i] == ps[1..][i - 1];
      }
    }
  }

  lemma NothingIsLeft(amps: string, nameSize: nat, valueSize: nat)
    requires AllAmps(amps) && nameSize > 0 && valueSize > 0
    ensures Replies(amps, nameSize, valueSize, 1) == [NO_MORE]
  {
    hide Run;
    var s := Begin(nameSize, valueSize);
    assert amps + "" == amps;
    AmpsAreSkipped(s, amps, "");
    RunEnds(s, "");
    assert Replies("", nameSize, valueSize, 0) == [];
  }

  // ---------------------------------------------------------------- a text that does not fit

  /** No call reports more than its buffers hold. */
  lemma ReplyFits(text: string, nameSize: nat, valueSize: nat, n: nat)
    requires n > 0
    ensures var r := Replies(text, nameSize, valueSize, n)[0]; |r.name| <= nameSize && |r.value| <= valueSize
  {
    hide Run;
    var s := Run(Begin(nameSize, valueSize), text).0;
    RunFits(Begin(nameSize, valueSize), text, nameSize, valueSize);
  }

  /** A first pair that does not fit comes back shorter. */
  lemma FirstIsCut(ps: seq<Pair>, tail: string, nameSize: nat, valueSize: nat)
    requires |ps| > 0 && LegalPairs(ps) && !PairFits(ps[0], nameSize, valueSize)
    ensures Replies(ShowPairs(ps) + tail, nameSize, valueSize, |ps| + 1) != PairReplies(ps) + [NO_MORE]
  {
    hide Replies, LegalPair, PairFits, PairReply, ShowPairs;
    var text, n := ShowPairs(ps) + tail, |ps|;
    assert LegalPair(ps[0]);
    ReplyFits(text, nameSize, valueSize, n + 1);
    LongPairIsCut(ps[0], Replies(text, nameSize, valueSize, n + 1)[0], nameSize, valueSize);
    assert (PairReplies(ps) + [NO_MORE])[0] == PairReply(ps[0]);
  }

  /**
   The calls report exactly these pairs, and then the end, if and only if every one of them fits and
   every one that another follows is ended by the ampersand.
   */
  lemma {:induction false} FormRoundTrip(ps: seq<Pair>, amps: string, nameSize: nat, valueSize: nat)
    requires LegalPairs(ps) && AllAmps(amps) && nameSize > 0 && valueSize > 0
    ensures Replies(ShowPairs(ps) + amps, nameSize, valueSize, |ps| + 1) == PairReplies(ps) + [NO_MORE]
       <==> PairsFit(ps, nameSize, valueSize) && IsSeparable(ps, valueSize)
    decreases |ps|
  {
    hide Replies, LegalPair, PairFits, ShowPair, PairReply, AllAmps, IsEndedByAmp;
    var n := |ps|;
    if n == 0 {
      assert ShowPairs(ps) + amps == amps;
      NothingIsLeft(amps, nameSize, valueSize);
    } else {
      assert LegalPair(ps[0]);
      FitsOneByOne(ps, nameSize, valueSize);
      if !PairFits(ps[0], nameSize, valueSize) {
        FirstIsCut(ps, amps, nameSize, valueSize);
      } else if n == 1 {
        LastIsRead(ps[0], amps, nameSize, valueSize);
      } else {
        SeparableOneByOne(ps, valueSize);
        if IsEndedByAmp(ps[0], valueSize) {
          FirstIsRead(ps, amps, nameSize, valueSize, n);
          FormRoundTrip(ps[1..], amps, nameSize, valueSize);
          SameTail(PairReply(ps[0]), Replies(ShowPairs(ps[1..]) + amps, nameSize, valueSize, n), PairReplies(ps[1..]));
        } else {
          EmptyKeySwallows(ps, amps, nameSize, valueSize);
          assert (PairReplies(ps) + [NO_MORE])[..2] == PairReplies(ps)[..2];
        }
      }
    }
  }

  lemma SameTail(first: Reply, a: seq<Reply>, b: seq<Reply>)
    ensures [first] + a == ([first] + b) + [NO_MORE] <==> a == b + [NO_MORE]
  {
    assert ([first] + b) + [NO_MORE] == [first] + (b + [NO_MORE]);
    assert ([first] + a)[1..] == a && ([first] + (b + [NO_MORE]))[1..] == b + [NO_MORE];
  }

  /** The last pair, and ampersands behind it. */
  lemma LastIsRead(p: Pair, amps: string, nameSize: nat, valueSize: nat)
    requires LegalPair(p) && PairFits(p, nameSize, valueSize) && AllAmps(amps) && nameSize > 0 && valueSize > 0
    ensures Replies(ShowPair(p) + amps, nameSize, valueSize, 2) == [PairReply(p), NO_MORE]
  {
    hide Run, LegalPair, PairFits, ShowPair, PairReply, ReplyOf;
    if IsEndedByAmp(p, valueSize) {
      AmpsEndPair(amps, p, valueSize);
      PairIsRead(p, amps, nameSize, valueSize);
      NothingIsLeft(Left(p, amps, valueSize), nameSize, valueSize);
    } else {
      PairIsStored(p, amps, nameSize, valueSize);
      assert amps + "" == amps;
      assert PairScan(p, valueSize).name == "" && PairScan(p, valueSize).valueLen > 0;
      AmpsAreSkipped(PairScan(p, valueSize), amps, "");
      RunEnds(PairScan(p, valueSize), "");
      NothingIsLeft("", nameSize, valueSize);
    }
  }

  // ---------------------------------------------------------------- empty keys

  /** A run only adds to what it has stored, and a name that was ended or is full stays as it is. */
  lemma {:induction false} RunKeeps(s: Scan, text: string)
    ensures var r := Run(s, text).0; s.name <= r.name && s.value <= r.value
    ensures s.nameLen == 0 ==> var r := Run(s, text).0; r.name == s.name && r.nameLen == 0
    decreases |text|
  {
    hide Decode;
    if s.valueLen > 0 && |text| > 0 {
      var c, rest := text[0], text[1..];
      if c == NUL {
      } else if c == '=' {
        RunKeeps(s.(nameLen := 0), rest);
      } else if IsSeparator(c) {
        RunKeeps(s, rest);
      } else if c == '%' {
        RunKeeps(Store(s, Decode(rest)), AfterCode(text));
      } else {
        RunKeeps(Store(s, c), rest);
      }
    }
  }

  /** The text behind a code. */
  function AfterCode(t: string): (r: string)
    requires |t| > 0
    ensures |r| < |t|
  {
    var rest := t[1..];
    rest[if |rest| < 2 then |rest| else 2..]
  }

  /** A call has stored more than `s` did, and no NUL comes first. */
  ghost predicate Grows(s: Scan, r: Scan) {
    s.value <= r.value && |s.value| < |r.value| && r.value[|s.value|] != NUL
  }

  lemma CodesGrow(s: Scan, ks: seq<Coded>, rest: string)
    requires s.nameLen == 0 && s.valueLen > 0 && Legal(ks) && |ks| > 0
    ensures Grows(s, Run(s, ShowAll(ks) + rest).0)
  {
    hide Run, Legal, ShowAll, Meanings;
    CodedUnfolds(ks);
    var t := ShowAll(ks[1..]) + rest;
    assert ShowAll(ks) + rest == ShowCoded(ks[0]) + t;
    CodedIsStored(s, ks[0], t);
    RunKeeps(Store(s, Meaning(ks[0])), t);
  }

  /** A pair that is only its divider. */
  predicate IsBare(p: Pair) {
    |p.key| == 0 && |p.value| == 0
  }

  predicate AllBare(ps: seq<Pair>) {
    forall i | 0 <= i < |ps| :: IsBare(ps[i])
  }

  lemma MoreAmps(w: string)
    requires AllAmps(w)
    ensures AllAmps(['&'] + w)
  {}

  lemma ValueIsSwallowed(s: Scan, ks: seq<Coded>, tail: string)
    requires s.nameLen == 0 && s.valueLen > 0 && Legal(ks)
    ensures var text := ['='] + (ShowAll(ks) + tail);
            if |ks| == 0 then Run(s, text) == Run(s, tail) else Grows(s, Run(s, text).0)
  {
    hide Run, Legal, Grows, ShowAll;
    CodedUnfolds(ks);
    assert s.(nameLen := 0) == s;
    RunStep(s, '=', ShowAll(ks) + tail);
    if |ks| > 0 {
      CodesGrow(s, ks, tail);
    } else {
      assert ShowAll(ks) + tail == tail;
    }
  }

  lemma PairUnfolds(p: Pair, tail: string)
    ensures ['&'] + (ShowPair(p) + tail) == (['&'] + p.lead) + (ShowAll(p.key) + (['='] + (ShowAll(p.value) + tail)))
  {
    hide ShowAll;
    var a, b := ShowAll(p.key), ShowAll(p.value);
    assert ShowPair(p) + tail == p.lead + (a + (['='] + (b + tail)));
  }

  /** Behind an empty key and with room in the value, the call stores what the next pair holds. */
  lemma PairIsSwallowed(s: Scan, p: Pair, tail: string)
    requires s.name == "" && s.nameLen == 0 && s.valueLen > 0 && LegalPair(p)
    ensures var text := ['&'] + (ShowPair(p) + tail);
            if IsBare(p) then Run(s, text) == Run(s, tail) else Grows(s, Run(s, text).0)
  {
    hide Run, Legal, Grows, ShowAll, AllAmps, ShowPair;
    var t := ['='] + (ShowAll(p.value) + tail);
    PairUnfolds(p, tail);
    MoreAmps(p.lead);
    AmpsAreSkipped(s, ['&'] + p.lead, ShowAll(p.key) + t);
    if |p.key| > 0 {
      CodesGrow(s, p.key, t);
    } else {
      CodedUnfolds(p.key);
      assert ShowAll(p.key) + t == t;
      ValueIsSwallowed(s, p.value, tail);
    }
  }

  lemma {:induction false} PairsAreSwallowed(s: Scan, ps: seq<Pair>, tail: string)
    requires s.name == "" && s.nameLen == 0 && s.valueLen > 0 && LegalPairs(ps) && |ps| > 0
    ensures var text := ['&'] + (ShowPairs(ps) + tail);
            if AllBare(ps) then Run(s, text) == Run(s, tail) else Grows(s, Run(s, text).0)
    decreases |ps|
  {
    hide Run, LegalPair, ShowPair, Grows, IsBare;
    assert LegalPair(ps[0]);
    if |ps| == 1 {
      PairIsSwallowed(s, ps[0], tail);
    } else {
      var more := ['&'] + (ShowPairs(ps[1..]) + tail);
      assert ShowPairs(ps) + tail == ShowPair(ps[0]) + more;
      PairIsSwallowed(s, ps[0], more);
      PairsAreSwallowed(s, ps[1..], tail);
      assert AllBare(ps) <==> IsBare(ps[0]) && AllBare(ps[1..]) by { BareOneByOne(ps); }
    }
  }

  lemma BareOneByOne(ps: seq<Pair>)
    requires |ps| > 0
    ensures AllBare(ps) <==> IsBare(ps[0]) && AllBare(ps[1..])
  {
    hide IsBare;
    if IsBare(ps[0]) && AllBare(ps[1..]) {
      forall i | 0 <= i < |ps| ensures IsBare(ps[i]) {
        assert i > 0 ==> ps[i] == ps[1..][i - 1];
      }
    }
  }

  lemma {:induction false} StringGoesOn(v: string, w: string)
    requires IsText(v) && v <= w && |v| < |w| && w[|v|] != NUL
    ensures |CString(w)| > |v|
  {
    if |v| > 0 {
      StringGoesOn(v[1..], w[1..]);
    }
  }

  /** So a pair with an empty key and room in its value takes what the next ones hold, or leaves nothing of them. */
  lemma EmptyKeySwallows(ps: seq<Pair>, tail: string, nameSize: nat, valueSize: nat)
    requires |ps| > 1 && LegalPairs(ps) && nameSize > 0 && valueSize > 0
    requires PairFits(ps[0], nameSize, valueSize) && !IsEndedByAmp(ps[0], valueSize)
    requires !AllBare(ps[1..]) || AllAmps(tail)
    ensures Replies(ShowPairs(ps) + tail, nameSize, valueSize, |ps| + 1)[..2] != PairReplies(ps)[..2]
  {
    hide Run, ShowPair, Legal, CString, IsText, AllAmps, AllBare;
    var p, more, n := ps[0], ['&'] + (ShowPairs(ps[1..]) + tail), |ps|;
    var s := PairScan(p, valueSize);
    assert LegalPair(p);
    assert ShowPairs(ps) + tail == ShowPair(p) + more;
    PairIsStored(p, more, nameSize, valueSize);
    PairsAreSwallowed(s, ps[1..], tail);
    var (r, rest) := Run(s, more);
    var all := Replies(ShowPairs(ps) + tail, nameSize, valueSize, n + 1);
    assert all[0] == ReplyOf(r) && all[1..] == Replies(rest, nameSize, valueSize, n);
    if AllBare(ps[1..]) {
      assert tail + "" == tail;
      AmpsAreSkipped(s, tail, "");
      RunEnds(s, "");
      EndsAtOnce(nameSize, valueSize, n);
      SecondIsPair(ps);
      assert all[..2][1] != PairReplies(ps)[..2][1];
    } else {
      StringGoesOn(Meanings(p.value), r.value);
      assert all[..2][0] != PairReplies(ps)[..2][0];
    }
  }

  lemma SecondIsPair(ps: seq<Pair>)
    requires |ps| > 1 && LegalPairs(ps)
    ensures PairReplies(ps)[1].ret
  {
    assert LegalPair(ps[1]);
    assert PairReplies(ps)[1] == PairReplies(ps[1..])[0] == PairReply(ps[1]);
  }

  lemma EndsAtOnce(nameSize: nat, valueSize: nat, n: nat)
    requires n > 0 && nameSize > 0
    ensures Replies("", nameSize, valueSize, n)[0] == NO_MORE
  {
    RunEnds(Begin(nameSize, valueSize), "");
  }

  // ---------------------------------------------------------------- what fits

  lemma FitsOneByOne(ps: seq<Pair>, nameSize: nat, valueSize: nat)
    requires |ps| > 0
    ensures PairsFit(ps, nameSize, valueSize)
       <==> PairFits(ps[0], nameSize, valueSize) && PairsFit(ps[1..], nameSize, valueSize)
  {
    hide PairFits;
    if PairFits(ps[0], nameSize, valueSize) && PairsFit(ps[1..], nameSize, valueSize) {
      forall i | 0 <= i < |ps| ensures PairFits(ps[i], nameSize, valueSize) {
        assert i > 0 ==> ps[i] == ps[1..][i - 1];
      }
    }
  }

  lemma AmpsEndPair(amps: string, p: Pair, valueSize: nat)
    requires AllAmps(amps)
    ensures EndsPair(amps) && AllAmps(Left(p, amps, valueSize))
  {}

  lemma LongPairIsCut(p: Pair, r: Reply, nameSize: nat, valueSize: nat)
    requires LegalPair(p) && !PairFits(p, nameSize, valueSize) && |r.name| <= nameSize && |r.value| <= valueSize
    ensures r != PairReply(p)
  {}

  // ---------------------------------------------------------------- bodies

  lemma {:induction false} StripConcat(a: string, b: string)
    ensures Strip(a + b) == Strip(a) + Strip(b)
  {
    hide IsDropped;
    if |a| == 0 {
      assert a + b == b;
    } else {
      assert (a + b)[1..] == a[1..] + b;
      StripConcat(a[1..], b);
    }
  }

  predicate AllDropped(w: string) {
    forall i | 0 <= i < |w| :: IsDropped(w[i])
  }

  lemma {:induction false} StripDrops(w: string)
    requires AllDropped(w)
    ensures Strip(w) == ""
  {
    if |w| > 0 {
      StripDrops(w[1..]);
    }
  }

  /** Space and question marks may be put anywhere in a body, even inside a code, and no call notices. */
  lemma InsertedIsDropped(a: string, w: string, b: string, nameSize: nat, valueSize: nat, n: nat)
    requires AllDropped(w)
    ensures Replies(Strip(a + w + b), nameSize, valueSize, n) == Replies(Strip(a + b), nameSize, valueSize, n)
  {
    StripConcat(a + w, b);
    StripConcat(a, w);
    StripDrops(w);
    StripConcat(a, b);
    assert Strip(a) + "" == Strip(a);
  }

  lemma CodeIsKept(k: Coded)
    requires LegalCoded(k)
    ensures Strip(ShowCoded(k)) == ShowCoded(k)
  {
    hide IsDropped, HexDigit;
    match k
    case Plain(c) =>
      StripStep(c, "");
    case Percent(high, low) =>
      HexIsPlain(high);
      HexIsPlain(low);
      PunctuationIsKept();
      StripStep(low, "");
      StripStep(high, [low]);
      StripStep('%', [high, low]);
      assert ['%'] + [high, low] == ShowCoded(k) && [high] + [low] == [high, low];
  }

  /** Nothing that is printed is dropped. */
  lemma {:induction false} CodesAreKept(ks: seq<Coded>)
    requires Legal(ks)
    ensures Strip(ShowAll(ks)) == ShowAll(ks)
  {
    hide Strip, ShowAll, Legal, LegalCoded, ShowCoded, Meanings, Meaning;
    CodedUnfolds(ks);
    if |ks| == 0 {
      PunctuationIsKept();
    } else {
      CodeIsKept(ks[0]);
      CodesAreKept(ks[1..]);
      StripConcat(ShowCoded(ks[0]), ShowAll(ks[1..]));
    }
  }

  lemma PunctuationIsKept()
    ensures !IsDropped('%') && !IsDropped('&') && !IsDropped('=')
    ensures Strip("") == "" && Strip("=") == "=" && Strip("&") == "&"
  {
    StripStep('=', "");
    StripStep('&', "");
  }

  lemma {:induction false} AmpsAreKept(w: string)
    requires AllAmps(w)
    ensures Strip(w) == w
  {
    if |w| > 0 {
      AmpsAreKept(w[1..]);
    }
  }

  lemma {:induction false} PairsAreKept(ps: seq<Pair>)
    requires LegalPairs(ps)
    ensures Strip(ShowPairs(ps)) == ShowPairs(ps)
  {
    hide Strip, ShowAll, Legal, AllAmps;
    PunctuationIsKept();
    if |ps| > 0 {
      var p := ps[0];
      assert LegalPair(p);
      AmpsAreKept(p.lead);
      CodesAreKept(p.key);
      CodesAreKept(p.value);
      StripConcat("=", ShowAll(p.value));
      StripConcat(ShowAll(p.key), ['='] + ShowAll(p.value));
      StripConcat(p.lead, ShowAll(p.key) + (['='] + ShowAll(p.value)));
      if |ps| > 1 {
        PairsAreKept(ps[1..]);
        StripConcat("&", ShowPairs(ps[1..]));
        StripConcat(ShowPair(p), ['&'] + ShowPairs(ps[1..]));
      }
    }
  }

  /** A printed body is unchanged by the stripping, so one without insertions is covered too. */
  lemma PrintedBody(ps: seq<Pair>, amps: string)
    requires LegalPairs(ps) && AllAmps(amps)
    ensures Strip(['\n'] + (ShowPairs(ps) + amps)) == ShowPairs(ps) + amps
  {
    hide Strip, ShowPairs;
    PairsAreKept(ps);
    AmpsAreKept(amps);
    StripConcat(ShowPairs(ps), amps);
    StripStep('\n', ShowPairs(ps) + amps);
  }

  // ---------------------------------------------------------------- targets

  /** What is left behind the pairs: a last value that fills its buffer leaves the NUL. */
  function Behind(ps: seq<Pair>, after: string, valueSize: nat): string {
    if |ps| == 0 || |ps[|ps| - 1].value| == valueSize then [NUL] + after else after
  }

  /**
   For GET the text ends at a NUL, which the last pair takes with it if its value leaves room, and the
   next call reads on in what an earlier request left behind it in the buffer.
   */
  lemma TargetRoundTrip(ps: seq<Pair>, after: string, nameSize: nat, valueSize: nat, m: nat)
    requires LegalPairs(ps) && PairsFit(ps, nameSize, valueSize) && IsSeparable(ps, valueSize) && valueSize > 0
    ensures Replies(ShowPairs(ps) + ([NUL] + after), nameSize, valueSize, |ps| + m)
         == PairReplies(ps) + Replies(Behind(ps, after, valueSize), nameSize, valueSize, m)
  {
    hide Run;
    assert ([NUL] + after)[1..] == after;
    if |ps| == 0 {
      assert ShowPairs(ps) + ([NUL] + after) == [NUL] + after;
    } else {
      PairsAreRead(ps, [NUL] + after, nameSize, valueSize, m);
    }
  }

  /** A pair of two letters. */
  function SmallPairOf(k: char, v: char): Pair {
    Pair("", [Plain(k)], [Plain(v)])
  }

  lemma SmallPair(k: char, v: char)
    requires IsLiteral(k) && IsLiteral(v)
    ensures var ps := [SmallPairOf(k, v)];
            LegalPairs(ps) && ShowPairs(ps) == [k, '=', v] && PairReplies(ps) == [Reply(true, [k], [v])]
  {
    var p := SmallPairOf(k, v);
    assert ShowAll(p.key[1..]) == "" && ShowAll(p.value[1..]) == "";
    assert Meanings(p.key[1..]) == "" && Meanings(p.value[1..]) == "";
    assert ShowAll(p.key) == [k] && ShowAll(p.value) == [v];
    assert PairReplies([p][1..]) == [];
  }
}
