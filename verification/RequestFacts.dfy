/** What the buffers of the request parser hold after each word was read into them. */
module RequestFacts {
  import opened Text
  import opened Stream
  import opened RequestText
  import opened HeaderEffects

  // ---------------------------------------------------------------- question marks

  lemma NoParams()
    ensures ParamsAt([]) == -1
  {}

  lemma ParamsAtStep(u: string, i: nat)
    requires i < |u|
    ensures ParamsAt(u[..i + 1]) == if u[i] == '?' then i + 1 else ParamsAt(u[..i])
  {
    assert u[..i + 1][..i] == u[..i];
  }

  // ---------------------------------------------------------------- ends of lines

  predicate StartsEmptyLine(s: string) {
    |s| > 0 && s[0] == '\n'
  }

  /** What will be left, when `c` was the last character read and `eolCount` newlines were seen, `c` included. */
  function Pending(c: char, eolCount: int, rest: string): string {
    if eolCount == 0 then AfterEol(rest)
    else if eolCount == 1 then (if c == '\n' then SkipIndent(rest) else SkipIndent([c] + rest))
    else [c] + rest
  }

  lemma EolOfNothing()
    ensures AfterEol("") == "" && SkipIndent("") == ""
  {}

  lemma PendingStep(c: char, eolCount: int, rest: string)
    ensures eolCount == 1 && c != '\n' ==>
              Pending(c, eolCount, rest) == if IsSpace(c) then SkipIndent(rest) else [c] + rest
    ensures |rest| > 0 ==>
              && AfterEol(rest) == Pending(rest[0], if rest[0] == '\n' then 1 else 0, rest[1..])
              && SkipIndent(rest) == Pending(rest[0], if rest[0] == '\n' then 2 else 1, rest[1..])
  {
    SkipIndentStep(c, rest);
    if |rest| > 0 {
      assert rest == [rest[0]] + rest[1..];
      AfterEolStep(rest[0], rest[1..]);
      SkipIndentStep(rest[0], rest[1..]);
    }
  }

  // ---------------------------------------------------------------- the URL buffer

  function UrlCount(t: string): (n: nat)
    ensures n < URL_SIZE
  {
    WordCount(t, URL_SIZE - 1, IsBlank)
  }

  /** The characters stored from the input `t`, before they are split. */
  function UrlRead(before: string, t: string): (u: string)
    requires |before| == URL_SIZE
    ensures |u| == UrlCount(t)
  {
    WordBuffer(before, t, URL_SIZE - 1, IsBlank)[..UrlCount(t)]
  }

  function UrlSplit(before: string, t: string): (r: string)
    requires |before| == URL_SIZE
    ensures |r| == URL_SIZE
  {
    SplitMarks(UrlRead(before, t)) + WordBuffer(before, t, URL_SIZE - 1, IsBlank)[UrlCount(t)..]
  }

  /** The whole buffer in the end. */
  function UrlAfter(before: string, t: string): string
    requires |before| == URL_SIZE
  {
    UrlSplit(before, t)[UrlCount(t) := NUL]
  }

  /**
   What is left of the input.  A target that the input ends in leaves the byte of the buffer
   behind the one that was stored last.
   */
  function AfterUrl(before: string, t: string): string
    requires |before| == URL_SIZE
  {
    if Find(t, IsBlank) < |t| then t[Find(t, IsBlank)..]
    else if URL_SIZE - 1 <= |t| then ""
    else
      var c := UrlSplit(before, t)[UrlCount(t)];
      if c == NUL then "" else [c]
  }

  /** The character after the stored ones decides whether more is to be dropped. */
  lemma UrlNext(t: string, before: string)
    requires |before| == URL_SIZE && before[URL_SIZE - 1] == NUL
    ensures var b, c := Find(t, IsBlank), UrlSplit(before, t)[UrlCount(t)];
            if b < URL_SIZE - 1 && b < |t| then c == t[b]
            else URL_SIZE - 1 <= |t| ==> c == NUL
  {
    hide SplitMarks;
  }

  /** The last byte of the buffer stays NUL, whatever is read, and the stored characters are ended. */
  lemma UrlStaysValid(t: string, before: string)
    requires |t| > 0 && |before| == URL_SIZE && before[URL_SIZE - 1] == NUL
    ensures |UrlAfter(before, t)| == URL_SIZE
    ensures UrlAfter(before, t)[URL_SIZE - 1] == NUL && UrlAfter(before, t)[UrlCount(t)] == NUL
  {
    hide SplitMarks;
  }

  /** The question mark before the parameters has become a NUL. */
  lemma UrlIsMarked(t: string, before: string)
    requires |before| == URL_SIZE
    ensures |UrlAfter(before, t)| == URL_SIZE
    ensures var p := ParamsAt(UrlRead(before, t)); 0 <= p < URL_SIZE ==> NUL in UrlAfter(before, t)[..p]
  {
    var u := UrlRead(before, t);
    var p := ParamsAt(u);
    if 0 <= p {
      MarkIsThere(u);
      assert SplitMarks(u)[p - 1] == NUL;
      if p < URL_SIZE {
        assert UrlAfter(before, t)[..p][p - 1] == NUL;
      }
    }
  }

  lemma {:induction false} MarkIsThere(u: string)
    ensures ParamsAt(u) > 0 ==> u[ParamsAt(u) - 1] == '?'
  {
    if |u| > 0 {
      MarkIsThere(u[..|u| - 1]);
    }
  }

  /** A target that a blank ends is stored, split and terminated, and nothing else changes. */
  lemma UrlIsTarget(t: string, before: string)
    requires |before| == URL_SIZE && Find(t, IsBlank) < |t|
    ensures UrlRead(before, t) == Target(t) && UrlCount(t) == |Target(t)|
    ensures UrlAfter(before, t) == SplitMarks(Target(t)) + [NUL] + before[|Target(t)| + 1..]
  {
    hide SplitMarks, Find;
    var u, r := Target(t), WordBuffer(before, t, URL_SIZE - 1, IsBlank);
    assert UrlCount(t) == |u|;
    assert r[..|u|] == u;
    assert r[|u| + 1..] == before[|u| + 1..];
    UpdateBehind(SplitMarks(u), r[|u|..], NUL);
    assert r[|u|..][1..] == r[|u| + 1..];
  }

  lemma UpdateBehind(a: string, b: string, c: char)
    requires |b| > 0
    ensures (a + b)[|a| := c] == a + [c] + b[1..]
  {}

  lemma MethodIsLater(s: string)
    ensures IsLater(AfterMethod(SkipBlanks(s)), s)
  {
    hide Find, IsLater, SkipBlanks;
    var t := SkipBlanks(s);
    var b := Find(t, IsBlank);
    SkippedIsLater(s);
    LaterDrop(t, if b < 9 && b < |t| then b + 1 else Min(9, |t|));
    LaterTwice(AfterMethod(t), t, s);
  }

  lemma UrlIsLater(before: string, s: string)
    requires |before| == URL_SIZE && |SkipBlanks(s)| > 0
    ensures IsLater(AfterUrl(before, SkipBlanks(s)), s)
  {
    hide Find, IsLater, SkipBlanks, UrlSplit;
    var t := SkipBlanks(s);
    SkippedIsLater(s);
    LaterDrop(t, Find(t, IsBlank));
    LaterDrop(t, |t|);
    assert forall c :: [c] + t[|t|..] == [c];
    LaterTwice(AfterUrl(before, t), t, s);
  }

  /** A version that is too long, or that the input ends in, leaves a byte of the buffer in the slot. */
  lemma VersionIsLater(t: string, before: string, c: char)
    requires |t| > 0 && |before| == 10 && c == WordBuffer(before, t, 9, IsSpace)[WordCount(t, 9, IsSpace)]
    ensures IsLater((if c == NUL then [] else [c]) + AfterWord(t, 9, IsSpace), t)
  {
    hide Find, IsLater;
    var b, n := Find(t, IsSpace), WordCount(t, 9, IsSpace);
    var rest := AfterWord(t, 9, IsSpace);
    var k := |t| - |rest|;
    assert rest == t[k..];
    LaterDrop(t, k);
    assert [] + rest == rest;
  }

  lemma MethodIsText(t: string)
    requires IsText(t)
    ensures IsText(MethodWord(t))
  {}

  lemma MethodIsWord(buffer: string, before: string, t: string, ptr: nat)
    requires |t| > 0 && IsText(t) && |buffer| == 10
    requires ptr == WordCount(t, 9, IsBlank) && buffer[ptr] == NUL
    requires |before| == 10 && buffer[..ptr] == WordBuffer(before, t, 9, IsBlank)[..ptr]
    ensures CString(buffer) == MethodWord(t)
  {
    hide CString, Find, IsText;
    var w := MethodWord(t);
    MethodIsText(t);
    if ptr <= |t| {
      assert buffer[..ptr] == w;
      assert buffer == w + [NUL] + buffer[ptr + 1..];
      CStringEnds(w, buffer[ptr + 1..]);
    } else {
      assert w == t && buffer[..ptr] == t + [NUL];
      assert buffer == w + [NUL] + buffer[ptr..];
      CStringEnds(w, buffer[ptr..]);
    }
  }

  // ---------------------------------------------------------------- the version

  lemma VersionIsRead(t: string, before: string)
    requires Find(t, IsSpace) <= 8 && Find(t, IsSpace) < |t| && |before| == 10
    ensures var k, b := Find(t, IsSpace), WordBuffer(before, t, 9, IsSpace);
            && WordCount(t, 9, IsSpace) == k && b[..k] == t[..k] && b[k] == t[k]
            && [t[k]] + AfterWord(t, 9, IsSpace) == t[k..] && t[k] != NUL
  {
    FindStops(t, IsSpace);
    WordIsFound(t, before, 9, IsSpace);
  }

  // ---------------------------------------------------------------- header lines

  /**
   The two buffers after a line was read, whatever it looks like, and what is left before the
   end of the line is sought.
   */
  function NameBuffer(before: string, s: string): (b: string)
    requires |before| == NAME_SIZE
    ensures |b| == NAME_SIZE
  {
    WordBuffer(before, s, NAME_SIZE - 1, IsColon)[WordCount(s, NAME_SIZE - 1, IsColon) := NUL]
  }

  function ValueInput(s: string): string {
    SkipBlanks(AfterWord(s, NAME_SIZE - 1, IsColon))
  }

  function ValueBuffer(before: string, s: string): (b: string)
    requires |before| == VALUE_SIZE
    ensures |b| == VALUE_SIZE
  {
    var t := ValueInput(s);
    WordBuffer(before, t, VALUE_SIZE - 1, IsEol)[WordCount(t, VALUE_SIZE - 1, IsEol) := NUL]
  }

  function LineRest(before: string, s: string): string
    requires |before| == VALUE_SIZE
  {
    var t := ValueInput(s);
    var n := WordCount(t, VALUE_SIZE - 1, IsEol);
    var c := WordBuffer(before, t, VALUE_SIZE - 1, IsEol)[n];
    (if n < VALUE_SIZE - 1 && c != NUL then [c] else []) + AfterWord(t, VALUE_SIZE - 1, IsEol)
  }

  /** For a line of the right shape they are its name and its value. */
  lemma HeaderIsRead(s: string, name: string, value: string)
    requires IsText(s) && IsHeader(s) && |name| == NAME_SIZE && |value| == VALUE_SIZE && IsText(ValueInput(s))
    ensures CString(NameBuffer(name, s)) == HeaderName(s) && CString(ValueBuffer(value, s)) == HeaderValue(s)
    ensures AfterEol(LineRest(value, s)) == AfterHeader(s)
  {
    hide CString, IsText, Find, SkipBlanks, WordBuffer, WordCount, AfterWord, AfterEol;
    NameIsRead(s, name);
    var t := ValueInput(s);
    ValueIsRead(t, value);
    RestOfLine(t);
    var n := WordCount(t, VALUE_SIZE - 1, IsEol);
    assert [] + AfterWord(t, VALUE_SIZE - 1, IsEol) == AfterWord(t, VALUE_SIZE - 1, IsEol);
  }

  lemma NameIsRead(s: string, before: string)
    requires IsText(s) && Find(s, IsColon) < NAME_SIZE - 1 && Find(s, IsColon) < |s| && |before| == NAME_SIZE
    ensures var n := WordCount(s, NAME_SIZE - 1, IsColon);
            && n == |HeaderName(s)| && AfterWord(s, NAME_SIZE - 1, IsColon) == s[n + 1..]
            && CString(WordBuffer(before, s, NAME_SIZE - 1, IsColon)[n := NUL]) == HeaderName(s)
  {
    hide CString, IsText;
    var n := Find(s, IsColon);
    var w := HeaderName(s);
    var b := WordBuffer(before, s, NAME_SIZE - 1, IsColon)[n := NUL];
    assert b == w + [NUL] + before[n + 1..];
    assert IsText(w) by { PrefixIsText(s, n); }
    CStringEnds(w, before[n + 1..]);
  }

  lemma PrefixIsText(s: string, n: nat)
    requires IsText(s) && n <= |s|
    ensures IsText(s[..n]) && IsText(s[n..])
  {}

  lemma ValueIsRead(t: string, before: string)
    requires IsText(t) && Find(t, IsEol) < |t| && |before| == VALUE_SIZE
    ensures var n, m := WordCount(t, VALUE_SIZE - 1, IsEol), Find(t, IsEol);
            && n == Min(m, VALUE_SIZE - 1)
            && CString(WordBuffer(before, t, VALUE_SIZE - 1, IsEol)[n := NUL]) == t[..n]
            && (n < VALUE_SIZE - 1 ==> WordBuffer(before, t, VALUE_SIZE - 1, IsEol)[n] == t[m])
  {
    hide CString, IsText, Find;
    var n := WordCount(t, VALUE_SIZE - 1, IsEol);
    var b := WordBuffer(before, t, VALUE_SIZE - 1, IsEol)[n := NUL];
    PrefixIsText(t, n);
    assert b == t[..n] + [NUL] + b[n + 1..];
    CStringEnds(t[..n], b[n + 1..]);
  }

  /** What is left of the line makes no difference to where the next one starts. */
  lemma RestOfLine(t: string)
    requires Find(t, IsEol) < |t|
    ensures var m := Find(t, IsEol);
            && t[m] != NUL
            && (m < VALUE_SIZE - 1 ==> [t[m]] + AfterWord(t, VALUE_SIZE - 1, IsEol) == t[m..])
            && (m >= VALUE_SIZE - 1 ==> AfterEol(AfterWord(t, VALUE_SIZE - 1, IsEol)) == AfterEol(t[m..]))
  {
    hide AfterEol, Find;
    var m := Find(t, IsEol);
    FindStops(t, IsEol);
    if m < VALUE_SIZE - 1 {
      DropOne(t, m);
    } else {
      EolIsBehind(t, VALUE_SIZE - 1);
      var w := t[VALUE_SIZE - 1..m];
      assert t[VALUE_SIZE - 1..] == w + t[m..];
      AfterEolSkips(w, t[m..]);
    }
  }

  lemma EolIsBehind(t: string, n: nat)
    requires n <= Find(t, IsEol)
    ensures forall k | 0 <= k < Find(t, IsEol) - n :: t[n..Find(t, IsEol)][k] != '\n'
  {
    FindStops(t, IsEol);
  }

  // ---------------------------------------------------------------- the header block

  /** The lines that were read are these headers. */
  ghost predicate Recorded(lines: seq<Line>, hs: seq<Header>) {
    |lines| == |hs| && forall k | 0 <= k < |hs| :: lines[k].name == hs[k].name && lines[k].Value() == hs[k].value
  }

  // ---------------------------------------------------------------- all the lines of any input

  /** Where the next line starts. */
  function NextLine(before: string, s: string): (r: string)
    requires |before| == VALUE_SIZE
    ensures |r| > 0 ==> |r| < |s|
  {
    AfterEol(LineRest(before, s))
  }

  /** The lines that are read from `s`, when the two buffers hold `name` and `value` at first. */
  function LinesOf(s: string, done: bool, name: string, value: string): seq<Line>
    requires |name| == NAME_SIZE && |value| == VALUE_SIZE
    decreases |s|
  {
    if done then []
    else
      var n, v, r := NameBuffer(name, s), ValueBuffer(value, s), NextLine(value, s);
      [Line(CString(n), v)] + (if |r| == 0 then [] else LinesOf(r, StartsEmptyLine(r), n, v))
  }

  /** What they leave. */
  function RestOf(s: string, done: bool, name: string, value: string): string
    requires |name| == NAME_SIZE && |value| == VALUE_SIZE
    decreases |s|
  {
    if done then s
    else
      var n, v, r := NameBuffer(name, s), ValueBuffer(value, s), NextLine(value, s);
      if |r| == 0 then "" else RestOf(r, StartsEmptyLine(r), n, v)
  }

  /** The lines are those of `s`, whatever was in the buffers before. */
  ghost predicate AreLines(lines: seq<Line>, s: string) {
    exists name: string, value: string ::
      |name| == NAME_SIZE && |value| == VALUE_SIZE && lines == LinesOf(s, StartsEmptyLine(s), name, value)
  }

  /** The lines are those of some end of the input, with at most one byte in front. */
  ghost predicate ComeFrom(lines: seq<Line>, s: string) {
    exists t: string :: IsLater(t, s) && AreLines(lines, t)
  }

  /** Of all the lines, those so far and those to come. */
  ghost predicate Parts(all: seq<Line>, before: seq<Line>, after: seq<Line>) {
    all == before + after
  }

  lemma PartsMove(all: seq<Line>, before: seq<Line>, line: Line, after: seq<Line>)
    ensures Parts(all, [], all)
    ensures Parts(all, before, [line] + after) ==> Parts(all, before + [line], after)
    ensures Parts(all, before, []) ==> all == before
  {}

  lemma OneLine(s: string, name: string, value: string)
    requires |name| == NAME_SIZE && |value| == VALUE_SIZE
    ensures var n, v, r := NameBuffer(name, s), ValueBuffer(value, s), NextLine(value, s);
            && LinesOf(s, false, name, value)
                 == [Line(CString(n), v)] + (if |r| == 0 then [] else LinesOf(r, StartsEmptyLine(r), n, v))
            && RestOf(s, false, name, value) == if |r| == 0 then "" else RestOf(r, StartsEmptyLine(r), n, v)
    ensures LinesOf(s, true, name, value) == [] && RestOf(s, true, name, value) == s
  {}

  lemma {:induction false} SkippedIsText(s: string)
    requires IsText(s)
    ensures IsText(SkipBlanks(s)) && IsText(SkipIndent(s))
    decreases |s|
  {
    if |s| > 0 {
      SkippedIsText(s[1..]);
    }
  }

  lemma {:induction false} LineEndIsText(s: string)
    requires IsText(s)
    ensures IsText(AfterEol(s))
    decreases |s|
  {
    if |s| > 0 {
      SkippedIsText(s[1..]);
      LineEndIsText(s[1..]);
    }
  }

  lemma LineIsText(s: string)
    requires IsText(s)
    ensures IsText(ValueInput(s)) && (IsHeader(s) ==> IsText(AfterHeader(s)))
  {
    hide Find;
    SkippedIsText(AfterWord(s, NAME_SIZE - 1, IsColon));
    if IsHeader(s) {
      SkippedIsText(s[Find(s, IsColon) + 1..]);
      var t := HeaderText(s);
      LineEndIsText(t[Find(t, IsEol)..]);
    }
  }

  lemma HeaderComesNext(s: string)
    requires IsHeaderBlock(s) && !StartsEmptyLine(s)
    ensures IsHeader(s) && Find(s, IsColon) < |s| && |AfterHeader(s)| > 0
  {}

  /** In a header block the lines are its headers. */
  lemma {:induction false} LinesOfBlock(s: string, name: string, value: string)
    requires IsHeaderBlock(s) && IsText(s) && |name| == NAME_SIZE && |value| == VALUE_SIZE
    ensures Recorded(LinesOf(s, StartsEmptyLine(s), name, value), Headers(s))
    ensures RestOf(s, StartsEmptyLine(s), name, value) == AfterHeaders(s) && |AfterHeaders(s)| > 0
    decreases |s|
  {
    hide IsHeader, Find, HeaderName, HeaderValue, AfterHeader, CString, IsText, NameBuffer, ValueBuffer, LinesOf,
         RestOf, LineRest;
    OneLine(s, name, value);
    if !StartsEmptyLine(s) {
      HeaderComesNext(s);
      LineIsText(s);
      HeaderIsRead(s, name, value);
      LinesOfBlock(AfterHeader(s), NameBuffer(name, s), ValueBuffer(value, s));
      RecordFirst(Line(HeaderName(s), ValueBuffer(value, s)), HeaderName(s), HeaderValue(s),
                  LinesOf(AfterHeader(s), StartsEmptyLine(AfterHeader(s)), NameBuffer(name, s), ValueBuffer(value, s)),
                  Headers(AfterHeader(s)));
    }
  }

  lemma RecordFirst(line: Line, name: string, value: string, lines: seq<Line>, hs: seq<Header>)
    requires line.name == name && line.Value() == value && Recorded(lines, hs)
    ensures Recorded([line] + lines, [Header(name, value)] + hs)
  {
    hide CString;
  }

  // ---------------------------------------------------------------- the content types

  /** The content type that the headers announce: that of the last one that names a known type. */
  function ContentTypeOf(hs: seq<Header>): nat {
    if |hs| == 0 then TEXT_HTML
    else
      var h := hs[|hs| - 1];
      if SameWord(h.name, "content-type") && FirstMime(h.value, 0) < MIME_TYPES then FirstMime(h.value, 0)
      else ContentTypeOf(hs[..|hs| - 1])
  }

  /** The bit of the content type that the client accepts. */
  function AcceptedBy(hs: seq<Header>): nat {
    if |hs| == 0 then TEXT_HTML
    else
      var h := hs[|hs| - 1];
      var before := AcceptedBy(hs[..|hs| - 1]);
      if SameWord(h.name, "accept") then AcceptOf(before, h.value, MIME_TYPES) else before
  }

  /** Both follow from what the buffers hold up to their NULs, whatever lies behind. */
  lemma {:induction false} TypesAreRecorded(build: Build, check: (nat, string) -> int, e: Effects, lines: seq<Line>,
                                            hs: seq<Header>)
    requires Recorded(lines, hs) && e.accept == e.contentType == TEXT_HTML
    ensures var r := ApplyAll(build, check, e, lines); r.contentType == ContentTypeOf(hs) && r.accept == AcceptedBy(hs)
    decreases |lines|
  {
    hide SameWord, FirstMime, AcceptOf, CString;
    if |lines| > 0 {
      var n := |lines| - 1;
      assert Recorded(lines[..n], hs[..n]);
      TypesAreRecorded(build, check, e, lines[..n], hs[..n]);
      assert lines[n].name == hs[n].name && lines[n].Value() == hs[n].value;
      OneName(lines[n]);
    }
  }

  lemma OneName(line: Line)
    ensures !(SameWord(line.name, "accept") && SameWord(line.name, "content-type"))
    ensures IsAuthorization(line) ==> !SameWord(line.name, "accept") && !SameWord(line.name, "content-type")
  {}
}
