/**
 The shape of a request as the parser reads it, as functions on the unread input: the
 request line, the header lines and the ends of lines.
 */
module RequestText {
  import opened Text
  import opened Stream

  // ---------------------------------------------------------------- searching

  predicate IsColon(c: char) { c == ':' }
  predicate IsEol(c: char) { c == '\r' || c == '\n' }

  // ---------------------------------------------------------------- ends of lines

  /** Space up to the next newline; a newline stays. */
  function SkipIndent(s: string): (r: string)
    ensures |r| <= |s|
    ensures |r| > 0 ==> r[0] == '\n' || !IsSpace(r[0])
  {
    if |s| > 0 && IsSpace(s[0]) && s[0] != '\n' then SkipIndent(s[1..]) else s
  }

  /** What is left after an end of line: everything through the newline goes, and then space up to a second one. */
  function AfterEol(s: string): (r: string)
    ensures |r| <= |s| && (|s| > 0 ==> |r| < |s|)
    ensures |r| > 0 ==> r[0] == '\n' || !IsSpace(r[0])
  {
    if |s| == 0 then "" else if s[0] == '\n' then SkipIndent(s[1..]) else AfterEol(s[1..])
  }

  lemma SkipIndentStep(c: char, s: string)
    ensures SkipIndent([c] + s) == if IsSpace(c) && c != '\n' then SkipIndent(s) else [c] + s
  {
    assert ([c] + s)[1..] == s;
  }

  lemma AfterEolStep(c: char, s: string)
    ensures AfterEol([c] + s) == if c == '\n' then SkipIndent(s) else AfterEol(s)
  {
    assert ([c] + s)[1..] == s;
  }

  lemma {:induction false} AfterEolSkips(w: string, s: string)
    requires forall k | 0 <= k < |w| :: w[k] != '\n'
    ensures AfterEol(w + s) == AfterEol(s)
  {
    if |w| == 0 {
      assert w + s == s;
    } else {
      assert w + s == [w[0]] + (w[1..] + s);
      AfterEolStep(w[0], w[1..] + s);
      AfterEolSkips(w[1..], s);
    }
  }

  /** Either end of line. */
  predicate IsLineEnd(e: string) {
    e == "\r\n" || e == "\n"
  }

  /** An end of line and then a line that does not start with space. */
  lemma AfterLineEnd(e: string, s: string)
    requires IsLineEnd(e) && (|s| > 0 ==> !IsSpace(s[0]))
    ensures AfterEol(e + s) == s
  {
    SkipStops(s);
    if e == "\r\n" {
      assert e + s == ['\r'] + (['\n'] + s);
      AfterEolStep('\r', ['\n'] + s);
    } else {
      assert e + s == ['\n'] + s;
    }
    AfterEolStep('\n', s);
  }

  lemma SkipStops(s: string)
    requires |s| > 0 ==> s[0] == '\n' || !IsSpace(s[0])
    ensures SkipIndent(s) == s
  {}

  /** An end of line and then an empty line: the second newline stays. */
  lemma AfterBlankLine(e: string, blank: string, s: string)
    requires IsLineEnd(e) && IsLineEnd(blank)
    ensures AfterEol(e + (blank + s)) == ['\n'] + s
  {
    var t := ['\n'] + s;
    assert blank + s == if blank == "\n" then t else ['\r'] + t;
    SkipStops(t);
    SkipIndentStep('\r', t);
    if e == "\r\n" {
      assert e + (blank + s) == ['\r'] + (['\n'] + (blank + s));
      AfterEolStep('\r', ['\n'] + (blank + s));
    } else {
      assert e + (blank + s) == ['\n'] + (blank + s);
    }
    AfterEolStep('\n', blank + s);
  }

  // ---------------------------------------------------------------- what is left of an input

  /** `t` is the end of `s`, with at most one byte in front in place of one that was taken. */
  ghost predicate IsLater(t: string, s: string) {
    exists k: nat :: k <= |s| && IsLaterAt(t, s, k)
  }

  predicate IsLaterAt(t: string, s: string, k: nat)
    requires k <= |s|
  {
    t == s[k..] || (k >= 1 && |t| > 0 && t[1..] == s[k..])
  }

  lemma LaterTwice(t: string, r: string, s: string)
    requires IsLater(t, r) && IsLater(r, s)
    ensures IsLater(t, s)
  {
    var j: nat :| j <= |r| && IsLaterAt(t, r, j);
    var k: nat :| k <= |s| && IsLaterAt(r, s, k);
    if r == s[k..] {
      assert r[j..] == s[k + j..];
      assert IsLaterAt(t, s, k + j);
    } else if j == 0 {
      assert r[0..] == r;
      assert IsLaterAt(t, s, k);
    } else {
      assert r[j..] == r[1..][j - 1..] == s[k + j - 1..];
      assert IsLaterAt(t, s, k + j - 1);
    }
  }

  lemma LaterDrop(s: string, k: nat)
    requires k <= |s|
    ensures IsLater(s[k..], s) && (k >= 1 ==> forall c :: IsLater([c] + s[k..], s))
  {
    assert IsLaterAt(s[k..], s, k);
    forall c | k >= 1 ensures IsLater([c] + s[k..], s) {
      assert IsLaterAt([c] + s[k..], s, k);
    }
  }

  lemma {:induction false} SkippedIsLater(s: string)
    ensures IsLater(SkipBlanks(s), s) && IsLater(SkipIndent(s), s)
    decreases |s|
  {
    hide IsLater;
    LaterDrop(s, 0);
    if |s| > 0 {
      LaterDrop(s, 1);
      SkippedIsLater(s[1..]);
      if IsBlank(s[0]) {
        LaterTwice(SkipBlanks(s), s[1..], s);
      }
      if IsSpace(s[0]) && s[0] != '\n' {
        LaterTwice(SkipIndent(s), s[1..], s);
      }
    }
  }

  lemma {:induction false} EolIsLater(s: string)
    ensures IsLater(AfterEol(s), s)
    decreases |s|
  {
    hide IsLater;
    LaterDrop(s, 0);
    if |s| > 0 {
      LaterDrop(s, 1);
      SkippedIsLater(s[1..]);
      EolIsLater(s[1..]);
      LaterTwice(AfterEol(s), s[1..], s);
    }
  }

  // ---------------------------------------------------------------- the request line

  const GET := "GET"
  const POST := "POST"
  const PUT := "PUT"
  const DELETE := "DELETE"
  const PATCH := "PATCH"

  datatype Verb = Get | Post | Put | Delete | Patch | NotSupported

  function VerbOf(w: string): Verb {
    if w == GET then Get
    else if w == POST then Post
    else if w == PUT then Put
    else if w == DELETE then Delete
    else if w == PATCH then Patch
    else NotSupported
  }

  /** The method: up to nine characters before a blank. */
  function MethodWord(t: string): string {
    t[..Min(9, Find(t, IsBlank))]
  }

  /** A blank right after the method is consumed with it. */
  function AfterMethod(t: string): string {
    var b := Find(t, IsBlank);
    if b < 9 && b < |t| then t[b + 1..] else t[Min(9, |t|)..]
  }

  const URL_SIZE := 64

  /** The part of a target that fits the URL buffer. */
  function Target(t: string): (u: string)
    ensures |u| <= URL_SIZE - 1
  {
    t[..Min(Find(t, IsBlank), URL_SIZE - 1)]
  }

  /** Each question mark ends a string. */
  function SplitMarks(u: string): (r: string)
    ensures |r| == |u|
  {
    seq(|u|, i requires 0 <= i < |u| => if u[i] == '?' then NUL else u[i])
  }

  /** The position after the last question mark, or -1. */
  function ParamsAt(u: string): (p: int)
    ensures -1 <= p <= |u| && p != 0
  {
    if |u| == 0 then -1
    else if u[|u| - 1] == '?' then |u|
    else ParamsAt(u[..|u| - 1])
  }

  datatype Version = Unknown | V1_0 | V1_1

  /** Only as many characters as were given are compared, so any beginning will do. */
  function VersionOf(w: string): Version {
    if w <= "HTTP/1.0" then V1_0 else if w <= "HTTP/1.1" then V1_1 else Unknown
  }

  // ---------------------------------------------------------------- header lines

  const NAME_SIZE := 64
  const VALUE_SIZE := 64

  /** A line whose name and colon fit the name buffer and whose value is ended by an end of line. */
  ghost predicate IsHeader(s: string) {
    var n := Find(s, IsColon);
    && n < |s| && n < NAME_SIZE - 1
    && var t := SkipBlanks(s[n + 1..]);
       Find(t, IsEol) < |t|
  }

  function HeaderName(s: string): string {
    s[..Find(s, IsColon)]
  }

  function HeaderText(s: string): string
    requires Find(s, IsColon) < |s|
  {
    SkipBlanks(s[Find(s, IsColon) + 1..])
  }

  function HeaderValue(s: string): string
    requires Find(s, IsColon) < |s|
  {
    var t := HeaderText(s);
    t[..Min(Find(t, IsEol), VALUE_SIZE - 1)]
  }

  function AfterHeader(s: string): (r: string)
    requires Find(s, IsColon) < |s|
    ensures |r| < |s|
    ensures |r| > 0 ==> r[0] == '\n' || !IsSpace(r[0])
  {
    var t := HeaderText(s);
    AfterEol(t[Find(t, IsEol)..])
  }

  /** Header lines up to an empty line, of which the newline is left. */
  ghost predicate IsHeaderBlock(s: string)
    decreases |s|
  {
    |s| > 0 && (s[0] == '\n' || (IsHeader(s) && IsHeaderBlock(AfterHeader(s))))
  }

  datatype Header = Header(name: string, value: string)

  function Headers(s: string): seq<Header>
    requires IsHeaderBlock(s)
    decreases |s|
  {
    if s[0] == '\n' then [] else [Header(HeaderName(s), HeaderValue(s))] + Headers(AfterHeader(s))
  }

  function AfterHeaders(s: string): string
    requires IsHeaderBlock(s)
    decreases |s|
  {
    if s[0] == '\n' then s else AfterHeaders(AfterHeader(s))
  }

  // ---------------------------------------------------------------- whole requests

  /** The method of any input at all. */
  function VerbAt(s: string): Verb {
    if |SkipBlanks(s)| == 0 then NotSupported else VerbOf(MethodWord(SkipBlanks(s)))
  }

  /** The input where the target starts. */
  function AtTarget(s: string): string {
    SkipBlanks(AfterMethod(SkipBlanks(s)))
  }

  function AtVersion(s: string): string {
    SkipBlanks(AtTarget(s)[Find(AtTarget(s), IsBlank)..])
  }

  function VersionText(s: string): string {
    AtVersion(s)[..Find(AtVersion(s), IsSpace)]
  }

  function AtHeaders(s: string): string {
    AfterEol(AtVersion(s)[Find(AtVersion(s), IsSpace)..])
  }

  /** A supported method, a target, and a version that fits its buffer. */
  ghost predicate IsRequestLine(s: string) {
    && VerbAt(s) != NotSupported
    && Find(AtTarget(s), IsBlank) < |AtTarget(s)|
    && |VersionText(s)| <= 8 && |VersionText(s)| < |AtVersion(s)|
  }

  ghost predicate IsRequest(s: string) {
    IsRequestLine(s) && IsHeaderBlock(AtHeaders(s))
  }
}
