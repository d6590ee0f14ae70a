/** What header lines mean: the accepted and the incoming content type, and the credentials. */
module HeaderEffects {
  import opened Text

  const OK := 200
  const UNAUTHORIZED := 401
  const NOT_FOUND := 404
  const INTERNAL_ERROR := 500
  const UNSUPPORTED := 501
  const UNKNOWN := 510
  const SERVER_SENT_EVENTS := 1

  /** Whether the server was built with an authentication scheme. */
  datatype Build = NoAuth | BasicAuth | DigestAuth

  // ---------------------------------------------------------------- string comparison

  function LowerChar(c: char): char {
    if 'A' <= c <= 'Z' then c + 32 as char else c
  }

  /** strcasecmp(a, b) == 0 */
  predicate SameWord(a: string, b: string) {
    |a| == |b| && forall i | 0 <= i < |a| :: LowerChar(a[i]) == LowerChar(b[i])
  }

  /** The first position of `word` in `s`, as strstr finds it, or -1. */
  function IndexOf(s: string, word: string): (i: int)
    ensures -1 <= i && (i >= 0 ==> i + |word| <= |s| && s[i..][..|word|] == word)
  {
    if word <= s then 0
    else if |s| == 0 then -1
    else
      var i := IndexOf(s[1..], word);
      assert i >= 0 ==> s[1..][i..] == s[i + 1..];
      if i < 0 then -1 else i + 1
  }

  // ---------------------------------------------------------------- the tables

  const MIME_TYPES := 7
  const XWWWFORM := 5
  const TEXT_HTML := 1

  function MimeType(i: nat): string {
    match i
    case 0 => "application/json"
    case 1 => "text/html"
    case 2 => "text/plain"
    case 3 => "text/css"
    case 4 => "application/javascript"
    case 5 => "application/x-www-form-urlencoded"
    case 6 => "image/png"
    case _ => "text/event-stream"
  }

  const AUTH_TYPES := 2

  function AuthType(i: nat): (s: string)
    ensures |s| > 0
  {
    if i == 0 then "Basic" else "Digest"
  }

  // ---------------------------------------------------------------- one line

  /** A header line as its two buffers hold it; what lies behind the value's NUL is kept too. */
  datatype Line = Line(name: string, buffer: string) {
    function Value(): string {
      CString(buffer)
    }
  }

  datatype Effects = Effects(accept: nat, contentType: nat, authenticated: int, code: int)

  function Power2(i: nat): nat {
    if i == 0 then 1 else 2 * Power2(i - 1)
  }

  /** The accepted type after comparing `value` with the first `n` types; the last match wins. */
  function AcceptOf(accept: nat, value: string, n: nat): nat {
    if n == 0 then accept
    else if SameWord(value, MimeType(n - 1)) then Power2(n - 1)
    else AcceptOf(accept, value, n - 1)
  }

  /** The first content type from `i` on that occurs in `value`; its number, or `MIME_TYPES`. */
  function FirstMime(value: string, i: nat): (r: nat)
    requires i <= MIME_TYPES
    ensures i <= r <= MIME_TYPES
    decreases MIME_TYPES - i
  {
    if i == MIME_TYPES || IndexOf(value, MimeType(i)) >= 0 then i else FirstMime(value, i + 1)
  }

  /** The first scheme that occurs in `value`, or `AUTH_TYPES`. */
  function Scheme(value: string): (i: nat)
    ensures i <= AUTH_TYPES
    ensures i < AUTH_TYPES ==> IndexOf(value, AuthType(i)) >= 0
  {
    if IndexOf(value, AuthType(0)) >= 0 then 0 else if IndexOf(value, AuthType(1)) >= 0 then 1 else AUTH_TYPES
  }

  /** The string behind the scheme and one more character; it ends where the buffer does, if not before. */
  function Credentials(line: Line, i: nat): string
    requires IndexOf(line.Value(), AuthType(i)) >= 0
  {
    var at := IndexOf(line.Value(), AuthType(i)) + |AuthType(i)| + 1;
    if at <= |line.buffer| then CString(line.buffer[at..]) else ""
  }

  predicate IsAuthorization(line: Line) {
    SameWord(line.name, "authorization")
  }

  /** The check of one Authorization line. */
  function CheckAuth(check: (nat, string) -> int, e: Effects, line: Line): Effects {
    var i := Scheme(line.Value());
    if i == AUTH_TYPES then e.(code := UNAUTHORIZED)
    else
      var ret := check(i, Credentials(line, i));
      e.(authenticated := ret, code := if ret == 0 && e.code == UNKNOWN then UNAUTHORIZED else e.code)
  }

  function Apply(build: Build, check: (nat, string) -> int, e: Effects, line: Line): Effects {
    if SameWord(line.name, "accept") then e.(accept := AcceptOf(e.accept, line.Value(), MIME_TYPES))
    else if SameWord(line.name, "content-type") then
      var i := FirstMime(line.Value(), 0);
      if i < MIME_TYPES then e.(contentType := i) else e
    else if IsAuthorization(line) && build != NoAuth then CheckAuth(check, e, line)
    else e
  }

  function ApplyAll(build: Build, check: (nat, string) -> int, e: Effects, lines: seq<Line>): Effects {
    if |lines| == 0 then e
    else Apply(build, check, ApplyAll(build, check, e, lines[..|lines| - 1]), lines[|lines| - 1])
  }

  lemma ApplyOneMore(build: Build, check: (nat, string) -> int, e: Effects, lines: seq<Line>, line: Line)
    ensures ApplyAll(build, check, e, lines + [line]) == Apply(build, check, ApplyAll(build, check, e, lines), line)
  {
    assert (lines + [line])[..|lines|] == lines;
  }

  lemma NoLines(build: Build, check: (nat, string) -> int, e: Effects)
    ensures ApplyAll(build, check, e, []) == e
  {}

  // ---------------------------------------------------------------- who is let in

  /** The line names a known scheme, and the check accepts what follows. */
  predicate Accepted(check: (nat, string) -> int, line: Line) {
    var i := Scheme(line.Value());
    i < AUTH_TYPES && check(i, Credentials(line, i)) != 0
  }

  ghost predicate AnyAuthorization(lines: seq<Line>) {
    exists k :: 0 <= k < |lines| && IsAuthorization(lines[k])
  }

  ghost predicate AllAccepted(check: (nat, string) -> int, lines: seq<Line>) {
    forall k | 0 <= k < |lines| && IsAuthorization(lines[k]) :: Accepted(check, lines[k])
  }

  /** There is an Authorization line, and every one is accepted. */
  ghost predicate Granted(check: (nat, string) -> int, lines: seq<Line>) {
    AnyAuthorization(lines) && AllAccepted(check, lines)
  }

  lemma AuthorizationIsAlone(line: Line)
    requires IsAuthorization(line)
    ensures !SameWord(line.name, "accept") && !SameWord(line.name, "content-type")
  {
    assert |line.name| == 13;
  }

  lemma OneMoreLine(check: (nat, string) -> int, lines: seq<Line>)
    requires |lines| > 0
    ensures var init, last := lines[..|lines| - 1], lines[|lines| - 1];
            && (AnyAuthorization(lines) <==> AnyAuthorization(init) || IsAuthorization(last))
            && (AllAccepted(check, lines) <==>
                  AllAccepted(check, init) && (IsAuthorization(last) ==> Accepted(check, last)))
  {
    hide IsAuthorization, Accepted;
    var n, init := |lines| - 1, lines[..|lines| - 1];
    assert forall k | 0 <= k < n :: init[k] == lines[k];
    if AnyAuthorization(init) {
      var k :| 0 <= k < n && IsAuthorization(init[k]);
      assert IsAuthorization(lines[k]);
    }
    if AllAccepted(check, lines) {
      forall k | 0 <= k < n && IsAuthorization(init[k]) ensures Accepted(check, init[k]) {
        assert IsAuthorization(lines[k]);
      }
    }
  }

  /** One line changes the code and the flag only when it is an Authorization line. */
  lemma LineDecides(build: Build, check: (nat, string) -> int, e: Effects, line: Line)
    requires build != NoAuth && (e.code == UNKNOWN || e.code == UNAUTHORIZED)
    ensures var r := Apply(build, check, e, line);
            && (r.code == UNKNOWN || r.code == UNAUTHORIZED)
            && (r.code == UNKNOWN <==> e.code == UNKNOWN && (IsAuthorization(line) ==> Accepted(check, line)))
            && (IsAuthorization(line) && Accepted(check, line) ==> r.authenticated != 0)
            && (!IsAuthorization(line) ==> r.authenticated == e.authenticated)
  {
    hide Scheme, Credentials, AcceptOf, FirstMime, SameWord;
    if IsAuthorization(line) {
      AuthorizationIsAlone(line);
    }
  }

  /** After all lines the client is let in exactly when it was granted; the only other code is 401. */
  lemma {:induction false} AuthDecides(build: Build, check: (nat, string) -> int, accept: nat, contentType: nat,
                                       lines: seq<Line>)
    requires build != NoAuth
    ensures var e := ApplyAll(build, check, Effects(accept, contentType, 0, UNKNOWN), lines);
            && (e.code == UNKNOWN || e.code == UNAUTHORIZED)
            && (e.code == UNKNOWN <==> AllAccepted(check, lines))
            && (e.code == UNKNOWN ==> (e.authenticated != 0 <==> AnyAuthorization(lines)))
  {
    if |lines| > 0 {
      hide Apply, AllAccepted, AnyAuthorization, Accepted, IsAuthorization;
      var init, last := lines[..|lines| - 1], lines[|lines| - 1];
      AuthDecides(build, check, accept, contentType, init);
      OneMoreLine(check, lines);
      LineDecides(build, check, ApplyAll(build, check, Effects(accept, contentType, 0, UNKNOWN), init), last);
    }
  }

  /** Without authentication no line changes the code or the flag. */
  lemma {:induction false} NoAuthIgnores(check: (nat, string) -> int, e: Effects, lines: seq<Line>)
    ensures var r := ApplyAll(NoAuth, check, e, lines); r.code == e.code && r.authenticated == e.authenticated
  {
    if |lines| > 0 {
      NoAuthIgnores(check, e, lines[..|lines| - 1]);
    }
  }
}
