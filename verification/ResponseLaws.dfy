/** What a client reads out of an answer, and who is answered. */
module ResponseLaws {
  import opened Text
  import opened RequestText
  import opened RequestFacts
  import opened HeaderEffects
  import opened Response
  import Params

  // ---------------------------------------------------------------- who is answered

  /** The number that a string of digits says. */
  function Number(s: string): int {
    if |s| == 0 then 0 else 10 * Number(s[..|s| - 1]) + (s[|s| - 1] as int - '0' as int)
  }

  lemma {:induction false} DecimalReadsBack(n: nat)
    ensures Number(Decimal(n)) == n
  {
    var s := Decimal(n);
    if n < 10 {
      assert s[..0] == "";
    } else {
      assert s[..|s| - 1] == Decimal(n / 10);
      DecimalReadsBack(n / 10);
    }
  }

  /**
   In a build with authentication, the answer is the 401 message exactly when the method is not
   supported, or no Authorization header came, or one of them named no known scheme or was not
   accepted.  So no page, no event stream and no callback is reached without credentials.
   */
  lemma OnlyTheGrantedAreServed(build: Build, check: (nat, string) -> int, site: Site, q: Parsed)
    requires LegalSite(site) && q.urlLen <= |q.url| && q.code >= 0 && build != NoAuth
    ensures Outcome(build, check, site, q) == Refusal(build) <==>
              q.verb == NotSupported || !AnyAuthorization(q.lines) || !AllAccepted(check, q.lines)
    ensures Outcome(build, check, site, q).calls != [] ==> Granted(check, q.lines)
  {
    hide Params.Upcoming, StatusLine, CallOf, PageAt, IsEvents, CString, AnyAuthorization, AllAccepted;
    var a := Outcome(build, check, site, q);
    if LetIn(build, check, q) {
      assert a == Routed(build, site, q);
    }
  }

  /** Without an Authorization header a request gets nothing, whatever it asks for. */
  lemma NoHeaderNoAccess(build: Build, check: (nat, string) -> int, site: Site, q: Parsed, hs: seq<Header>)
    requires LegalSite(site) && q.urlLen <= |q.url| && q.code >= 0 && build != NoAuth && Recorded(q.lines, hs)
    requires forall k | 0 <= k < |hs| :: !SameWord(hs[k].name, "authorization")
    ensures Outcome(build, check, site, q) == Refusal(build)
  {
    hide SameWord, CString;
    forall k | 0 <= k < |q.lines| ensures !IsAuthorization(q.lines[k]) {
      assert q.lines[k].name == hs[k].name;
    }
    OnlyTheGrantedAreServed(build, check, site, q);
  }

  /** Credentials that stand in the value are read from it, whatever lies behind its NUL. */
  lemma CredentialsAreInValue(line: Line, i: nat)
    requires IndexOf(line.Value(), AuthType(i)) >= 0
    requires IndexOf(line.Value(), AuthType(i)) + |AuthType(i)| + 1 <= |line.Value()|
    ensures Credentials(line, i) == line.Value()[IndexOf(line.Value(), AuthType(i)) + |AuthType(i)| + 1..]
  {
    hide IndexOf, AuthType;
    CStringFrom(line.buffer, IndexOf(line.Value(), AuthType(i)) + |AuthType(i)| + 1);
  }

  /**
   The pointer to the credentials goes one byte past the value buffer exactly when the value fills it
   and ends with the scheme; the model reads an empty string there.  The string at the pointer runs
   past the buffer exactly when no NUL stands there, which also takes a value that ends with the scheme.
   */
  lemma PointerLeavesBuffer(line: Line, i: nat)
    requires |line.buffer| == VALUE_SIZE && |line.Value()| < VALUE_SIZE && IndexOf(line.Value(), AuthType(i)) >= 0
    ensures var end := IndexOf(line.Value(), AuthType(i)) + |AuthType(i)|;
            && end + 1 <= VALUE_SIZE
            && (end + 1 == VALUE_SIZE <==> |line.Value()| == VALUE_SIZE - 1 && end == |line.Value()|)
            && (end + 1 == VALUE_SIZE ==> Credentials(line, i) == "")
            && (Credentials(line, i) == line.buffer[end + 1..] <==> NUL !in line.buffer[end + 1..])
            && (NUL !in line.buffer[end + 1..] ==> end == |line.Value()|)
  {
    hide IndexOf, AuthType, CString;
    var end := IndexOf(line.Value(), AuthType(i)) + |AuthType(i)|;
    StringIsWhole(line.buffer[end + 1..]);
    StringIsEnded(line.buffer);
    if end < |line.Value()| {
      assert line.buffer[end + 1..][|line.Value()| - end - 1] == NUL;
    }
  }

  lemma {:induction false} StringIsWhole(buffer: string)
    ensures CString(buffer) == buffer <==> NUL !in buffer
  {
    if |buffer| > 0 && buffer[0] != NUL {
      StringIsWhole(buffer[1..]);
      assert buffer == [buffer[0]] + buffer[1..];
      assert CString(buffer)[1..] == CString(buffer[1..]);
    }
  }

  lemma {:induction false} StringIsEnded(buffer: string)
    ensures |CString(buffer)| < |buffer| ==> buffer[|CString(buffer)|] == NUL
  {
    if |buffer| > 0 && buffer[0] != NUL {
      StringIsEnded(buffer[1..]);
    }
  }

  function Filler(n: nat): string {
    seq(n, _ => 'x')
  }

  lemma {:induction false} IndexBehindFiller(n: nat, word: string)
    requires |word| > 0 && word[0] != 'x'
    ensures IndexOf(Filler(n) + word, word) == n
  {
    if n == 0 {
      assert Filler(0) + word == word;
    } else {
      assert (Filler(n) + word)[0] == 'x';
      assert (Filler(n) + word)[1..] == Filler(n - 1) + word;
      IndexBehindFiller(n - 1, word);
    }
  }

  /** A value that does both: 58 characters and then the scheme. */
  function FullLine(): Line {
    Line("authorization", Filler(58) + "Basic" + [NUL])
  }

  lemma PointerLeavesFullLine()
    ensures var line := FullLine();
            && |line.buffer| == VALUE_SIZE && line.Value() == Filler(58) + "Basic" && Scheme(line.Value()) == 0
            && IndexOf(line.Value(), AuthType(0)) + |AuthType(0)| + 1 == VALUE_SIZE
  {
    hide IndexOf, CString, IsText;
    var v := Filler(58) + "Basic";
    assert IsText(v) by { FillerIsText(); }
    assert FullLine().buffer == v + [NUL] + "";
    CStringEnds(v, "");
    IndexBehindFiller(58, "Basic");
  }

  lemma FillerIsText()
    ensures IsText(Filler(58) + "Basic")
  {}

  /** Where the credentials start in the value of a header that names a known scheme. */
  function CredentialsAt(value: string): nat
    requires Scheme(value) < AUTH_TYPES
  {
    IndexOf(value, AuthType(Scheme(value))) + |AuthType(Scheme(value))| + 1
  }

  predicate IsAuthorizationHeader(h: Header) {
    SameWord(h.name, "authorization")
  }

  /** A known scheme is followed by one more character at least, so that nothing behind the value is read. */
  predicate HoldsCredentials(value: string) {
    Scheme(value) < AUTH_TYPES ==> CredentialsAt(value) <= |value|
  }

  /** The value names a known scheme, and the check accepts what stands behind it. */
  predicate IsAcceptedValue(check: (nat, string) -> int, value: string) {
    && Scheme(value) < AUTH_TYPES && CredentialsAt(value) <= |value|
    && check(Scheme(value), value[CredentialsAt(value)..]) != 0
  }

  ghost predicate AllHoldCredentials(hs: seq<Header>) {
    forall k | 0 <= k < |hs| && IsAuthorizationHeader(hs[k]) :: HoldsCredentials(hs[k].value)
  }

  /** There is an Authorization header, and every one is accepted. */
  ghost predicate GrantedBy(check: (nat, string) -> int, hs: seq<Header>) {
    && (exists k :: 0 <= k < |hs| && IsAuthorizationHeader(hs[k]))
    && forall k | 0 <= k < |hs| && IsAuthorizationHeader(hs[k]) :: IsAcceptedValue(check, hs[k].value)
  }

  lemma ValueDecides(check: (nat, string) -> int, line: Line)
    requires HoldsCredentials(line.Value())
    ensures Accepted(check, line) <==> IsAcceptedValue(check, line.Value())
  {
    hide IndexOf, AuthType, CString;
    if Scheme(line.Value()) < AUTH_TYPES {
      CredentialsAreInValue(line, Scheme(line.Value()));
    }
  }

  /** The headers themselves decide who is let in, whatever lies behind them in the buffers. */
  lemma HeadersDecide(check: (nat, string) -> int, lines: seq<Line>, hs: seq<Header>)
    requires Recorded(lines, hs) && AllHoldCredentials(hs)
    ensures Granted(check, lines) <==> GrantedBy(check, hs)
  {
    hide Accepted, IsAcceptedValue, HoldsCredentials, SameWord, CString;
    forall k | 0 <= k < |hs|
      ensures IsAuthorization(lines[k]) <==> IsAuthorizationHeader(hs[k])
      ensures IsAuthorizationHeader(hs[k]) ==> (Accepted(check, lines[k]) <==> IsAcceptedValue(check, hs[k].value))
    {
      assert lines[k].name == hs[k].name && lines[k].Value() == hs[k].value;
      if IsAuthorizationHeader(hs[k]) {
        ValueDecides(check, lines[k]);
      }
    }
  }

  lemma {:induction false} CStringFrom(b: string, n: nat)
    requires n <= |CString(b)|
    ensures CString(b[n..]) == CString(b)[n..]
  {
    if n > 0 {
      CStringFrom(b[1..], n - 1);
      assert b[1..][n - 1..] == b[n..];
    }
  }

  // ---------------------------------------------------------------- what a client reads

  /** The lines up to an empty one, and what follows that. */
  datatype Message = Message(lines: seq<string>, body: string)

  /** The length of the first line. */
  function LineLength(s: string): (n: nat)
    ensures n <= |s|
  {
    if |s| == 0 || EOL <= s then 0 else 1 + LineLength(s[1..])
  }

  function ReadMessage(s: string): Message
    decreases |s|
  {
    var n := LineLength(s);
    if |s| < n + 2 then Message(if |s| == 0 then [] else [s], "")
    else if n == 0 then Message([], s[2..])
    else
      var m := ReadMessage(s[n + 2..]);
      Message([s[..n]] + m.lines, m.body)
  }

  /** Nothing in it ends a line. */
  predicate IsPlain(s: string) {
    forall i | 0 <= i < |s| :: s[i] != '\r'
  }

  predicate IsLine(s: string) {
    |s| > 0 && IsPlain(s)
  }

  lemma {:induction false} LineIsFound(l: string, rest: string)
    requires IsPlain(l)
    ensures LineLength(l + (EOL + rest)) == |l|
  {
    var s := l + (EOL + rest);
    if |l| == 0 {
      assert s[..2] == EOL;
    } else {
      assert s[0] == l[0] != '\r';
      assert s[1..] == l[1..] + (EOL + rest);
      LineIsFound(l[1..], rest);
    }
  }

  lemma ReadLine(l: string, rest: string)
    requires IsLine(l)
    ensures ReadMessage(l + (EOL + rest)) == Message([l] + ReadMessage(rest).lines, ReadMessage(rest).body)
  {
    LineIsFound(l, rest);
    var s := l + (EOL + rest);
    assert s[|l| + 2..] == rest && s[..|l|] == l;
  }

  lemma ReadBlank(rest: string)
    ensures ReadMessage(EOL + rest) == Message([], rest) && ReadMessage("") == Message([], "")
  {
    LineIsFound("", rest);
    assert "" + (EOL + rest) == EOL + rest;
    assert (EOL + rest)[2..] == rest;
  }

  // ---------------------------------------------------------------- what the lines are

  function StatusText(code: nat): string {
    PROTOCOL + Decimal(code) + " " + Reason(code)
  }

  /** The code in the status line: the result of an event stream is not a code of HTTP. */
  function Printed(code: int): int {
    if code == SERVER_SENT_EVENTS then OK else code
  }

  lemma Joined(a: string, b: string)
    requires IsPlain(a) && IsPlain(b)
    ensures IsPlain(a + b)
  {}

  lemma {:induction false} DecimalIsPlain(n: nat)
    ensures IsPlain(Decimal(n))
  {
    if n >= 10 {
      DecimalIsPlain(n / 10);
    }
  }

  lemma ReasonIsPlain(code: int)
    ensures IsPlain(Reason(code))
  {
    ReasonsArePlain();
    hide IsPlain;
  }

  lemma ReasonsArePlain()
    ensures IsPlain("OK") && IsPlain("Accepted") && IsPlain("Bad Request") && IsPlain("Unauthorized")
    ensures IsPlain("Not Found") && IsPlain("Not Implemented") && IsPlain("Internal Error")
  {}

  lemma MimeTypeIsPlain(mime: nat)
    ensures IsPlain(MimeType(mime))
  {
    hide IsPlain;
    if mime <= 3 {
      ShortTypesArePlain();
    } else {
      LongTypesArePlain();
    }
  }

  lemma ShortTypesArePlain()
    ensures IsPlain("application/json") && IsPlain("text/html") && IsPlain("text/plain") && IsPlain("text/css")
  {}

  lemma LongTypesArePlain()
    ensures IsPlain("application/javascript") && IsPlain("application/x-www-form-urlencoded")
    ensures IsPlain("image/png") && IsPlain("text/event-stream")
  {}

  lemma StatusIsLine(code: nat, rest: string)
    ensures IsLine(StatusText(code)) && StatusLine(code) + rest == StatusText(code) + (EOL + rest)
  {
    assert IsPlain(PROTOCOL) && IsPlain(" ") && |PROTOCOL| > 0;
    hide PROTOCOL, EOL, Decimal, Reason, IsPlain;
    DecimalIsPlain(code);
    ReasonIsPlain(code);
    Joined(PROTOCOL, Decimal(code));
    Joined(PROTOCOL + Decimal(code), " ");
    Joined(PROTOCOL + Decimal(code) + " ", Reason(code));
    assert StatusLine(code) == StatusText(code) + EOL;
    assert (StatusText(code) + EOL) + rest == StatusText(code) + (EOL + rest);
  }

  /** A header line that is no status line. */
  predicate IsField(l: string) {
    IsLine(l) && l[0] != 'H'
  }

  function TypeText(mime: nat): string {
    TYPE_FIELD + MimeType(mime) + CHARSET
  }

  function LengthText(n: nat): string {
    LENGTH_FIELD + Decimal(n)
  }

  lemma TypeIsField(mime: nat)
    ensures IsField(TypeText(mime)) && IsField(TYPE_FIELD + MimeType(mime))
  {
    assert IsPlain(TYPE_FIELD) && IsPlain(CHARSET) && TYPE_FIELD[0] != 'H';
    hide TYPE_FIELD, CHARSET, MimeType, IsPlain;
    MimeTypeIsPlain(mime);
    Joined(TYPE_FIELD, MimeType(mime));
    Joined(TYPE_FIELD + MimeType(mime), CHARSET);
  }

  lemma LengthIsField(n: nat)
    ensures IsField(LengthText(n))
  {
    assert IsPlain(LENGTH_FIELD) && LENGTH_FIELD[0] != 'H';
    hide LENGTH_FIELD, Decimal, IsPlain;
    DecimalIsPlain(n);
    Joined(LENGTH_FIELD, Decimal(n));
  }

  lemma ConstantsAreFields()
    ensures IsField(GZIP_FIELD) && IsField(NO_CACHE_FIELD)
  {}

  /** The header lines of a page. */
  function PageFields(page: Page, gzip: bool): seq<string> {
    [TypeText(page.mime)]
    + (if |page.content| > 0 then [LengthText(|page.content|)] else [])
    + (if gzip then [GZIP_FIELD] else [])
  }

  /**
   A client reads a page back: the status 200, a Content-Length exactly when there is a body,
   and then it is the number of its bytes, and the body itself.
   */
  lemma ServedReadsBack(page: Page, gzip: bool)
    ensures ReadMessage(Served(page, gzip).sent) == Message([StatusText(OK)] + PageFields(page, gzip), page.content)
    ensures Number(Decimal(|page.content|)) == |page.content|
  {
    hide MimeType, Decimal, StatusLine, StatusText, TypeText, LengthText, IsField, ReadMessage, EOL, GZIP_FIELD;
    var n := |page.content|;
    DecimalReadsBack(n);
    TypeIsField(page.mime);
    LengthIsField(n);
    ConstantsAreFields();
    var t0 := EOL + page.content;
    var t1 := Encoding(gzip) + t0;
    var t2 := ContentLength(n) + t1;
    var t3 := TypeText(page.mime) + EOL + t2;
    HeadersAreTexts(page, gzip);
    ReadBlank(page.content);
    ReadOptional(GZIP_FIELD, gzip, t0);
    ReadOptional(LengthText(n), n > 0, t1);
    ReadOptional(TypeText(page.mime), true, t2);
    StatusIsLine(OK, t3);
    ReadLine(StatusText(OK), t3);
    var a := [TypeText(page.mime)];
    var b, c := if n > 0 then [LengthText(n)] else [], if gzip then [GZIP_FIELD] else [];
    assert a + (b + (c + [])) == a + b + c;
  }

  lemma HeadersAreTexts(page: Page, gzip: bool)
    ensures PageHeaders(page, gzip) + page.content
         == TypeText(page.mime) + EOL + (ContentLength(|page.content|) + (Encoding(gzip) + (EOL + page.content)))
    ensures ContentLength(|page.content|) == if |page.content| > 0 then LengthText(|page.content|) + EOL else ""
    ensures Encoding(gzip) == if gzip then GZIP_FIELD + EOL else ""
  {
    hide MimeType, Decimal, EOL, GZIP_FIELD, CHARSET, TYPE_FIELD, LENGTH_FIELD;
  }

  lemma ReadOptional(l: string, present: bool, rest: string)
    requires IsField(l)
    ensures var s := (if present then l + EOL else "") + rest;
            var m := ReadMessage(rest);
            ReadMessage(s) == Message((if present then [l] else []) + m.lines, m.body)
  {
    hide ReadMessage, IsLine, EOL;
    if present {
      assert (l + EOL) + rest == l + (EOL + rest);
      ReadLine(l, rest);
    } else {
      assert "" + rest == rest;
      assert [] + ReadMessage(rest).lines == ReadMessage(rest).lines;
    }
  }

  lemma ChallengeIsField(build: Build)
    ensures IsField(ChallengeText(build))
  {
    ChallengeParts();
    hide IsPlain, BASIC_FIELD, DIGEST_FIELD, QOP, OPAQUE, REALM;
    if build == DigestAuth {
      Joined(DIGEST_FIELD, REALM);
      Joined(DIGEST_FIELD + REALM, QOP);
      Joined(DIGEST_FIELD + REALM + QOP, REALM);
      Joined(DIGEST_FIELD + REALM + QOP + REALM, OPAQUE);
      Joined(DIGEST_FIELD + REALM + QOP + REALM + OPAQUE, REALM);
      Joined(DIGEST_FIELD + REALM + QOP + REALM + OPAQUE + REALM, "\"");
    } else {
      Joined(BASIC_FIELD, REALM);
      Joined(BASIC_FIELD + REALM, "\"");
    }
  }

  lemma ChallengeParts()
    ensures IsPlain(BASIC_FIELD) && IsPlain(DIGEST_FIELD) && IsPlain(QOP) && IsPlain(OPAQUE)
    ensures IsPlain(REALM) && IsPlain("\"")
    ensures |BASIC_FIELD| > 0 && BASIC_FIELD[0] != 'H' && |DIGEST_FIELD| > 0 && DIGEST_FIELD[0] != 'H'
  {}

  // ---------------------------------------------------------------- every answer

  /** The first line of `sent` is its only status line, and its code is that of the answer. */
  ghost predicate IsProper(code: int, sent: string) {
    var m := ReadMessage(sent);
    && (Printed(code) == INTERNAL_ERROR || HasReason(Printed(code)))
    && |m.lines| > 0 && m.lines[0] == StatusText(Printed(code))
    && forall k | 0 < k < |m.lines| :: IsField(m.lines[k])
  }

  lemma StatusIsProper(code: nat)
    requires code == INTERNAL_ERROR || HasReason(code)
    ensures IsProper(code, StatusLine(code)) && ReadMessage(StatusLine(code)).body == ""
  {
    hide StatusLine, StatusText, ReadMessage, EOL;
    ReadBlank("");
    StatusIsLine(code, "");
    assert StatusLine(code) + "" == StatusLine(code);
    ReadLine(StatusText(code), "");
  }

  lemma RefusalIsProper(build: Build)
    ensures IsProper(UNAUTHORIZED, Refusal(build).sent) && ReadMessage(Refusal(build).sent).body == AUTH_ERROR
  {
    hide StatusLine, StatusText, ReadMessage, EOL, ChallengeText, AUTH_ERROR, IsField;
    var rest := Challenge(build) + (EOL + AUTH_ERROR);
    ReadBlank(AUTH_ERROR);
    ChallengeIsField(build);
    ReadOptional(ChallengeText(build), build != NoAuth, EOL + AUTH_ERROR);
    StatusIsLine(UNAUTHORIZED, rest);
    assert Challenge(build) + EOL + AUTH_ERROR == rest;
    ReadLine(StatusText(UNAUTHORIZED), rest);
  }

  lemma Regroup(a: string, b: string, e: string)
    ensures a + e + b + e + e == (a + e) + ((b + e) + (e + ""))
  {}

  lemma EventsAreProper()
    ensures IsProper(SERVER_SENT_EVENTS, Events().sent) && ReadMessage(Events().sent).body == ""
  {
    hide StatusLine, StatusText, ReadMessage, EOL, TYPE_FIELD, MimeType, NO_CACHE_FIELD, GZIP_FIELD, IsField;
    TypeIsField(EVENT_STREAM);
    ConstantsAreFields();
    var l1, l2 := TYPE_FIELD + MimeType(EVENT_STREAM), NO_CACHE_FIELD;
    var t1 := EOL + "";
    var t2 := (l2 + EOL) + t1;
    var rest := (l1 + EOL) + t2;
    Regroup(l1, l2, EOL);
    ReadBlank("");
    ReadOptional(l2, true, t1);
    ReadOptional(l1, true, t2);
    StatusIsLine(OK, rest);
    ReadLine(StatusText(OK), rest);
  }

  lemma ServedIsProper(page: Page, gzip: bool)
    ensures IsProper(OK, Served(page, gzip).sent)
  {
    hide StatusText, ReadMessage, IsField, Served;
    ServedReadsBack(page, gzip);
    TypeIsField(page.mime);
    LengthIsField(|page.content|);
    ConstantsAreFields();
  }

  lemma ConcludedIsProper(build: Build, code: int)
    ensures var a := Concluded(build, code); IsProper(a.code, a.sent)
  {
    hide StatusLine, IsProper, ReadMessage;
    if code == UNAUTHORIZED {
      RefusalIsProper(build);
    } else if code == UNKNOWN || code == SERVER_SENT_EVENTS {
      StatusIsProper(OK);
      OkIsPrinted(StatusLine(OK));
    } else {
      StatusIsProper(if HasReason(code) then code else INTERNAL_ERROR);
    }
  }

  lemma OkIsPrinted(sent: string)
    requires IsProper(OK, sent)
    ensures IsProper(SERVER_SENT_EVENTS, sent)
  {}

  lemma RoutedIsProper(build: Build, site: Site, q: Parsed)
    requires LegalSite(site) && q.urlLen <= |q.url|
    ensures var a := Routed(build, site, q); IsProper(a.code, a.sent)
  {
    hide Params.Upcoming, StatusLine, CallOf, PageAt, IsEvents, CString, IsProper, Concluded, ReadMessage;
    var url := CString(q.url);
    var slot := PageAt(site, url, q.urlLen);
    StatusIsProper(UNSUPPORTED);
    StatusIsProper(NOT_FOUND);
    StatusIsProper(INTERNAL_ERROR);
    EventsAreProper();
    if slot.Full? {
      ServedIsProper(slot.page, site.gzip);
    } else if site.callback.Callback? {
      var call := CallOf(q);
      var replies := Params.Upcoming(q.ahead, site.callback.nameSize, site.callback.valueSize, site.callback.params);
      ConcludedIsProper(build, site.callback.answer(call, replies));
    }
  }

  /**
   Whatever the request, the answer has exactly one status line, as its first line; its code is
   the returned one, except that an event stream returns 1 and prints 200.
   */
  lemma OneStatusLine(build: Build, check: (nat, string) -> int, site: Site, q: Parsed)
    requires LegalSite(site) && q.urlLen <= |q.url| && q.code >= 0
    requires q.verb == NotSupported ==> q.code == INTERNAL_ERROR || q.code == UNSUPPORTED
    ensures var a := Outcome(build, check, site, q); IsProper(a.code, a.sent)
  {
    hide StatusLine, LetIn, IsProper, Routed, ReadMessage;
    if !LetIn(build, check, q) {
      RefusalIsProper(build);
    } else if q.verb == NotSupported {
      StatusIsProper(q.code);
    } else {
      RoutedIsProper(build, site, q);
    }
  }
}
