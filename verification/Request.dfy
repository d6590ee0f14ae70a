/**
 The parser of the request line and the header block.  It reads one character at a time,
 keeps at most one character back, and stores what it keeps in fixed buffers.
 */
module Request {
  import opened Text
  import opened Stream
  import opened RequestText
  import opened RequestFacts
  import opened HeaderEffects

  /** The return code after the method was read. */
  function FirstCode(verb: Verb, input: string): int {
    if verb != NotSupported then UNKNOWN else if |SkipBlanks(input)| == 0 then INTERNAL_ERROR else UNSUPPORTED
  }

  class Parser {
    const reader: Reader
    const url: array<Byte>
    var verb: Verb
    var version: Version
    var urlLen: nat
    /** Where the parameters start in `url`, or -1 for the null pointer. */
    var params: int
    var paramsStart: nat
    var headersDone: bool
    var returnCode: int
    var accept: nat
    var contentType: nat
    var authenticated: int
    const build: Build
    /** attoHTTPWrapperCheckAuth, supplied by the user of the library. */
    const check: (nat, string) -> int
    /** Every header line that was read, as its buffers held it. */
    ghost var lines: seq<Line>

    ghost predicate Valid()
      reads this`urlLen, this`params, this`paramsStart, url
    {
      && url.Length == URL_SIZE && url[URL_SIZE - 1] == NUL
      && urlLen < URL_SIZE && (urlLen > 0 ==> url[urlLen] == NUL) && -1 <= params <= URL_SIZE
      && (paramsStart < URL_SIZE ==> params == paramsStart)
    }

    /** The parameters start behind the end of a string. */
    ghost predicate Marked()
      requires url.Length == URL_SIZE
      reads this`paramsStart, url
    {
      paramsStart < URL_SIZE ==> NUL in url[..paramsStart]
    }

    constructor (reader: Reader, build: Build, check: (nat, string) -> int)
      requires reader.Valid()
      ensures Valid() && this.reader == reader && this.build == build && this.check == check && fresh(url)
    {
      this.reader, this.build, this.check := reader, build, check;
      var u: array<Byte> := new Byte[URL_SIZE](_ => NUL);
      url := u;
      verb, version, urlLen, params, paramsStart := NotSupported, Unknown, 0, -1, URL_SIZE;
      headersDone, returnCode := false, UNKNOWN;
      accept, contentType, authenticated, lines := TEXT_HTML, TEXT_HTML, 0, [];
    }

    ghost function State(): Effects
      reads this`accept, this`contentType, this`authenticated, this`returnCode
    {
      Effects(accept, contentType, authenticated, returnCode)
    }

    /** The values every run starts from; the URL buffer keeps what an earlier run left in it. */
    method InitRun()
      requires Valid() && reader.Valid()
      modifies this, reader`extra
      ensures Valid() && reader.Valid() && reader.Rest() == old(reader.Unread())
      ensures verb == NotSupported && version == Unknown && urlLen == 0 && params == -1 && paramsStart == URL_SIZE
      ensures !headersDone && lines == []
      ensures State() == Effects(TEXT_HTML, TEXT_HTML, if build == NoAuth then 1 else 0, UNKNOWN)
    {
      hide IsText;
      reader.Clear();
      authenticated := if build == NoAuth then 1 else 0;
      verb, version, urlLen, params, paramsStart := NotSupported, Unknown, 0, -1, URL_SIZE;
      headersDone, returnCode := false, UNKNOWN;
      accept, contentType, lines := TEXT_HTML, TEXT_HTML, [];
    }

    /** Finds the method, which ends at a blank. */
    method ParseMethod() returns (ret: int)
      requires Valid() && reader.Valid()
      modifies this`verb, this`returnCode, reader
      ensures Valid() && reader.Valid()
      ensures var t := SkipBlanks(old(reader.Rest()));
              if |t| == 0 then
                returnCode == INTERNAL_ERROR && verb == old(verb)
              else
                var v := VerbOf(MethodWord(t));
                && reader.Rest() == AfterMethod(t)
                && (if v == NotSupported then returnCode == UNSUPPORTED && verb == old(verb)
                    else returnCode == old(returnCode) && verb == v)
    {
      hide *;
      ret := reader.ParseSpace();
      if ret > 0 {
        var word;
        ret, word := ReadMethod();
        verb, returnCode := Compare(word);
      } else {
        returnCode := INTERNAL_ERROR;
      }
    }

    /** The method as the buffer of ten bytes holds it. */
    method ReadMethod() returns (ret: int, word: string)
      requires reader.Valid() && |reader.Rest()| > 0
      modifies reader
      ensures reader.Valid()
      ensures word == MethodWord(old(reader.Rest())) && reader.Rest() == AfterMethod(old(reader.Rest()))
    {
      hide Find, IsText, CString;
      ghost var t := reader.Rest();
      var buffer := new Byte[10];
      ghost var before: string := buffer[..];
      var ptr;
      ret, ptr := reader.ReadWord(buffer, 9, IsBlank);
      buffer[ptr] := NUL;
      MethodIsWord(buffer[..], before, t, ptr);
      word := CString(buffer[..]);
    }

    /** The chain of comparisons; without a match the method is left as it was. */
    method Compare(word: string) returns (v: Verb, code: int)
      ensures (v, code) == if VerbOf(word) == NotSupported then (verb, UNSUPPORTED) else (VerbOf(word), returnCode)
    {
      v, code := verb, returnCode;
      if word == GET {
        v := Get;
      } else if word == POST {
        v := Post;
      } else if word == PUT {
        v := Put;
      } else if word == DELETE {
        v := Delete;
      } else if word == PATCH {
        v := Patch;
      } else {
        code := UNSUPPORTED;
      }
    }

    /** Stores the target in the URL buffer, each question mark as a NUL, and skips what does not fit. */
    method ParseURL() returns (ret: int)
      requires Valid() && reader.Valid()
      modifies this`urlLen, this`params, this`paramsStart, url, reader
      ensures Valid() && reader.Valid()
      ensures old(paramsStart) == URL_SIZE ==> Marked()
      ensures IsLater(reader.Rest(), old(reader.Rest()))
      ensures var t := SkipBlanks(old(reader.Rest()));
              if |t| == 0 then
                && urlLen == old(urlLen) && url[..] == old(url[..]) && reader.Rest() == ""
                && params == old(params) && paramsStart == old(paramsStart)
              else
                var u := UrlRead(old(url[..]), t);
                && urlLen == UrlCount(t) && url[..] == UrlAfter(old(url[..]), t)
                && reader.Rest() == AfterUrl(old(url[..]), t)
                && params == (if ParamsAt(u) < 0 then old(params) else ParamsAt(u))
                && paramsStart == (if ParamsAt(u) < 0 then old(paramsStart) else ParamsAt(u))
      ensures var t := SkipBlanks(old(reader.Rest()));
              Find(t, IsBlank) < |t| ==>
                var u := Target(t);
                && reader.Rest() == t[Find(t, IsBlank)..]
                && urlLen == |u| && url[..] == SplitMarks(u) + [NUL] + old(url[..])[|u| + 1..]
                && params == (if ParamsAt(u) < 0 then old(params) else ParamsAt(u))
                && paramsStart == (if ParamsAt(u) < 0 then old(paramsStart) else ParamsAt(u))
    {
      hide Find, SplitMarks, ParamsAt, UrlAfter, UrlRead, UrlSplit, Target, IsText, SkipBlanks, IsLater;
      ghost var s, url0: string := reader.Rest(), url[..];
      SkippedIsLater(s);
      if |SkipBlanks(s)| > 0 {
        UrlIsLater(url0, s);
      }
      ret := reader.ParseSpace();
      if ret > 0 {
        ghost var t, before: string := reader.Rest(), url[..];
        ret := FillURL();
        UrlStaysValid(t, before);
        UrlIsMarked(t, before);
        if Find(t, IsBlank) < |t| {
          UrlIsTarget(t, before);
        }
      }
    }

    method FillURL() returns (ret: int)
      requires url.Length == URL_SIZE && url[URL_SIZE - 1] == NUL && reader.Valid() && |reader.Rest()| > 0
      modifies this`urlLen, this`params, this`paramsStart, url, reader
      ensures reader.Valid()
      ensures reader.Rest() == AfterUrl(old(url[..]), old(reader.Rest()))
      ensures var t, u := old(reader.Rest()), UrlRead(old(url[..]), old(reader.Rest()));
              && urlLen == UrlCount(t) && url[..] == UrlAfter(old(url[..]), t)
              && params == (if ParamsAt(u) < 0 then old(params) else ParamsAt(u))
              && paramsStart == (if ParamsAt(u) < 0 then old(paramsStart) else ParamsAt(u))
    {
      hide Find, SplitMarks, ParamsAt, IsText, WordBuffer;
      ghost var t, before: string := reader.Rest(), url[..];
      ret, urlLen := reader.ReadWord(url, URL_SIZE - 1, IsBlank);
      ghost var read: string := url[..];
      SplitURL();
      ghost var split: string := url[..];
      // Remove any extra that does not fit.
      UrlNext(t, before);
      var c := url[urlLen];
      ret, c := SkipExcess(t, ret, c);
      reader.PushC(c);
      url[urlLen] := NUL;
      assert url[..] == split[urlLen := NUL];
    }

    /** Skips to the end of the line, and the space behind it up to a second one, which ends the headers. */
    method ParseEOL() returns (ret: int)
      requires reader.Valid()
      modifies this`headersDone, reader
      ensures reader.Valid() && reader.Rest() == AfterEol(old(reader.Rest()))
      ensures headersDone == (old(headersDone) || StartsEmptyLine(reader.Rest()))
      ensures ret == if |reader.Rest()| == 0 then 0 else 1
    {
      hide AfterEol, SkipIndent, IsText;
      EolOfNothing();
      ghost var before := reader.Rest();
      var c: Byte;
      ret, c := reader.ReadC();
      var eolCount := if c == '\n' then 1 else 0;
      if ret > 0 {
        AfterEolStep(c, reader.Rest());
      }
      while (IsSpace(c) || eolCount == 0) && ret > 0 && eolCount < 2
        invariant reader.Valid() && reader.extra <= 0 && 0 <= eolCount <= 2 && ret <= 1
        invariant headersDone == old(headersDone)
        invariant ret <= 0 ==> c == NUL && reader.Rest() == "" && AfterEol(before) == "" && eolCount < 2 && ret == 0
        invariant (eolCount == 0 ==> c != '\n') && (eolCount == 2 ==> c == '\n')
        invariant ret > 0 ==> c != NUL && AfterEol(before) == Pending(c, eolCount, reader.Rest())
        decreases |reader.Rest()|, ret
      {
        ghost var c0, n0, r := c, eolCount, reader.Rest();
        ret, c := reader.ReadC();
        if c == '\n' {
          eolCount := eolCount + 1;
        }
        PendingStep(c0, n0, r);
        assert ret > 0 ==> r == [c] + reader.Rest();
      }
      if ret > 0 {
        PendingStep(c, eolCount, reader.Rest());
      }
      reader.PushC(c);
      if eolCount > 1 {
        headersDone := true;
      }
    }

    /** Drops the rest of a target that was cut, up to the blank. */
    method SkipExcess(ghost t: string, ret0: int, c0: Byte) returns (ret: int, c: Byte)
      requires reader.Valid() && reader.extra <= 0
      requires var b := Find(t, IsBlank);
               if b < URL_SIZE - 1 && b < |t| then ret0 == 1 && c0 == t[b] && reader.Rest() == t[b + 1..]
               else if URL_SIZE - 1 <= |t| then ret0 == 1 && c0 == NUL && reader.Rest() == t[URL_SIZE - 1..]
               else ret0 == 0
      modifies reader
      ensures reader.Valid() && reader.extra <= 0
      ensures var b := Find(t, IsBlank);
              if b < |t| then c == t[b] && c != NUL && [c] + reader.Rest() == t[b..]
              else if URL_SIZE - 1 <= |t| then c == NUL && reader.Rest() == ""
              else c == c0 && reader.Rest() == old(reader.Rest())
    {
      FindStops(t, IsBlank);
      if URL_SIZE - 1 <= Find(t, IsBlank) {
        FindShift(t, IsBlank, URL_SIZE - 1);
      }
      ret, c := reader.SkipTo(IsBlank, ret0, c0);
    }

    /**
     The question marks among the stored characters become NULs, and the parameters start
     behind the last of them.
     */
    method SplitURL()
      requires url.Length == URL_SIZE && urlLen < URL_SIZE
      modifies this`params, this`paramsStart, url
      ensures url[..] == SplitMarks(old(url[..])[..urlLen]) + old(url[..])[urlLen..]
      ensures var u := old(url[..])[..urlLen];
              && params == (if ParamsAt(u) < 0 then old(params) else ParamsAt(u))
              && paramsStart == (if ParamsAt(u) < 0 then old(paramsStart) else ParamsAt(u))
    {
      hide ParamsAt;
      ghost var before: string := url[..];
      ghost var u := before[..urlLen];
      NoParams();
      var i := 0;
      while i < urlLen
        invariant i <= urlLen
        invariant forall k | 0 <= k < i :: url[k] == if u[k] == '?' then NUL else u[k]
        invariant forall k | i <= k < URL_SIZE :: url[k] == before[k]
        invariant var p := ParamsAt(u[..i]);
                  && params == (if p < 0 then old(params) else p)
                  && paramsStart == (if p < 0 then old(paramsStart) else p)
      {
        ParamsAtStep(u, i);
        if url[i] == '?' {
          url[i] := NUL;
          params := i + 1;
          paramsStart := i + 1;
        }
        i := i + 1;
      }
      assert u[..urlLen] == u;
      assert url[..urlLen] == SplitMarks(u);
      assert url[urlLen..] == before[urlLen..];
    }

    // -------------------------------------------------------------- the version

    /** Finds the version, and goes to the end of the request line. */
    method ParseVersion() returns (ret: int)
      requires reader.Valid()
      modifies this`version, this`headersDone, reader
      ensures reader.Valid()
      ensures IsLater(reader.Rest(), old(reader.Rest()))
      ensures var t := SkipBlanks(old(reader.Rest()));
              var k := Find(t, IsSpace);
              k <= 8 && k < |t| ==> version == VersionOf(t[..k]) && reader.Rest() == AfterEol(t[k..])
      ensures headersDone == (old(headersDone) || StartsEmptyLine(reader.Rest()))
      ensures ret == if |reader.Rest()| == 0 then 0 else 1
    {
      hide Find, AfterEol, IsText, SkipBlanks, VersionOf, StartsEmptyLine, IsLater;
      ghost var s := reader.Rest();
      ret := reader.ParseSpace();
      ghost var t := reader.Rest();
      SkippedIsLater(s);
      LaterDrop(t, 0);
      if ret > 0 {
        ReadVersion();
      }
      ghost var r := reader.Rest();
      ret := ParseEOL();
      EolIsLater(r);
      LaterTwice(r, t, s);
      LaterTwice(reader.Rest(), r, s);
    }

    /** The word up to a space character, which is put back. */
    method ReadVersion()
      requires reader.Valid() && |reader.Rest()| > 0
      modifies this`version, reader
      ensures reader.Valid() && IsLater(reader.Rest(), old(reader.Rest()))
      ensures var t := old(reader.Rest());
              var k := Find(t, IsSpace);
              k <= 8 && k < |t| ==> version == VersionOf(t[..k]) && reader.Rest() == t[k..]
    {
      hide Find, IsText, VersionOf, WordBuffer, AfterWord, WordCount, IsLater;
      ghost var t := reader.Rest();
      var buffer := new Byte[10];
      ghost var before: string := buffer[..];
      var _, ptr := reader.ReadWord(buffer, 9, IsSpace);
      ghost var b: string := buffer[..];
      VersionIsLater(t, before, buffer[ptr]);
      reader.PushC(buffer[ptr]);
      var word: string := buffer[..ptr];
      if Find(t, IsSpace) <= 8 && Find(t, IsSpace) < |t| {
        VersionIsRead(t, before);
        assert word == b[..ptr];
      }
      version := CompareVersion(word);
    }

    /** Only the first |word| characters are compared. */
    method CompareVersion(word: string) returns (v: Version)
      requires |word| <= 9
      ensures |word| <= 8 ==> v == VersionOf(word)
    {
      v := Unknown;
      if word <= "HTTP/1.0" {
        v := V1_0;
      } else if word <= "HTTP/1.1" {
        v := V1_1;
      }
    }

    // -------------------------------------------------------------- the header block

    /** Reads one header line into the two buffers. */
    method ParseHeader(name: array<Byte>, value: array<Byte>) returns (ret: int)
      requires reader.Valid() && name != value && name.Length == NAME_SIZE && value.Length == VALUE_SIZE
      modifies this`headersDone, reader, name, value
      ensures reader.Valid()
      ensures var s := old(reader.Rest());
              && name[..] == NameBuffer(old(name[..]), s) && value[..] == ValueBuffer(old(value[..]), s)
              && reader.Rest() == NextLine(old(value[..]), s)
      ensures var s := old(reader.Rest());
              IsHeader(s) ==>
                && CString(name[..]) == HeaderName(s) && CString(value[..]) == HeaderValue(s)
                && reader.Rest() == AfterHeader(s)
      ensures headersDone == (old(headersDone) || StartsEmptyLine(reader.Rest()))
      ensures ret == if |reader.Rest()| == 0 then 0 else 1
    {
      hide Find, AfterEol, IsText, SkipBlanks, CString, WordCount, WordBuffer, AfterWord, IsHeader, HeaderName,
           HeaderValue, AfterHeader;
      ghost var s, name0: string, value0: string := reader.Rest(), name[..], value[..];
      var count;
      ret, count := reader.ReadWord(name, NAME_SIZE - 1, IsColon);
      name[count] := NUL;
      ret := reader.ParseSpace();
      ghost var t := reader.Rest();
      ret, count := reader.ReadWord(value, VALUE_SIZE - 1, IsEol);
      if count < VALUE_SIZE - 1 {
        reader.PushC(value[count]);
      }
      value[count] := NUL;
      assert reader.Rest() == LineRest(value0, s);
      if IsHeader(s) {
        HeaderIsRead(s, name0, value0);
      }
      ret := ParseEOL();
    }

    /** Acts on one header line. */
    method NoteHeader(name: array<Byte>, value: array<Byte>)
      requires name.Length == NAME_SIZE && value.Length == VALUE_SIZE
      modifies this`accept, this`contentType, this`authenticated, this`returnCode
      ensures State() == Apply(build, check, old(State()), Line(CString(name[..]), value[..]))
    {
      hide SameWord, MimeType, IndexOf;
      var n: string, v: string := CString(name[..]), CString(value[..]);
      if SameWord(n, "accept") {
        for i := 0 to MIME_TYPES
          invariant State() == old(State()).(accept := AcceptOf(old(accept), v, i))
        {
          if SameWord(v, MimeType(i)) {
            accept := Power2(i);
          }
        }
      } else if SameWord(n, "content-type") {
        var i := 0;
        while i < MIME_TYPES
          invariant i <= MIME_TYPES && FirstMime(v, i) == FirstMime(v, 0) && State() == old(State())
        {
          if IndexOf(v, MimeType(i)) >= 0 {
            contentType := i;
            break;
          }
          i := i + 1;
        }
      } else if SameWord(n, "authorization") && build != NoAuth {
        Authenticate(value);
      }
    }

    /** Looks for a known scheme, and checks what follows it. */
    method Authenticate(value: array<Byte>)
      requires value.Length == VALUE_SIZE
      modifies this`authenticated, this`returnCode
      ensures State() == CheckAuth(check, old(State()), Line("authorization", value[..]))
    {
      hide IndexOf, CString, AuthType;
      ghost var line := Line("authorization", value[..]);
      var v: string := CString(value[..]);
      var i := 0;
      while i < AUTH_TYPES
        invariant i <= AUTH_TYPES && (Scheme(v) >= i) && State() == old(State())
      {
        var at := IndexOf(v, AuthType(i));
        if at >= 0 {
          at := at + |AuthType(i)| + 1;
          var credentials: string := if at <= VALUE_SIZE then CString(value[at..]) else "";
          assert at <= VALUE_SIZE ==> value[at..] == value[..][at..];
          authenticated := check(i, credentials);
          if authenticated == 0 && returnCode == UNKNOWN {
            returnCode := UNAUTHORIZED;
          }
          break;
        }
        i := i + 1;
      }
      if i >= AUTH_TYPES {
        returnCode := UNAUTHORIZED;
      }
    }

    /** Reads one header line and acts on it. */
    method TakeHeader(name: array<Byte>, value: array<Byte>) returns (ret: int)
      requires reader.Valid() && name != value && name.Length == NAME_SIZE && value.Length == VALUE_SIZE
      modifies this`headersDone, this`lines, this`accept, this`contentType, this`authenticated, this`returnCode,
               reader, name, value
      ensures reader.Valid()
      ensures var s := old(reader.Rest());
              var line := Line(CString(NameBuffer(old(name[..]), s)), ValueBuffer(old(value[..]), s));
              && lines == old(lines) + [line] && State() == Apply(build, check, old(State()), line)
              && name[..] == NameBuffer(old(name[..]), s) && value[..] == ValueBuffer(old(value[..]), s)
              && reader.Rest() == NextLine(old(value[..]), s)
      ensures headersDone == (old(headersDone) || StartsEmptyLine(reader.Rest()))
      ensures ret == if |reader.Rest()| == 0 then 0 else 1
    {
      hide Apply, NameBuffer, ValueBuffer, NextLine, IsText, CString, StartsEmptyLine, IsHeader, HeaderName,
           HeaderValue, AfterHeader;
      ret := ParseHeader(name, value);
      NoteHeader(name, value);
      lines := lines + [Line(CString(name[..]), value[..])];
    }

    /**
     Reads header lines until one is followed by an empty line, or the input ends.  The first
     contents of the two buffers, which are not set, are the last two results.
     */
    method ParseHeaders() returns (ret: int, ghost name0: string, ghost value0: string)
      requires reader.Valid() && lines == []
      modifies this`headersDone, this`lines, this`accept, this`contentType, this`authenticated, this`returnCode, reader
      ensures reader.Valid() && |name0| == NAME_SIZE && |value0| == VALUE_SIZE
      ensures State() == ApplyAll(build, check, old(State()), lines)
      ensures lines == LinesOf(old(reader.Rest()), old(headersDone), name0, value0)
      ensures reader.Rest() == RestOf(old(reader.Rest()), old(headersDone), name0, value0)
      ensures |reader.Rest()| > 0 ==> headersDone
    {
      hide Apply, ApplyAll, NameBuffer, ValueBuffer, NextLine, LinesOf, RestOf, IsText, CString, StartsEmptyLine, Parts;
      ghost var s, state := reader.Rest(), State();
      NoLines(build, check, state);
      ret := 1;
      var name := new Byte[NAME_SIZE];
      var value := new Byte[VALUE_SIZE];
      name0, value0 := name[..], value[..];
      ghost var all, left := LinesOf(s, headersDone, name0, value0), LinesOf(s, headersDone, name0, value0);
      PartsMove(all, [], Line("", ""), []);
      while !headersDone && ret > 0
        invariant reader.Valid() && ret <= 1
        invariant State() == ApplyAll(build, check, state, lines)
        invariant Parts(all, lines, left)
        invariant left == if ret <= 0 then [] else LinesOf(reader.Rest(), headersDone, name[..], value[..])
        invariant RestOf(s, old(headersDone), name0, value0)
               == if ret <= 0 then "" else RestOf(reader.Rest(), headersDone, name[..], value[..])
        invariant ret <= 0 ==> reader.Rest() == ""
        decreases |reader.Rest()|, ret
      {
        ghost var before := lines;
        OneLine(reader.Rest(), name[..], value[..]);
        ret := TakeHeader(name, value);
        ghost var line := lines[|before|];
        ApplyOneMore(build, check, state, before, line);
        left := if ret <= 0 then [] else LinesOf(reader.Rest(), headersDone, name[..], value[..]);
        PartsMove(all, before, line, left);
      }
      OneLine(reader.Rest(), name[..], value[..]);
      PartsMove(all, lines, Line("", ""), []);
    }

    /** The target and the version, behind a method that is known; `s` is the input of the run. */
    method ParseTarget(ghost s: string)
      requires Valid() && reader.Valid() && params == -1 && paramsStart == URL_SIZE && !headersDone
      requires reader.Rest() == AfterMethod(SkipBlanks(s)) && VerbAt(s) != NotSupported
      modifies this`urlLen, this`params, this`paramsStart, this`version, this`headersDone, url, reader
      ensures Valid() && reader.Valid() && Marked() && IsLater(reader.Rest(), s)
      ensures headersDone == StartsEmptyLine(reader.Rest())
      ensures IsRequestLine(s) ==>
                var u := Target(AtTarget(s));
                && urlLen == |u| && url[..] == SplitMarks(u) + [NUL] + old(url[..])[|u| + 1..]
                && params == ParamsAt(u) && paramsStart == (if params < 0 then URL_SIZE else params)
                && version == VersionOf(VersionText(s)) && reader.Rest() == AtHeaders(s)
    {
      hide SkipBlanks, AfterMethod, MethodWord, VerbOf, Find, AfterEol, IsText, Target, SplitMarks, ParamsAt,
           VersionOf, StartsEmptyLine, AfterUrl, UrlAfter, UrlRead, UrlCount, IsLater;
      MethodIsLater(s);
      ghost var r := reader.Rest();
      var _ := ParseURL();
      LaterTwice(reader.Rest(), r, s);
      r := reader.Rest();
      var _ := ParseVersion();
      LaterTwice(reader.Rest(), r, s);
    }

    /** The request line, as far as the return code allows. */
    method ParseRequestLine()
      requires Valid() && reader.Valid()
      modifies this, url, reader
      ensures Valid() && reader.Valid() && Marked() && lines == [] && verb == VerbAt(old(reader.Unread()))
      ensures var code := FirstCode(verb, old(reader.Unread()));
              State() == Effects(TEXT_HTML, TEXT_HTML, if build == NoAuth then 1 else 0, code)
      ensures verb != NotSupported ==>
                IsLater(reader.Rest(), old(reader.Unread())) && headersDone == StartsEmptyLine(reader.Rest())
      ensures var s := old(reader.Unread());
              IsRequestLine(s) ==>
                var u := Target(AtTarget(s));
                && urlLen == |u| && url[..] == SplitMarks(u) + [NUL] + old(url[..])[|u| + 1..]
                && params == ParamsAt(u) && paramsStart == (if params < 0 then URL_SIZE else params)
                && version == VersionOf(VersionText(s))
                && reader.Rest() == AtHeaders(s) && headersDone == StartsEmptyLine(AtHeaders(s))
    {
      hide SkipBlanks, AfterMethod, MethodWord, VerbOf, Find, AfterEol, IsText, Target, SplitMarks, ParamsAt,
           VersionOf, StartsEmptyLine, AtTarget, AtVersion, VersionText, AtHeaders, IsLater;
      ghost var s := reader.Unread();
      InitRun();
      var _ := ParseMethod();
      if returnCode == UNKNOWN {
        ParseTarget(s);
      }
    }

    /** Everything up to the body, as far as the return code allows. */
    method ParseRequest()
      requires Valid() && reader.Valid()
      modifies this, url, reader
      ensures Valid() && reader.Valid() && Marked() && verb == VerbAt(old(reader.Unread()))
      ensures if verb == NotSupported then lines == [] else ComeFrom(lines, old(reader.Unread()))
      ensures var code := FirstCode(verb, old(reader.Unread()));
              var start := Effects(TEXT_HTML, TEXT_HTML, if build == NoAuth then 1 else 0, code);
              State() == ApplyAll(build, check, start, lines)
      ensures var s := old(reader.Unread());
              IsRequestLine(s) ==>
                var u := Target(AtTarget(s));
                && urlLen == |u| && url[..] == SplitMarks(u) + [NUL] + old(url[..])[|u| + 1..]
                && params == ParamsAt(u) && paramsStart == (if params < 0 then URL_SIZE else params)
                && version == VersionOf(VersionText(s)) && AreLines(lines, AtHeaders(s))
      ensures var s := old(reader.Unread());
              IsRequest(s) ==>
                Recorded(lines, Headers(AtHeaders(s))) && reader.Rest() == AfterHeaders(AtHeaders(s)) && headersDone
    {
      hide Find, IsHeaderBlock, Headers, AfterHeaders, AtHeaders, VerbAt, Recorded, AtVersion, Target, AtTarget,
           SplitMarks, ParamsAt, VersionOf, VersionText, StartsEmptyLine, ApplyAll, IsText, LinesOf, RestOf,
           IsLater;
      ghost var s := reader.Unread();
      ParseRequestLine();
      NoLines(build, check, State());
      if returnCode == UNKNOWN {
        ghost var t := reader.Rest();
        var _, name0, value0 := ParseHeaders();
        if IsRequest(s) {
          LinesOfBlock(t, name0, value0);
        }
      }
    }
  }
}
