/** The main function: it serves one connection from its first byte to the last byte of the answer. */
module Execute {
  import opened Text
  import opened Stream
  import opened RequestText
  import opened RequestFacts
  import opened HeaderEffects
  import opened Response
  import Request
  import Route
  import Params
  import JsonParam
  import FormText

  class Server {
    const request: Request.Parser
    const params: Params.Parameters
    const site: Site
    var firstLineSent: bool
    var headersSent: bool
    var contentLength: nat
    /** Everything that was written to the connection. */
    var out: string
    /** The calls of the callback, with the parameters it read. */
    ghost var calls: seq<(Call, seq<Reply>)>
    /** The request as it stood before it was answered. */
    ghost var parsed: Parsed

    ghost predicate Valid()
      reads request`urlLen, request`params, request`paramsStart, request.url, request.reader,
            params.request`urlLen, params.request`params, params.request`paramsStart, params.request.url,
            params.request.reader, params.json, params.json.reader
    {
      params.Valid() && params.request == request && LegalSite(site)
    }

    constructor (params: Params.Parameters, site: Site)
      requires params.Valid() && LegalSite(site)
      ensures Valid() && this.params == params && this.site == site && request == params.request
      ensures out == "" && calls == []
    {
      request, this.params, this.site := params.request, params, site;
      firstLineSent, headersSent, contentLength, out, calls := false, false, 0, "", [];
      parsed := Parsed(NotSupported, "", 0, 0, 0, [], Params.Ahead(Params.NoParameters, "", JsonParam.INITIAL, ""));
    }

    // ---------------------------------------------------------------- writing

    method Write(text: string)
      modifies `out
      ensures out == old(out) + text
    {
      var i := 0;
      while i < |text|
        invariant i <= |text| && out == old(out) + text[..i]
      {
        out := out + [text[i]];
        i := i + 1;
      }
      assert text[..i] == text;
    }

    /** The first line, unless it was sent; a code without a reason of its own is reported as 500. */
    method FirstLine(code: int)
      modifies `out, `firstLineSent, request`returnCode
      ensures firstLineSent
      ensures if old(firstLineSent) then out == old(out) && request.returnCode == old(request.returnCode)
              else
                && out == old(out) + StatusLine(Reported(code))
                && request.returnCode == if HasReason(code) then old(request.returnCode) else INTERNAL_ERROR
    {
      if !firstLineSent {
        firstLineSent := true;
        var c: nat := INTERNAL_ERROR;
        if HasReason(code) {
          c := code;
        } else {
          request.returnCode := INTERNAL_ERROR;
        }
        Write(StatusLine(c));
      }
    }

    /** The first line for the return code and the headers of a page, each unless it was sent. */
    method SendHeaders()
      modifies `out, `firstLineSent, `headersSent, request`returnCode
      ensures firstLineSent && headersSent
      ensures var code := old(request.returnCode);
              && request.returnCode == (if old(firstLineSent) then code else Reported(code))
              && out == old(out)
                      + (if old(firstLineSent) then "" else StatusLine(Reported(code)))
                      + (if old(headersSent) then ""
                         else
                           ContentType(request.contentType) + ContentLength(contentLength) + Encoding(site.gzip) + EOL)
    {
      hide StatusLine, ContentType, Encoding, ContentLength, HasReason;
      if !firstLineSent {
        FirstLine(request.returnCode);
      }
      ghost var so := out;
      if !headersSent {
        Write(ContentType(request.contentType));
        Write(ContentLength(contentLength));
        Write(Encoding(site.gzip));
        Write(EOL);
        headersSent := true;
        Grouped(so, ContentType(request.contentType), ContentLength(contentLength), Encoding(site.gzip), EOL);
      }
    }

    /** The first line with status 200, unless one was sent, and the headers of an event stream. */
    method SendEventHeaders()
      modifies `out, `firstLineSent, `headersSent, request`returnCode
      ensures firstLineSent && headersSent && request.returnCode == SERVER_SENT_EVENTS
      ensures out == old(out) + (if old(firstLineSent) then "" else StatusLine(OK)) + EventHeaders()
    {
      hide StatusLine, EventHeaders;
      FirstLine(OK);
      Write(EventHeaders());
      request.returnCode := SERVER_SENT_EVENTS;
      headersSent := true;
    }

    /** The first line with status 401, and the challenge with its page, each unless it was sent. */
    method SendAuthMessage()
      modifies `out, `firstLineSent, `headersSent, request`returnCode
      ensures firstLineSent && headersSent && request.returnCode == old(request.returnCode)
      ensures out == old(out)
                   + (if old(firstLineSent) then "" else StatusLine(UNAUTHORIZED))
                   + (if old(headersSent) then "" else Challenge(request.build) + EOL + AUTH_ERROR)
    {
      hide StatusLine, Challenge, AUTH_ERROR, EOL;
      if !firstLineSent {
        FirstLine(UNAUTHORIZED);
      }
      ghost var so := out;
      if !headersSent {
        Write(Challenge(request.build));
        Write(EOL);
        headersSent := true;
        Write(AUTH_ERROR);
        Grouped(so, Challenge(request.build), EOL, AUTH_ERROR, "");
      }
    }

    // ---------------------------------------------------------------- finding what to do

    method FindSlot(url: string) returns (slot: Slot)
      requires Valid()
      ensures slot == PageAt(site, url, request.urlLen)
    {
      hide IsAt;
      slot := Empty;
      if IsDefault(site, url, request.urlLen) {
        slot := site.defaultPage;
      } else {
        var i := 0;
        while i < |site.pages|
          invariant i <= |site.pages| && FirstAt(site.pages, url) == FirstAt(site.pages[i..], url)
        {
          assert site.pages[i..][1..] == site.pages[i + 1..];
          if IsAt(site.pages[i], url) {
            slot := site.pages[i];
            break;
          }
          i := i + 1;
        }
      }
    }

    /** The request as it stands. */
    ghost function Now(): Parsed
      requires Valid()
      reads request, request.url, request.reader, params.request, params.request.url, params.request.reader,
            params.json, params.json.reader
    {
      Parsed(request.verb, request.url[..], request.urlLen, request.accept, request.returnCode, request.lines,
             params.State())
    }

    /** Cuts the path and calls the callback, which reads its parameters. */
    method FindCallback() returns (ret: int)
      requires Valid() && request.Marked() && parsed == Now().(code := parsed.code)
      modifies this`calls, request`returnCode, request`params, request`paramsStart, request.url, request.reader,
               params.json
      ensures Valid()
      ensures var s := CallStep(site, parsed, old(request.returnCode));
              ret == s.ret && request.returnCode == s.code && s.sent == "" && calls == old(calls) + s.calls
      ensures request.url[..] == if site.callback.Callback? then UrlCut(parsed) else parsed.url
    {
      CodeIsNotSeen(Now(), parsed);
      hide Valid, CallOf, UrlCut, Params.Upcoming;
      NoCalls(calls);
      ret := 0;
      if site.callback.Callback? {
        ret := 1;
        var call := CutRoute();
        if |call.command| > 0 {
          Invoke(call);
        } else {
          request.returnCode := INTERNAL_ERROR;
        }
      }
    }

    /** Splits the path, which leaves the parameters alone. */
    method SplitPath() returns (command: array<int>, id: array<int>, cmdlvl: nat, idlvl: nat)
      requires Valid() && request.Marked()
      modifies request.url
      ensures Valid() && params.State() == old(params.State())
      ensures var q := CallOf(old(Now()));
              && Route.PointAt(command[..], cmdlvl, q.command, request.url[..])
              && Route.PointAt(id[..], idlvl, q.id, request.url[..])
      ensures request.url[..] == UrlCut(old(Now()))
    {
      hide CString, Route.Commands, Route.Ids, Route.CutSlashes, Route.PointAt, IsText;
      ghost var b: string := request.url[..];
      command, id, cmdlvl, idlvl := Route.SplitRoute(request);
      SameParams(b, request.url[..], request.urlLen, request.paramsStart);
    }

    /** What the callback is called with. */
    method CutRoute() returns (call: Call)
      requires Valid() && request.Marked()
      modifies request.url
      ensures Valid() && call == CallOf(old(Now())) && params.State() == old(params.State())
      ensures request.url[..] == UrlCut(old(Now()))
    {
      hide CString, Valid, UrlCut, Route.Commands, Route.Ids;
      var command, id, cmdlvl, idlvl := SplitPath();
      var commands := Strings(command, cmdlvl);
      var ids := Strings(id, idlvl);
      call := Call(request.verb, request.accept, commands, ids);
    }

    /** The callback's own run: it reads its parameters and answers. */
    method Invoke(call: Call)
      requires Valid() && site.callback.Callback?
      modifies this`calls, request`returnCode, request`params, request`paramsStart, request.reader, params.json
      ensures Valid()
      ensures var c := site.callback;
              var replies := Params.Upcoming(old(params.State()), c.nameSize, c.valueSize, c.params);
              request.returnCode == c.answer(call, replies) && calls == old(calls) + [(call, replies)]
    {
      hide Params.Upcoming;
      var replies := params.ReadParams(site.callback.nameSize, site.callback.valueSize, site.callback.params);
      request.returnCode := site.callback.answer(call, replies);
      calls := calls + [(call, replies)];
    }

    /** The strings that the first `level` pointers lead to. */
    method Strings(pointers: array<int>, level: nat) returns (names: seq<string>)
      requires level <= pointers.Length && forall k | 0 <= k < level :: 0 <= pointers[k] <= request.url.Length
      ensures |names| == level && forall k | 0 <= k < level :: names[k] == CString(request.url[..][pointers[k]..])
    {
      names := [];
      while |names| < level
        invariant |names| <= level && forall k | 0 <= k < |names| :: names[k] == CString(request.url[..][pointers[k]..])
      {
        names := names + [CString(request.url[..][pointers[|names|]..])];
      }
    }

    /** Sends a page behind its headers. */
    method SendPage(page: Page)
      requires !firstLineSent && !headersSent
      modifies `out, `firstLineSent, `headersSent, `contentLength, request`returnCode, request`contentType
      ensures firstLineSent && request.returnCode == OK && out == old(out) + Served(page, site.gzip).sent
    {
      hide StatusLine, ContentType, ContentLength, Encoding, EOL, Served;
      request.returnCode := OK;
      request.contentType := page.mime;
      contentLength := |page.content|;
      PageIsSent(out, page, site.gzip);
      SendHeaders();
      Write(page.content);
    }

    /** Finds a page, the event stream or the callback, and acts on it. */
    method FindPage() returns (ret: int)
      requires Valid() && request.Marked() && !firstLineSent && !headersSent && parsed == Now().(code := parsed.code)
      modifies `out, `firstLineSent, `headersSent, `contentLength, `calls, request`returnCode, request`contentType,
               request`params, request`paramsStart, request.url, request.reader, params.json
      ensures Valid()
      ensures var s := PageStep(site, parsed, old(request.returnCode));
              && ret == s.ret && request.returnCode == s.code
              && calls == old(calls) + s.calls && out == old(out) + s.sent
              && firstLineSent == (s.sent != "") && (firstLineSent || !headersSent)
      ensures request.url[..] == UrlBehind(site, parsed)
    {
      hide Valid, UrlCut, CallStep, PageAt, IsEvents, StatusLine, EventHeaders, CString, Served;
      NoCalls(calls);
      NothingIsSent(out);
      ret := 0;
      var url: string := CString(request.url[..]);
      var slot := FindSlot(url);
      if slot.Full? {
        if request.verb == Get {
          SendPage(slot.page);
          ret := 1;
        } else {
          request.returnCode := UNSUPPORTED;
          ret := -1;
        }
      }
      if ret == 0 {
        if IsEvents(site, url) {
          SendEventHeaders();
          ret := 1;
        } else {
          ret := FindCallback();
        }
      }
    }

    /** What every run starts from. */
    method Start()
      requires Valid()
      modifies `firstLineSent, `headersSent, `contentLength, params.json
      ensures Valid() && !firstLineSent && !headersSent && params.json.State() == JsonParam.INITIAL
    {
      firstLineSent, headersSent, contentLength := false, false, 0;
      params.json.Reset();
    }

    /** Reads the request and keeps it as it is. */
    method Read()
      requires Valid() && params.json.State() == JsonParam.INITIAL
      modifies this`parsed, request, request.url, request.reader
      ensures Valid() && request.Marked() && parsed == Now() && parsed.urlLen <= |parsed.url|
      ensures parsed.verb == NotSupported ==> parsed.lines == []
      ensures var code := Request.FirstCode(parsed.verb, old(request.reader.Unread()));
              var start := Effects(TEXT_HTML, TEXT_HTML, if request.build == NoAuth then 1 else 0, code);
              request.State() == ApplyAll(request.build, request.check, start, parsed.lines)
      ensures Follows(parsed, old(request.reader.Unread()), old(request.url[..]))
    {
      hide ApplyAll, IsHeaderBlock, IsParsed, Headers, AfterHeaders, AtHeaders, Target, AtTarget, SkipBlanks,
           MethodWord, VerbOf, VerbAt, Recorded, SplitMarks, ParamsAt, FormText.Strip, IsText, VersionOf,
           VersionText, Params.KindOf, Find;
      ghost var s, before: string := request.reader.Unread(), request.url[..];
      request.ParseRequest();
      parsed := Now();
      var code := Request.FirstCode(request.verb, s);
      var start := Effects(TEXT_HTML, TEXT_HTML, if request.build == NoAuth then 1 else 0, code);
      NoLines(request.build, request.check, start);
      if IsRequest(s) {
        IsRead(parsed, s, before, request.build, request.check, start);
      }
    }

    /** Reads the request, and turns away who is not let in. */
    method Admit()
      requires Valid() && params.json.State() == JsonParam.INITIAL
      modifies this`parsed, request, request.url, request.reader
      ensures Follows(parsed, old(request.reader.Unread()), old(request.url[..]))
      ensures Valid() && request.Marked()
      ensures parsed == Now().(code := parsed.code) && parsed.code >= 0 && parsed.urlLen <= |parsed.url|
      ensures request.returnCode == if !LetIn(request.build, request.check, parsed) then UNAUTHORIZED
                                    else if parsed.verb == NotSupported then parsed.code
                                    else UNKNOWN
    {
      hide ApplyAll, LetIn, IsRequest, IsParsed, VerbAt;
      ghost var s := request.reader.Unread();
      Read();
      Judged(request.build, request.check, parsed, request.State(), Request.FirstCode(request.verb, s));
      if request.authenticated == 0 {
        request.returnCode := UNAUTHORIZED;
      }
    }

    /** Sends what is still to be sent for the return code. */
    method Conclude()
      requires request.returnCode != UNKNOWN
      requires if firstLineSent then request.returnCode == OK || request.returnCode == SERVER_SENT_EVENTS
               else !headersSent
      modifies `out, `firstLineSent, `headersSent, request`returnCode
      ensures if old(firstLineSent) then request.returnCode == old(request.returnCode) && out == old(out)
              else
                var a := Concluded(request.build, old(request.returnCode));
                request.returnCode == a.code && out == old(out) + a.sent
    {
      hide StatusLine, Refusal, Challenge, AUTH_ERROR, EOL;
      if request.returnCode == UNAUTHORIZED {
        RefusalIsSent(out, request.build);
        SendAuthMessage();
      } else if request.returnCode == SERVER_SENT_EVENTS {
        FirstLine(OK);
      } else {
        FirstLine(request.returnCode);
      }
    }

    /** The connection is served, except for what the return code still asks for. */
    ghost predicate Decided(a: Answer, out0: string, calls0: seq<(Call, seq<Reply>)>)
      reads this, request`returnCode
    {
      && calls == calls0 + a.calls && request.returnCode != UNKNOWN
      && if firstLineSent then
           && request.returnCode == a.code && (a.code == OK || a.code == SERVER_SENT_EVENTS)
           && out == out0 + a.sent
         else
           && !headersSent && out == out0
           && Concluded(request.build, request.returnCode).(calls := a.calls) == a
    }

    /** Answers a request that was let in, except for what its return code still asks for. */
    method Serve()
      requires Valid() && request.Marked() && !firstLineSent && !headersSent && parsed == Now().(code := parsed.code)
      requires parsed.urlLen <= |parsed.url|
      modifies `out, `firstLineSent, `headersSent, `contentLength, `calls, request`returnCode, request`contentType,
               request`params, request`paramsStart, request.url, request.reader, params.json
      ensures Valid()
      ensures Decided(Routed(request.build, site, parsed), old(out), old(calls))
      ensures request.url[..] == UrlBehind(site, parsed)
    {
      assert LegalSite(site);
      hide Valid, PageStep, UrlBehind, Routed, Concluded;
      StepConcludes(request.build, site, parsed);
      request.returnCode := NOT_FOUND;
      var found := FindPage();
      if found > 0 && request.returnCode == UNKNOWN {
        request.returnCode := OK;
      }
    }

    /** Reads the request and answers it, if it may be answered. */
    method Decide()
      requires Valid() && !firstLineSent && !headersSent && params.json.State() == JsonParam.INITIAL
      modifies this, request, request.url, request.reader, params.json
      ensures Follows(parsed, old(request.reader.Unread()), old(request.url[..]))
      ensures Valid() && parsed.code >= 0 && parsed.urlLen <= |parsed.url|
      ensures Decided(Outcome(request.build, request.check, site, parsed), old(out), old(calls))
      ensures request.url[..] == UrlLeft(request.build, request.check, site, parsed)
    {
      hide LetIn, UrlBehind, Routed, Outcome, Concluded, Follows;
      ghost var s, before: string := request.reader.Unread(), request.url[..];
      Admit();
      FollowsCode(parsed, s, before);
      OutcomeByCode(request.build, request.check, site, parsed, request.returnCode);
      NoCalls(calls);
      if request.returnCode == UNKNOWN {
        Serve();
      }
    }

    /** Serves one connection. */
    method Execute() returns (ret: int)
      requires Valid()
      modifies this, request, request.url, request.reader, params.json
      ensures Follows(parsed, old(request.reader.Unread()), old(request.url[..]))
      ensures Valid() && parsed.code >= 0 && parsed.urlLen <= |parsed.url|
      ensures var a := Outcome(request.build, request.check, site, parsed);
              ret == a.code && out == old(out) + a.sent && calls == old(calls) + a.calls
      ensures request.url[..] == UrlLeft(request.build, request.check, site, parsed)
    {
      hide Valid, UrlLeft, Outcome, Concluded, Follows;
      Start();
      Decide();
      // The code is never unknown here, so the last resort for it is not needed.
      assert request.returnCode != UNKNOWN;
      Conclude();
      ret := request.returnCode;
    }
  }

  lemma Grouped(o: string, a: string, b: string, c: string, d: string)
    ensures (((o + a) + b) + c) + d == o + (a + b + c + d) && ((o + a) + b) + c == o + (a + b + c)
  {}

  lemma RefusalIsSent(o: string, build: Build)
    ensures o + StatusLine(UNAUTHORIZED) + (Challenge(build) + EOL + AUTH_ERROR) == o + Refusal(build).sent
    ensures Refusal(build).code == UNAUTHORIZED
  {
    hide StatusLine, Challenge, AUTH_ERROR, EOL;
  }

  lemma PageIsSent(o: string, page: Page, gzip: bool)
    ensures o + StatusLine(OK) + (ContentType(page.mime) + ContentLength(|page.content|) + Encoding(gzip) + EOL)
              + page.content
         == o + Served(page, gzip).sent
  {
    hide StatusLine, ContentType, ContentLength, Encoding, EOL;
  }

  lemma NoCalls(calls: seq<(Call, seq<Reply>)>)
    ensures calls + [] == calls
  {}

  lemma NothingIsSent(out: string)
    ensures out + "" == out
  {}

  /** The return code with which a request was admitted decides who answers it. */
  lemma OutcomeByCode(build: Build, check: (nat, string) -> int, site: Site, q: Parsed, code: int)
    requires LegalSite(site) && q.urlLen <= |q.url| && q.code >= 0
    requires q.verb == NotSupported ==> q.code == INTERNAL_ERROR || q.code == UNSUPPORTED
    requires code == if !LetIn(build, check, q) then UNAUTHORIZED
                     else if q.verb == NotSupported then q.code
                     else UNKNOWN
    ensures var a := Outcome(build, check, site, q);
            if code == UNKNOWN then a == Routed(build, site, q) else a == Concluded(build, code) && a.calls == []
  {
    hide LetIn, Routed, StatusLine;
  }

  lemma CodeIsNotSeen(p: Parsed, q: Parsed)
    requires p.urlLen <= |p.url| && q == p.(code := q.code)
    ensures CallOf(p) == CallOf(q) && UrlCut(p) == UrlCut(q)
  {}

  /** Cutting the path leaves the parameters alone. */
  lemma SameParams(b: string, r: string, len: nat, start: nat)
    requires |b| == |r| == URL_SIZE && len <= |b| && (start < URL_SIZE ==> NUL in b[..start])
    requires r == Route.CutSlashes(CString(b[..len])) + b[|CString(b[..len])|..]
    ensures start < URL_SIZE ==> r[start..] == b[start..]
  {
    if start < URL_SIZE {
      Route.PathIsBefore(b, len, start);
    }
  }
}
