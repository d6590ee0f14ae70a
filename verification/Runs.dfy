/** Whole runs: what the server does with the bytes of a printed request. */
module Runs {
  import opened Text
  import opened RequestText
  import opened RequestFacts
  import opened RequestLaws
  import opened HeaderEffects
  import opened Response
  import opened EndToEnd
  import Execute
  import HeaderLaws
  import Params
  import ResponseLaws
  import RouteLaws
  import SiteLaws

  // ---------------------------------------------------------------- who is let in

  /** The printed fields alone tell who is let in: no credentials are read from behind a value. */
  ghost predicate IsTold(build: Build, r: RequestLaws.Request) {
    build == NoAuth || ResponseLaws.AllHoldCredentials(KeptOf(r.fields))
  }

  /** They let the client in. */
  ghost predicate MayPass(build: Build, check: (nat, string) -> int, r: RequestLaws.Request) {
    build == NoAuth || ResponseLaws.GrantedBy(check, KeptOf(r.fields))
  }

  lemma FieldsDecide(build: Build, check: (nat, string) -> int, r: RequestLaws.Request, q: Parsed, before: string)
    requires Arrived(r, q, before) && IsTold(build, r)
    ensures LetIn(build, check, q) <==> MayPass(build, check, r)
  {
    hide ShowRequest, IsRequest, IsParsed, IsText, KeptOf, Recorded, SplitMarks, ContentTypeOf, AcceptedBy, Granted,
         ResponseLaws.GrantedBy, ResponseLaws.AllHoldCredentials;
    if build != NoAuth {
      Arrives(r, q, before);
      ResponseLaws.HeadersDecide(check, q.lines, KeptOf(r.fields));
      IsSupported(r);
    }
  }

  /**
   With one Authorization field, in any spelling, whose value is Basic, a space and `w`, the check of `w`, as far as
   it is kept, decides.
   */
  lemma BasicFieldDecides(build: Build, check: (nat, string) -> int, r: RequestLaws.Request, q: Parsed,
                          before: string, k: nat, w: string)
    requires Arrived(r, q, before) && build != NoAuth && k < |r.fields| && r.fields[k].value == "Basic " + w
    requires HeaderLaws.IsOnly(KeptOf(r.fields), k, "authorization")
    ensures IsTold(build, r)
    ensures MayPass(build, check, r) <==> check(0, Cut(w, 57)) != 0
    ensures LetIn(build, check, q) <==> check(0, Cut(w, 57)) != 0
  {
    hide Arrived, KeptOf, HeaderLaws.IsOnly, LetIn, ResponseLaws.GrantedBy, ResponseLaws.AllHoldCredentials;
    HeaderLaws.KeptAt(r.fields, k);
    assert Cut("Basic " + w, 63) == "Basic " + Cut(w, 57);
    HeaderLaws.BasicHeaderDecides(check, KeptOf(r.fields), k, Cut(w, 57));
    FieldsDecide(build, check, r, q, before);
  }

  lemma FollowsRequest(q: Parsed, s: string, before: string)
    requires |before| == URL_SIZE && Follows(q, s, before) && IsRequest(s)
    ensures IsParsed(q, s, before)
  {}

  // ---------------------------------------------------------------- any request

  /**
   The request that was parsed is the one that was printed; the answer is the one it gets, and the URL buffer is left
   as the answer leaves it; who is let in is told from the fields.
   */
  method ServeRequest(server: Execute.Server, ghost r: RequestLaws.Request) returns (ret: int)
    requires server.Valid() && server.request.reader.Unread() == ShowRequest(r) && LegalRequest(r) && IsText(r.target)
    modifies server, server.request, server.request.url, server.request.reader, server.params.json
    ensures server.Valid() && LegalSite(server.site)
    ensures Arrived(r, server.parsed, old(server.request.url[..]))
    ensures server.parsed.code >= 0 && server.parsed.urlLen <= |server.parsed.url|
    ensures Follows(server.parsed, ShowRequest(r), old(server.request.url[..]))
    ensures IsTold(server.request.build, r) ==>
              LetIn(server.request.build, server.request.check, server.parsed)
              == MayPass(server.request.build, server.request.check, r)
    ensures var a := Outcome(server.request.build, server.request.check, server.site, server.parsed);
            ret == a.code && server.out == old(server.out) + a.sent && server.calls == old(server.calls) + a.calls
    ensures server.request.url[..] == UrlLeft(server.request.build, server.request.check, server.site, server.parsed)
  {
    assert IsRequest(ShowRequest(r)) by { RequestRoundTrip(r); }
    hide LegalRequest, ShowRequest, IsRequest, IsParsed, LetIn, Outcome, UrlLeft, Follows, KeptOf, IsTold, MayPass;
    ghost var s, before: string := server.request.reader.Unread(), server.request.url[..];
    ret := server.Execute();
    FollowsRequest(server.parsed, s, before);
    if IsTold(server.request.build, r) {
      FieldsDecide(server.request.build, server.request.check, r, server.parsed, before);
    }
  }

  // ---------------------------------------------------------------- a request for the callback

  /** Neither a page nor the event stream stands at the path. */
  ghost predicate IsOpenPath(site: Site, r: RequestLaws.Request) {
    && LegalSite(site) && SiteLaws.NothingStands(site, PathOf(UrlOf(r)), |UrlOf(r)|)
    && (site.eventsUrl == "" || PathOf(UrlOf(r)) != site.eventsUrl)
  }

  /** And the path has a command for the callback. */
  ghost predicate ReachesCallback(site: Site, r: RequestLaws.Request, head: string, segments: seq<string>) {
    && IsOpenPath(site, r) && site.callback.Callback? && HasPath(r, head, segments)
    && RouteLaws.Counted(head, segments, |UrlOf(r)|) > 0
  }

  /** Such a request makes the call that says what was printed, or gets the 401 message. */
  lemma RoutedOutcome(build: Build, check: (nat, string) -> int, site: Site, q: Parsed, before: string,
                      r: RequestLaws.Request, head: string, segments: seq<string>)
    requires ReachesCallback(site, r, head, segments)
    requires Arrived(r, q, before) && q.code >= 0 && q.urlLen <= |q.url|
    ensures if LetIn(build, check, q) then
              IsCalled(build, check, site, r, q, before) && IsCallOf(CallOf(q), r, head, segments)
            else Outcome(build, check, site, q) == Refusal(build)
  {
    hide LegalRequest, LetIn, Refusal, CallOf, KeptOf, PageAt, HasPath, RouteLaws.Counted, UrlOf, PathOf, QueryOf,
         IsText, CString, Routed, Arrived, AcceptedBy;
    CalledWithSegments(r, q, before, head, segments);
    UrlArrives(r, q, before);
    hide SiteLaws.NothingStands, SiteLaws.StandsAt;
    SiteLaws.PageIsFound(site, Page("", "", 0), PathOf(UrlOf(r)), |UrlOf(r)|);
  }

  /** Without a callback such a request is answered 404, and without a command in its path 500. */
  lemma NobodyAnswers(build: Build, check: (nat, string) -> int, site: Site, q: Parsed, before: string,
                      r: RequestLaws.Request, head: string, segments: seq<string>)
    requires IsOpenPath(site, r) && LetIn(build, check, q)
    requires Arrived(r, q, before) && q.code >= 0 && q.urlLen <= |q.url|
    requires site.callback.Callback? ==>
               HasPath(r, head, segments) && RouteLaws.Counted(head, segments, |UrlOf(r)|) == 0
    ensures Outcome(build, check, site, q)
         == if site.callback.NoCallback? then Answer(404, "HTTP/1.0 404 Not Found\r\n", [])
            else Answer(500, "HTTP/1.0 500 Internal Error\r\n", [])
  {
    hide LegalRequest, LetIn, Refusal, CallOf, KeptOf, PageAt, HasPath, RouteLaws.Counted, UrlOf, PathOf, QueryOf,
         IsText, CString, Arrived, AcceptedBy, StatusLine;
    SiteLaws.ClientLines();
    SiteLaws.ServerLines();
    UrlArrives(r, q, before);
    LegalIsSupported(r, q, before);
    if site.callback.Callback? {
      CalledWithSegments(r, q, before, head, segments);
    }
    hide SiteLaws.NothingStands, SiteLaws.StandsAt;
    SiteLaws.PageIsFound(site, Page("", "", 0), PathOf(UrlOf(r)), |UrlOf(r)|);
  }

  lemma LegalIsSupported(r: RequestLaws.Request, q: Parsed, before: string)
    requires Arrived(r, q, before)
    ensures r.verb != NotSupported
  {
    hide ShowRequest, IsRequest, IsParsed, IsText;
    IsSupported(r);
  }

  lemma RefusalIsEmpty(build: Build)
    ensures Refusal(build).code == UNAUTHORIZED && Refusal(build).calls == []
  {}

  /**
   A run for the callback: if the client is let in, it makes one call, which says what was printed and reads what the
   request carries and then the end, exactly when that comes back; otherwise it sends only the 401 message.
   */
  method ServeContent(server: Execute.Server, ghost r: RequestLaws.Request, ghost head: string,
                      ghost segments: seq<string>, ghost c: Content) returns (ret: int)
    requires server.Valid() && server.request.reader.Unread() == ShowRequest(r) && LegalRequest(r) && IsText(r.target)
    requires ReachesCallback(server.site, r, head, segments) && IsTold(server.request.build, r)
    requires Carries(r, c) && IsLegal(c) && server.site.callback.params == Count(c) + 1
    requires Suits(c, server.site.callback.nameSize, server.site.callback.valueSize)
    modifies server, server.request, server.request.url, server.request.reader, server.params.json
    ensures server.Valid()
    ensures if MayPass(server.request.build, server.request.check, r) then
              && |server.calls| == |old(server.calls)| + 1 && server.calls[..|old(server.calls)|] == old(server.calls)
              && |UrlOf(r)| < |old(server.request.url[..])|
              && var (call, replies), d := server.calls[|old(server.calls)|], server.site.callback;
                 && IsCallOf(call, r, head, segments)
                 && ComesBack(c, old(server.request.url[..])[|UrlOf(r)| + 1..], d.nameSize, d.valueSize)
                    == (replies == Told(c, d.nameSize, d.valueSize) + [NO_MORE])
            else
              && ret == UNAUTHORIZED && server.calls == old(server.calls)
              && server.out == old(server.out) + Refusal(server.request.build).sent
  {
    hide LegalRequest, ShowRequest, LetIn, IsCallOf, ReachesCallback, Outcome, UrlLeft, Follows, Refusal, CallOf,
         IsCalled, KeptOf, IsTold, MayPass, Arrived, Carries, IsLegal, Suits, Told, ComesBack, Count, UrlOf, IsText,
         Params.Upcoming;
    ghost var before: string, calls := server.request.url[..], server.calls;
    ret := ServeRequest(server, r);
    ghost var q, build, check := server.parsed, server.request.build, server.request.check;
    RoutedOutcome(build, check, server.site, q, before, r, head, segments);
    if LetIn(build, check, q) {
      CalledOnce(build, check, server.site, r, q, before);
      CallbackSeesContent(build, check, server.site, r, q, before, c);
    } else {
      RefusalIsEmpty(build);
      assert calls + [] == calls;
    }
  }

  // ---------------------------------------------------------------- a request for a page

  /** The page stands at the path of the target. */
  ghost predicate IsPageOf(site: Site, page: Page, r: RequestLaws.Request) {
    SiteLaws.StandsAt(site, page, PathOf(UrlOf(r)), |UrlOf(r)|)
  }

  /** What a request for a page gets: the page, if the method is GET. */
  lemma PageOutcome(build: Build, check: (nat, string) -> int, site: Site, q: Parsed, before: string,
                    r: RequestLaws.Request, page: Page)
    requires LegalSite(site) && IsPageOf(site, page, r)
    requires Arrived(r, q, before) && q.code >= 0 && q.urlLen <= |q.url|
    ensures Outcome(build, check, site, q) == if !LetIn(build, check, q) then Refusal(build)
                                              else if r.verb == Get then Served(page, site.gzip)
                                              else JustStatus(UNSUPPORTED)
    ensures UrlLeft(build, check, site, q) == q.url
  {
    hide ShowRequest, IsRequest, IsParsed, IsText, LetIn, Refusal, CallOf, PageAt, IsEvents, UrlOf, PathOf, QueryOf,
         CString, Served, StatusLine, UrlCut, SiteLaws.StandsAt, SiteLaws.NothingStands;
    UrlArrives(r, q, before);
    IsSupported(r);
    SiteLaws.PageIsFound(site, page, PathOf(UrlOf(r)), |UrlOf(r)|);
  }

  /** A client that is let in reads the status 200, the type, the length and the whole page, or the status 501. */
  ghost predicate IsPageAnswer(build: Build, check: (nat, string) -> int, site: Site, r: RequestLaws.Request,
                               page: Page, ret: int, sent: string) {
    if !MayPass(build, check, r) then ret == UNAUTHORIZED && sent == Refusal(build).sent
    else if r.verb == Get then
      && ret == OK
      && ResponseLaws.ReadMessage(sent)
           == ResponseLaws.Message([ResponseLaws.StatusText(OK)] + ResponseLaws.PageFields(page, site.gzip),
                                   page.content)
    else ret == UNSUPPORTED && sent == "HTTP/1.0 501 Not Implemented\r\n"
  }

  /** A run for a page, which never calls the callback. */
  method ServePage(server: Execute.Server, ghost r: RequestLaws.Request, ghost page: Page) returns (ret: int)
    requires server.Valid() && server.request.reader.Unread() == ShowRequest(r) && LegalRequest(r) && IsText(r.target)
    requires IsTold(server.request.build, r) && IsPageOf(server.site, page, r)
    modifies server, server.request, server.request.url, server.request.reader, server.params.json
    ensures server.Valid() && server.calls == old(server.calls)
    ensures |old(server.out)| <= |server.out| && server.out[..|old(server.out)|] == old(server.out)
    ensures IsPageAnswer(server.request.build, server.request.check, server.site, r, page, ret,
                         server.out[|old(server.out)|..])
  {
    hide LegalRequest, ShowRequest, LetIn, Outcome, UrlLeft, Follows, Refusal, IsTold, MayPass, Arrived, IsPageOf,
         IsText, StatusLine, PageHeaders, ResponseLaws.ReadMessage, ResponseLaws.StatusText,
         ResponseLaws.PageFields;
    ghost var before: string, calls, out := server.request.url[..], server.calls, server.out;
    ret := ServeRequest(server, r);
    ghost var q, build, check := server.parsed, server.request.build, server.request.check;
    PageOutcome(build, check, server.site, q, before, r, page);
    ResponseLaws.ServedReadsBack(page, server.site.gzip);
    SiteLaws.ServerLines();
    RefusalIsEmpty(build);
    assert calls + [] == calls;
  }

  /** The default page is the one for the target /, whatever else the site has. */
  lemma RootIsDefault(site: Site, page: Page, r: RequestLaws.Request)
    requires site.defaultPage == Full(page) && r.target == "/"
    ensures IsPageOf(site, page, r)
  {
    hide PathOf, QueryOf, SiteLaws.StandsAt;
    assert Cut("/", URL_SIZE - 1) == "/";
    PartsOfTarget("/", "", "");
    SiteLaws.DefaultStandsAtRoot(site, page);
  }

  /** A listed page is the one for its own URL, unless the default page or an earlier one is for that. */
  lemma ListedIsFound(site: Site, k: nat, r: RequestLaws.Request)
    requires k < |site.pages| && site.pages[k].Full? && r.target == site.pages[k].page.url
    requires '?' !in r.target && |r.target| < URL_SIZE && !SiteLaws.IsDefaultFor(site, r.target, |r.target|)
    requires forall j | 0 <= j < k :: !SiteLaws.IsFor(site.pages[j], r.target)
    ensures IsPageOf(site, site.pages[k].page, r)
  {
    hide PathOf, QueryOf, SiteLaws.StandsAt, SiteLaws.IsFor, SiteLaws.IsDefaultFor;
    assert Cut(r.target, URL_SIZE - 1) == r.target;
    PartsOfTarget(r.target, "", "");
    SiteLaws.ListedStandsAtItsUrl(site, k, |r.target|);
  }

  /** So a run for / serves the default page. */
  method ServeRoot(server: Execute.Server, ghost r: RequestLaws.Request, ghost page: Page) returns (ret: int)
    requires server.Valid() && server.request.reader.Unread() == ShowRequest(r) && LegalRequest(r) && r.target == "/"
    requires IsTold(server.request.build, r) && server.site.defaultPage == Full(page)
    modifies server, server.request, server.request.url, server.request.reader, server.params.json
    ensures server.Valid() && server.calls == old(server.calls)
    ensures |old(server.out)| <= |server.out| && server.out[..|old(server.out)|] == old(server.out)
    ensures IsPageAnswer(server.request.build, server.request.check, server.site, r, page, ret,
                         server.out[|old(server.out)|..])
  {
    assert IsText(r.target);
    hide LegalRequest, ShowRequest, IsTold, IsPageAnswer, IsPageOf, IsText;
    RootIsDefault(server.site, page, r);
    ret := ServePage(server, r, page);
  }

  /** And a run for the URL of a listed page serves that page. */
  method ServeListed(server: Execute.Server, ghost r: RequestLaws.Request, ghost k: nat) returns (ret: int)
    requires server.Valid() && server.request.reader.Unread() == ShowRequest(r) && LegalRequest(r) && IsText(r.target)
    requires IsTold(server.request.build, r)
    requires k < |server.site.pages| && server.site.pages[k].Full? && r.target == server.site.pages[k].page.url
    requires '?' !in r.target && |r.target| < URL_SIZE && !SiteLaws.IsDefaultFor(server.site, r.target, |r.target|)
    requires forall j | 0 <= j < k :: !SiteLaws.IsFor(server.site.pages[j], r.target)
    modifies server, server.request, server.request.url, server.request.reader, server.params.json
    ensures server.Valid() && server.calls == old(server.calls)
    ensures |old(server.out)| <= |server.out| && server.out[..|old(server.out)|] == old(server.out)
    ensures IsPageAnswer(server.request.build, server.request.check, server.site, r, server.site.pages[k].page, ret,
                         server.out[|old(server.out)|..])
  {
    hide LegalRequest, ShowRequest, IsTold, IsPageAnswer, IsPageOf, IsText, SiteLaws.IsFor, SiteLaws.IsDefaultFor;
    ListedIsFound(server.site, k, r);
    ret := ServePage(server, r, server.site.pages[k].page);
  }

  // ---------------------------------------------------------------- a request for the event stream

  /** The event stream stands at the path, and no page does. */
  ghost predicate IsStreamOf(site: Site, r: RequestLaws.Request) {
    && LegalSite(site) && SiteLaws.NothingStands(site, PathOf(UrlOf(r)), |UrlOf(r)|)
    && PathOf(UrlOf(r)) == site.eventsUrl != ""
  }

  lemma StreamOutcome(build: Build, check: (nat, string) -> int, site: Site, q: Parsed, before: string,
                      r: RequestLaws.Request)
    requires IsStreamOf(site, r) && Arrived(r, q, before) && q.code >= 0 && q.urlLen <= |q.url|
    ensures Outcome(build, check, site, q) == if LetIn(build, check, q) then Events() else Refusal(build)
  {
    hide ShowRequest, IsRequest, IsParsed, IsText, LetIn, Refusal, CallOf, PageAt, UrlOf, PathOf, QueryOf, CString,
         StatusLine, SiteLaws.StandsAt, SiteLaws.NothingStands;
    UrlArrives(r, q, before);
    IsSupported(r);
    SiteLaws.PageIsFound(site, Page("", "", 0), PathOf(UrlOf(r)), |UrlOf(r)|);
  }

  /** A run for the event stream: a client that is let in gets its head, whatever the method, and no call is made. */
  method ServeEvents(server: Execute.Server, ghost r: RequestLaws.Request) returns (ret: int)
    requires server.Valid() && server.request.reader.Unread() == ShowRequest(r) && LegalRequest(r) && IsText(r.target)
    requires IsTold(server.request.build, r) && IsStreamOf(server.site, r)
    modifies server, server.request, server.request.url, server.request.reader, server.params.json
    ensures server.Valid() && server.calls == old(server.calls)
    ensures if MayPass(server.request.build, server.request.check, r) then
              && ret == 1
              && server.out == old(server.out) + ("HTTP/1.0 200 OK\r\n" + ("Content-Type: text/event-stream\r\n"
                                                   + ("Cache-Control: no-cache\r\n" + "\r\n")))
            else ret == UNAUTHORIZED && server.out == old(server.out) + Refusal(server.request.build).sent
  {
    hide LegalRequest, ShowRequest, LetIn, Outcome, UrlLeft, Follows, Refusal, IsTold, MayPass, Arrived, IsStreamOf,
         IsText, StatusLine, EventHeaders;
    ghost var before: string, calls := server.request.url[..], server.calls;
    ret := ServeRequest(server, r);
    StreamOutcome(server.request.build, server.request.check, server.site, server.parsed, before, r);
    SiteLaws.EventText();
    RefusalIsEmpty(server.request.build);
    assert calls + [] == calls;
  }

  // ---------------------------------------------------------------- what a run leaves behind

  function FirstRequest(): RequestLaws.Request {
    RequestLaws.Request("", Get, " ", "/page?b=2", " ", "HTTP/1.0", "\r\n", [], "\r\n", "")
  }

  lemma FirstIsLegal()
    ensures var r := FirstRequest(); LegalRequest(r) && IsText(r.target) && UrlOf(r) == "/page?b=2"
  {}

  lemma FirstIsKept()
    ensures var r := FirstRequest();
            LegalRequest(r) && IsText(r.target) && UrlOf(r) == "/page?b=2" && PathOf(UrlOf(r)) == "/page"
  {
    FirstIsLegal();
    hide LegalRequest, IsText, PathOf, QueryOf, FirstRequest, UrlOf;
    assert "/page" + (['?'] + ("" + "b=2")) == "/page?b=2";
    PartsOfTarget("/page", "", "b=2");
  }

  /** On a buffer that was empty, a request for a page leaves its own parameters there, for the next request. */
  method LeaveOldBuffer(server: Execute.Server, ghost page: Page) returns (ret: int)
    requires server.Valid() && server.request.reader.Unread() == ShowRequest(FirstRequest())
    requires server.request.url[..] == Nuls(URL_SIZE) && IsPageOf(server.site, page, FirstRequest())
    modifies server, server.request, server.request.url, server.request.reader, server.params.json
    ensures server.Valid() && server.request.url[..] == OldBuffer()
  {
    hide LegalRequest, ShowRequest, LetIn, Outcome, UrlLeft, Follows, Refusal, IsTold, Arrived, UrlOf, PathOf,
         IsText, PageAt, SplitMarks, FirstRequest, IsPageOf;
    FirstIsKept();
    ghost var before: string := server.request.url[..];
    ret := ServeRequest(server, FirstRequest());
    ghost var build, check := server.request.build, server.request.check;
    PageOutcome(build, check, server.site, server.parsed, before, FirstRequest(), page);
    FirstBuffer(server.parsed, before);
  }

  lemma FirstBuffer(q: Parsed, before: string)
    requires Arrived(FirstRequest(), q, before) && before == Nuls(URL_SIZE)
    ensures q.url == OldBuffer()
  {
    hide ShowRequest, IsRequest, IsParsed, LegalRequest, IsText, SplitMarks, Recorded, AcceptedBy, ContentTypeOf,
         FirstRequest;
    FirstIsKept();
    Arrives(FirstRequest(), q, before);
    assert before[10..] == Nuls(54);
  }
}
