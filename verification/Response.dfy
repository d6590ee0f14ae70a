/** What the server can answer, and which answer a parsed request gets. */
module Response {
  import opened Text
  import opened RequestText
  import opened HeaderEffects
  import opened RequestFacts
  import opened Stream
  import opened Request
  import FormText
  import JsonParam
  import Params
  import Route

  // ---------------------------------------------------------------- the site

  const PAGE_URL_SIZE := 32
  const EVENT_STREAM := 7

  datatype Page = Page(url: string, content: string, mime: nat)

  datatype Slot = Empty | Full(page: Page)

  /** What a callback is given. */
  datatype Call = Call(verb: Verb, accepted: nat, command: seq<string>, id: seq<string>)

  /**
   A callback that writes nothing: it reads `params` parameters into buffers of the given sizes
   and answers with a return code.
   */
  datatype Callback =
    | NoCallback
    | Callback(params: nat, nameSize: nat, valueSize: nat, answer: (Call, seq<Reply>) -> int)

  datatype Site = Site(defaultPage: Slot, pages: seq<Slot>, eventsUrl: string, callback: Callback, gzip: bool)

  predicate LegalSite(s: Site) {
    s.callback.Callback? ==> 1 <= s.callback.nameSize <= s.callback.valueSize
  }

  // ---------------------------------------------------------------- what is sent

  const EOL := "\r\n"
  const PROTOCOL := "HTTP/1.0 "
  const TYPE_FIELD := "Content-Type: "
  const CHARSET := "; charset=utf-8"
  const LENGTH_FIELD := "Content-Length: "
  const GZIP_FIELD := "Content-Encoding: gzip"
  const NO_CACHE_FIELD := "Cache-Control: no-cache"

  /** The reasons of the codes that have one of their own. */
  function Reason(code: int): string {
    if code == 200 then "OK"
    else if code == 202 then "Accepted"
    else if code == 400 then "Bad Request"
    else if code == 401 then "Unauthorized"
    else if code == 404 then "Not Found"
    else if code == 501 then "Not Implemented"
    else "Internal Error"
  }

  predicate HasReason(code: int) {
    code == 200 || code == 202 || code == 400 || code == 401 || code == 404 || code == 501
  }

  function StatusLine(code: nat): (s: string)
    ensures |s| > 0
  {
    PROTOCOL + Decimal(code) + " " + Reason(code) + EOL
  }

  /** A code without a reason of its own is reported as 500. */
  function Reported(code: int): nat {
    if HasReason(code) then code else INTERNAL_ERROR
  }

  function ContentType(mime: nat): string {
    TYPE_FIELD + MimeType(mime) + CHARSET + EOL
  }

  function ContentLength(n: nat): string {
    if n > 0 then LENGTH_FIELD + Decimal(n) + EOL else ""
  }

  function Encoding(gzip: bool): string {
    if gzip then GZIP_FIELD + EOL else ""
  }

  const REALM := "attoHTTP Server"
  const AUTH_ERROR := "<!DOCTYPE html><html><head><title>Invalid Request</title></head>"
                    + "<body><h1>Invalid Request</h1></body></html>"

  const BASIC_FIELD := "WWW-Authenticate: Basic realm=\""
  const DIGEST_FIELD := "WWW-Authenticate: Digest realm=\""
  const QOP := "\",qop=\"auth,auth-int\",nonce=\""
  const OPAQUE := "\",opaque=\""

  /** The header that asks for credentials. */
  function ChallengeText(build: Build): string {
    if build == DigestAuth then DIGEST_FIELD + REALM + QOP + REALM + OPAQUE + REALM + "\""
    else BASIC_FIELD + REALM + "\""
  }

  function Challenge(build: Build): string {
    if build == NoAuth then "" else ChallengeText(build) + EOL
  }

  function EventHeaders(): string {
    TYPE_FIELD + MimeType(EVENT_STREAM) + EOL + NO_CACHE_FIELD + EOL + EOL
  }

  // ---------------------------------------------------------------- answers

  /** The code that Execute returns, everything it sends, and the calls it makes. */
  datatype Answer = Answer(code: int, sent: string, calls: seq<(Call, seq<Reply>)>)

  function JustStatus(code: nat): Answer {
    Answer(code, StatusLine(code), [])
  }

  function Refusal(build: Build): Answer {
    Answer(UNAUTHORIZED, StatusLine(UNAUTHORIZED) + (Challenge(build) + EOL + AUTH_ERROR), [])
  }

  function PageHeaders(page: Page, gzip: bool): string {
    ContentType(page.mime) + ContentLength(|page.content|) + Encoding(gzip) + EOL
  }

  function Served(page: Page, gzip: bool): (a: Answer)
    ensures |a.sent| > 0
  {
    Answer(OK, StatusLine(OK) + (PageHeaders(page, gzip) + page.content), [])
  }

  function Events(): (a: Answer)
    ensures |a.sent| > 0
  {
    Answer(SERVER_SENT_EVENTS, StatusLine(OK) + EventHeaders(), [])
  }

  /** What becomes of the code that a callback returns. */
  function Concluded(build: Build, code: int): Answer {
    if code == UNKNOWN then JustStatus(OK)
    else if code == UNAUTHORIZED then Refusal(build)
    else if code == SERVER_SENT_EVENTS then Answer(code, StatusLine(OK), [])
    else if HasReason(code) then JustStatus(code)
    else JustStatus(INTERNAL_ERROR)
  }

  // ---------------------------------------------------------------- routing

  /** strncmp over the size of a page's URL. */
  predicate IsAt(slot: Slot, url: string) {
    slot.Full? && Cut(url, PAGE_URL_SIZE) == Cut(slot.page.url, PAGE_URL_SIZE)
  }

  function FirstAt(pages: seq<Slot>, url: string): Slot {
    if |pages| == 0 then Empty else if IsAt(pages[0], url) then pages[0] else FirstAt(pages[1..], url)
  }

  predicate IsDefault(site: Site, url: string, urlLen: nat) {
    site.defaultPage.Full? && ((url == "/" && urlLen == 1) || IsAt(site.defaultPage, url))
  }

  function PageAt(site: Site, url: string, urlLen: nat): Slot {
    if IsDefault(site, url, urlLen) then site.defaultPage else FirstAt(site.pages, url)
  }

  predicate IsEvents(site: Site, url: string) {
    |site.eventsUrl| > 0 && url == site.eventsUrl
  }

  /** A request after its header block was read. */
  datatype Parsed = Parsed(verb: Verb, url: string, urlLen: nat, accepted: nat, code: int, lines: seq<Line>,
                           ahead: Params.Ahead)

  /** The parameters in the URL buffer: behind the last question mark of the target `u`. */
  function UrlParams(u: string, buffer: string): string
    requires |u| < |buffer|
  {
    if 0 < ParamsAt(u) < URL_SIZE then buffer[ParamsAt(u)..] else ""
  }

  /** `q` is what the input `s` says, when the URL buffer held `before`. */
  ghost predicate IsParsed(q: Parsed, s: string, before: string)
    requires IsRequest(s) && |before| == URL_SIZE
  {
    var u, hs, rest := Target(AtTarget(s)), Headers(AtHeaders(s)), AfterHeaders(AtHeaders(s));
    && q.verb == VerbAt(s)
    && q.url == SplitMarks(u) + [NUL] + before[|u| + 1..] && q.urlLen == |u|
    && q.accepted == AcceptedBy(hs) && Recorded(q.lines, hs)
    && q.ahead == Params.Ahead(Params.KindOf(q.verb, ContentTypeOf(hs)),
                               if q.verb == Get then UrlParams(u, q.url) else FormText.Strip(rest),
                               JsonParam.INITIAL, rest)
  }

  /** The same for any input: whether it is a request, and what it says if it is. */
  ghost predicate Follows(q: Parsed, s: string, before: string)
    requires |before| == URL_SIZE
  {
    && q.verb == VerbAt(s) && (q.verb == NotSupported ==> q.code == FirstCode(NotSupported, s))
    && (q.verb != NotSupported ==> ComeFrom(q.lines, s))
    && (IsRequestLine(s) ==> AreLines(q.lines, AtHeaders(s)))
    && (IsRequest(s) ==> IsParsed(q, s, before))
  }

  lemma FollowsCode(q: Parsed, s: string, before: string)
    requires |before| == URL_SIZE && Follows(q, s, before)
    ensures q.verb == NotSupported ==> q.code == INTERNAL_ERROR || q.code == UNSUPPORTED
  {}

  lemma IsRead(q: Parsed, s: string, before: string, build: Build, check: (nat, string) -> int, start: Effects)
    requires IsRequest(s) && |before| == URL_SIZE && start.accept == start.contentType == TEXT_HTML
    requires q.verb == VerbAt(s)
    requires var u := Target(AtTarget(s)); q.url == SplitMarks(u) + [NUL] + before[|u| + 1..] && q.urlLen == |u|
    requires Recorded(q.lines, Headers(AtHeaders(s)))
    requires var e, rest := ApplyAll(build, check, start, q.lines), AfterHeaders(AtHeaders(s));
             && q.accepted == e.accept
             && q.ahead == Params.Ahead(Params.KindOf(q.verb, e.contentType),
                                        if q.verb == Get then UrlParams(Target(AtTarget(s)), q.url)
                                        else FormText.Strip(rest),
                                        JsonParam.INITIAL, rest)
    ensures IsParsed(q, s, before)
  {
    hide ApplyAll, Headers, AfterHeaders, AtHeaders, Target, AtTarget, Recorded, ContentTypeOf, AcceptedBy;
    TypesAreRecorded(build, check, start, q.lines, Headers(AtHeaders(s)));
  }

  function CallOf(q: Parsed): Call
    requires q.urlLen <= |q.url|
  {
    var path := CString(q.url[..q.urlLen]);
    Call(q.verb, q.accepted, Route.Commands(path, q.urlLen), Route.Ids(path, q.urlLen))
  }

  /** No page and no event stream stands at the path. */
  predicate IsFree(site: Site, q: Parsed) {
    PageAt(site, CString(q.url), q.urlLen) == Empty && !IsEvents(site, CString(q.url))
  }

  /** The URL buffer behind the search for a page: cut at its slashes if that reached the callback. */
  function UrlBehind(site: Site, q: Parsed): string
    requires q.urlLen <= |q.url|
  {
    if IsFree(site, q) && site.callback.Callback? then UrlCut(q) else q.url
  }

  function UrlCut(q: Parsed): string
    requires q.urlLen <= |q.url|
  {
    var path := CString(q.url[..q.urlLen]);
    Route.CutSlashes(path) + q.url[|path|..]
  }

  /** What a run leaves in the URL buffer for the next one. */
  ghost function UrlLeft(build: Build, check: (nat, string) -> int, site: Site, q: Parsed): string
    requires q.urlLen <= |q.url|
  {
    if LetIn(build, check, q) && q.verb != NotSupported then UrlBehind(site, q) else q.url
  }

  /** How far a request gets: the code so far, what was sent, if anything, and the calls. */
  datatype Step = Step(ret: int, code: int, sent: string, calls: seq<(Call, seq<Reply>)>)

  function CallStep(site: Site, q: Parsed, code: int): Step
    requires LegalSite(site) && q.urlLen <= |q.url|
  {
    match site.callback
    case NoCallback => Step(0, code, "", [])
    case Callback(n, nameSize, valueSize, answer) =>
      var call := CallOf(q);
      if |call.command| == 0 then Step(1, INTERNAL_ERROR, "", [])
      else
        var replies := Params.Upcoming(q.ahead, nameSize, valueSize, n);
        Step(1, answer(call, replies), "", [(call, replies)])
  }

  function PageStep(site: Site, q: Parsed, code: int): Step
    requires LegalSite(site) && q.urlLen <= |q.url|
  {
    var url := CString(q.url);
    var slot := PageAt(site, url, q.urlLen);
    if slot.Full? then
      if q.verb == Get then Step(1, OK, Served(slot.page, site.gzip).sent, []) else Step(-1, UNSUPPORTED, "", [])
    else if IsEvents(site, url) then Step(1, SERVER_SENT_EVENTS, Events().sent, [])
    else CallStep(site, q, code)
  }

  /** The whole answer to a request that was let in. */
  function Routed(build: Build, site: Site, q: Parsed): Answer
    requires LegalSite(site) && q.urlLen <= |q.url|
  {
    var url := CString(q.url);
    var slot := PageAt(site, url, q.urlLen);
    if slot.Full? then (if q.verb == Get then Served(slot.page, site.gzip) else JustStatus(UNSUPPORTED))
    else if IsEvents(site, url) then Events()
    else
      match site.callback
      case NoCallback => JustStatus(NOT_FOUND)
      case Callback(n, nameSize, valueSize, answer) =>
        var call := CallOf(q);
        if |call.command| == 0 then JustStatus(INTERNAL_ERROR)
        else
          var replies := Params.Upcoming(q.ahead, nameSize, valueSize, n);
          Concluded(build, answer(call, replies)).(calls := [(call, replies)])
  }

  /** What is left to do after the page or the callback was found. */
  lemma StepConcludes(build: Build, site: Site, q: Parsed)
    requires LegalSite(site) && q.urlLen <= |q.url|
    ensures var s, a := PageStep(site, q, NOT_FOUND), Routed(build, site, q);
            var code := if s.ret > 0 && s.code == UNKNOWN then OK else s.code;
            && a.calls == s.calls && code != UNKNOWN
            && if s.sent != "" then code == a.code && (a.code == OK || a.code == SERVER_SENT_EVENTS) && a.sent == s.sent
               else Concluded(build, code).(calls := a.calls) == a
  {
    hide Params.Upcoming, CallOf, PageAt, IsEvents, CString, Refusal;
  }

  /** The client may see something: the build asks for no credentials, or they were given. */
  ghost predicate LetIn(build: Build, check: (nat, string) -> int, q: Parsed) {
    build == NoAuth || (q.verb != NotSupported && Granted(check, q.lines))
  }

  ghost function Outcome(build: Build, check: (nat, string) -> int, site: Site, q: Parsed): Answer
    requires LegalSite(site) && q.urlLen <= |q.url| && q.code >= 0
  {
    if !LetIn(build, check, q) then Refusal(build)
    else if q.verb == NotSupported then JustStatus(q.code)
    else Routed(build, site, q)
  }

  /** What the flag and the code say once the header lines were acted on. */
  lemma Judged(build: Build, check: (nat, string) -> int, q: Parsed, e: Effects, code: int)
    requires q.verb == NotSupported ==> q.lines == []
    requires if q.verb != NotSupported then code == UNKNOWN else code == INTERNAL_ERROR || code == UNSUPPORTED
    requires e == ApplyAll(build, check, Effects(TEXT_HTML, TEXT_HTML, if build == NoAuth then 1 else 0, code), q.lines)
    ensures if LetIn(build, check, q) then e.authenticated != 0 && e.code == code
            else e.authenticated == 0 || e.code == UNAUTHORIZED
    ensures e.code >= 0 && (q.verb == NotSupported ==> e.code == code)
  {
    hide Apply, Accepted, IsAuthorization;
    if build == NoAuth {
      NoAuthIgnores(check, Effects(TEXT_HTML, TEXT_HTML, 1, code), q.lines);
    } else if q.verb != NotSupported {
      AuthDecides(build, check, TEXT_HTML, TEXT_HTML, q.lines);
    }
  }
}
