/** From the bytes of a printed request to what the callback sees. */
module EndToEnd {
  import opened Text
  import opened RequestText
  import opened RequestFacts
  import opened RequestLaws
  import opened HeaderEffects
  import opened Response
  import FormText
  import FormLaws
  import FormLimits
  import JsonParam
  import JsonLaws
  import JsonNested
  import JsonParts
  import Params
  import Route
  import RouteLaws

  /** `q` is the parsed request `r`. */
  ghost predicate Arrived(r: RequestLaws.Request, q: Parsed, before: string) {
    && LegalRequest(r) && IsText(r.target) && |before| == URL_SIZE
    && IsRequest(ShowRequest(r)) && IsParsed(q, ShowRequest(r), before)
  }

  lemma Arrives(r: RequestLaws.Request, q: Parsed, before: string)
    requires Arrived(r, q, before)
    ensures var u, hs, rest := Cut(r.target, URL_SIZE - 1), KeptOf(r.fields), ['\n'] + r.body;
            && q.verb == r.verb && q.url == SplitMarks(u) + [NUL] + before[|u| + 1..] && q.urlLen == |u|
            && q.accepted == AcceptedBy(hs) && Recorded(q.lines, hs)
            && q.ahead == Params.Ahead(Params.KindOf(r.verb, ContentTypeOf(hs)),
                                       if r.verb == Get then UrlParams(u, q.url) else FormText.Strip(rest),
                                       JsonParam.INITIAL, rest)
  {
    hide ShowRequest, LegalRequest, Headers, AfterHeaders, AtHeaders, Target, AtTarget, VerbAt, VersionText,
         SplitMarks, ContentTypeOf, AcceptedBy, Recorded, IsText;
    RequestRoundTrip(r);
  }

  // ---------------------------------------------------------------- the path

  /** The part of the target that the buffer keeps. */
  function UrlOf(r: RequestLaws.Request): string {
    Cut(r.target, URL_SIZE - 1)
  }

  /** The URL buffer holds the path of that part, and behind its last question mark the parameters. */
  lemma UrlArrives(r: RequestLaws.Request, q: Parsed, before: string)
    requires Arrived(r, q, before)
    ensures q.verb == r.verb && q.urlLen == |UrlOf(r)| <= |q.url| && |UrlOf(r)| < |before|
    ensures CString(q.url) == CString(q.url[..q.urlLen]) == PathOf(UrlOf(r))
    ensures q.verb == Get ==>
              && q.ahead.kind == Params.UrlEncoded
              && q.ahead.form == if '?' in UrlOf(r) then QueryOf(UrlOf(r)) + ([NUL] + before[|UrlOf(r)| + 1..]) else ""
  {
    hide LegalRequest, ShowRequest, IsRequest, IsParsed, CString, IsText, SplitMarks, ContentTypeOf, AcceptedBy,
         Recorded, KeptOf, PathOf, QueryOf, ParamsAt;
    var u := UrlOf(r);
    Arrives(r, q, before);
    TextIsCut(r.target, URL_SIZE - 1);
    TargetSplits(u, before[|u| + 1..]);
    MarkIsEarly(u);
  }

  lemma MarkIsEarly(u: string)
    ensures ParamsAt(u) <= |u|
  {}

  /** Every second segment from number `first` on, `n` of them. */
  ghost predicate Alternate(names: seq<string>, segments: seq<string>, first: nat, n: nat) {
    && |names| == n && (n > 0 ==> 2 * n - 2 + first < |segments|)
    && forall k | 0 <= k < n :: names[k] == segments[2 * k + first]
  }

  /** The call says what was printed. */
  ghost predicate IsCallOf(call: Call, r: RequestLaws.Request, head: string, segments: seq<string>) {
    var m := RouteLaws.Counted(head, segments, |UrlOf(r)|);
    && call.verb == r.verb && call.accepted == AcceptedBy(KeptOf(r.fields))
    && Alternate(call.command, segments, 0, Min(3, (m + 1) / 2)) && Alternate(call.id, segments, 1, Min(3, m / 2))
  }

  /** The path, as far as it is kept, consists of these segments. */
  ghost predicate HasPath(r: RequestLaws.Request, head: string, segments: seq<string>) {
    && PathOf(UrlOf(r)) == RouteLaws.ShowPath(head, segments)
    && RouteLaws.NoSlash(head) && RouteLaws.NoSlashes(segments)
  }

  /** The callback is called with the segments of the path, in turn as commands and ids. */
  lemma CalledWithSegments(r: RequestLaws.Request, q: Parsed, before: string, head: string, segments: seq<string>)
    requires Arrived(r, q, before) && HasPath(r, head, segments)
    ensures q.urlLen <= |q.url| && IsCallOf(CallOf(q), r, head, segments)
  {
    hide LegalRequest, ShowRequest, IsRequest, IsParsed, CString, IsText, SplitMarks, ContentTypeOf, AcceptedBy,
         Recorded, KeptOf, RouteLaws.ShowPath, RouteLaws.Counted, RouteLaws.NoSlash, RouteLaws.NoSlashes,
         Route.Commands, Route.Ids, PathOf, QueryOf, Find;
    Arrives(r, q, before);
    UrlArrives(r, q, before);
    PathIsShorter(UrlOf(r));
    RouteLaws.RouteRoundTrip(head, segments, |UrlOf(r)|);
  }

  lemma PathIsShorter(u: string)
    ensures |PathOf(u)| <= |u|
  {}

  // ---------------------------------------------------------------- the parameters

  /** A form in the body: the pairs, and then the end, if and only if all fit and each is ended by its ampersand. */
  lemma FormArrives(r: RequestLaws.Request, q: Parsed, before: string, ps: seq<FormLaws.Pair>, amps: string,
                    nameSize: nat, valueSize: nat)
    requires Arrived(r, q, before) && r.verb != Get && ContentTypeOf(KeptOf(r.fields)) == XWWWFORM
    requires FormText.Strip(r.body) == FormLaws.ShowPairs(ps) + amps
    requires FormLaws.LegalPairs(ps) && FormLaws.AllAmps(amps) && nameSize > 0 && valueSize > 0
    ensures Params.Upcoming(q.ahead, nameSize, valueSize, |ps| + 1) == FormLaws.PairReplies(ps) + [NO_MORE]
       <==> FormLaws.PairsFit(ps, nameSize, valueSize) && FormLaws.IsSeparable(ps, valueSize)
  {
    hide ShowRequest, IsRequest, IsParsed, FormLaws.Replies, FormText.Strip, FormLaws.ShowPairs,
         FormLaws.LegalPairs, FormLaws.PairReplies, FormLaws.PairsFit, FormLaws.IsSeparable, KeptOf, ContentTypeOf,
         AcceptedBy, Recorded, SplitMarks;
    Arrives(r, q, before);
    FormText.StripStep('\n', r.body);
    assert FormText.IsDropped('\n');
    FormLaws.FormRoundTrip(ps, amps, nameSize, valueSize);
  }

  /** An object in the body: its members, cut to the buffers, and then the end. */
  lemma ObjectArrives(r: RequestLaws.Request, q: Parsed, before: string, pre: string, inner: string,
                      ms: seq<JsonLaws.Member>, post: string, nameSize: nat, valueSize: nat)
    requires Arrived(r, q, before) && r.verb != Get && ContentTypeOf(KeptOf(r.fields)) != XWWWFORM
    requires r.body == JsonLaws.ShowObject(pre, inner, ms, post) && AllSpace(pre) && AllSpace(inner)
    requires (forall i | 0 <= i < |ms| :: JsonLaws.LegalMember(ms[i])) && nameSize >= 1 && valueSize >= 1
    ensures Params.Upcoming(q.ahead, nameSize, valueSize, |ms| + 1)
         == JsonLaws.MemberReplies(ms, nameSize, valueSize) + [NO_MORE]
  {
    hide ShowRequest, IsRequest, IsParsed, JsonLaws.Replies, JsonLaws.LegalMember, KeptOf, ContentTypeOf,
         AcceptedBy, Recorded, SplitMarks, FormText.Strip, JsonLaws.MemberReplies, JsonLaws.ShowMembers;
    Arrives(r, q, before);
    assert ['\n'] + r.body == JsonLaws.ShowObject(['\n'] + pre, inner, ms, post);
    JsonLaws.ObjectRoundTrip(ms, 0, ['\n'] + pre, inner, post, nameSize, valueSize);
  }

  /**
   An object with nested objects in the body: its members and then the end, if and only if none but
   the last is nested.
   */
  lemma NestedArrives(r: RequestLaws.Request, q: Parsed, before: string, pre: string, inner: string,
                      ts: seq<JsonNested.Item>, post: string, nameSize: nat, valueSize: nat)
    requires Arrived(r, q, before) && r.verb != Get && ContentTypeOf(KeptOf(r.fields)) != XWWWFORM
    requires r.body == JsonNested.ShowItemObject(pre, inner, ts, post) && AllSpace(pre) && AllSpace(inner)
    requires JsonNested.LegalItems(ts) && nameSize >= 1 && valueSize >= 1
    ensures Params.Upcoming(q.ahead, nameSize, valueSize, |ts| + 1)
              == JsonNested.ItemReplies(ts, nameSize, valueSize) + [NO_MORE]
       <==> JsonNested.OnlyLastIsNested(ts)
  {
    hide ShowRequest, IsRequest, IsParsed, JsonLaws.Replies, JsonNested.LegalItems, KeptOf, ContentTypeOf,
         AcceptedBy, Recorded, SplitMarks, FormText.Strip, JsonNested.ItemReplies, JsonNested.ShowItems,
         JsonNested.OnlyLastIsNested;
    Arrives(r, q, before);
    assert ['\n'] + r.body == JsonNested.ShowItemObject(['\n'] + pre, inner, ts, post);
    JsonNested.NestedRoundTrip(ts, 0, ['\n'] + pre, inner, post, nameSize, valueSize);
  }

  /** An array in the body: the number and the text of each element, and then the end. */
  lemma ArrayArrives(r: RequestLaws.Request, q: Parsed, before: string, pre: string, inner: string,
                     es: seq<JsonLaws.Element>, post: string, nameSize: nat, valueSize: nat)
    requires Arrived(r, q, before) && r.verb != Get && ContentTypeOf(KeptOf(r.fields)) != XWWWFORM
    requires r.body == JsonLaws.ShowArray(pre, inner, es, post) && AllSpace(pre) && AllSpace(inner) && AllSpace(post)
    requires (forall i | 0 <= i < |es| :: JsonLaws.LegalElement(es[i])) && 4 <= nameSize <= valueSize
    ensures Params.Upcoming(q.ahead, nameSize, valueSize, |es| + 1)
         == JsonLaws.ElementReplies(es, 0, nameSize) + [NO_MORE]
  {
    hide ShowRequest, IsRequest, IsParsed, JsonLaws.Replies, JsonLaws.LegalElement, KeptOf, ContentTypeOf,
         AcceptedBy, Recorded, SplitMarks, FormText.Strip, JsonLaws.ElementReplies, JsonLaws.ShowElements;
    Arrives(r, q, before);
    assert ['\n'] + r.body == JsonLaws.ShowArray(['\n'] + pre, inner, es, post);
    JsonLaws.ArrayRoundTrip(es, 0, ['\n'] + pre, inner, post, nameSize, valueSize);
  }

  /**
   An array with objects and lists in the body: its elements and then the end, if and only if none but
   the last is in brackets.
   */
  lemma PartsArrive(r: RequestLaws.Request, q: Parsed, before: string, pre: string, inner: string,
                    ps: seq<JsonParts.Part>, post: string, nameSize: nat, valueSize: nat)
    requires Arrived(r, q, before) && r.verb != Get && ContentTypeOf(KeptOf(r.fields)) != XWWWFORM
    requires r.body == JsonParts.ShowPartArray(pre, inner, ps, post)
    requires AllSpace(pre) && AllSpace(inner) && AllSpace(post)
    requires JsonParts.LegalParts(ps) && 4 <= nameSize <= valueSize
    ensures Params.Upcoming(q.ahead, nameSize, valueSize, |ps| + 1)
              == JsonParts.PartReplies(ps, 0, nameSize) + [NO_MORE]
       <==> JsonParts.OnlyLastIsBracketed(ps)
  {
    hide ShowRequest, IsRequest, IsParsed, JsonLaws.Replies, JsonParts.LegalParts, KeptOf, ContentTypeOf,
         AcceptedBy, Recorded, SplitMarks, FormText.Strip, JsonParts.PartReplies, JsonParts.ShowParts,
         JsonParts.OnlyLastIsBracketed;
    Arrives(r, q, before);
    assert ['\n'] + r.body == JsonParts.ShowPartArray(['\n'] + pre, inner, ps, post);
    JsonParts.PartsRoundTrip(ps, 0, ['\n'] + pre, inner, post, nameSize, valueSize);
  }

  /** Parameters in the target: the pairs, and then whatever an earlier request left behind them. */
  lemma QueryArrives(r: RequestLaws.Request, q: Parsed, before: string, ps: seq<FormLaws.Pair>, nameSize: nat,
                     valueSize: nat, m: nat)
    requires Arrived(r, q, before) && r.verb == Get && '?' in UrlOf(r) && |UrlOf(r)| < |before|
    requires QueryOf(UrlOf(r)) == FormLaws.ShowPairs(ps) && FormLaws.LegalPairs(ps) && nameSize > 0 && valueSize > 0
    requires FormLaws.PairsFit(ps, nameSize, valueSize) && FormLaws.IsSeparable(ps, valueSize)
    ensures Params.Upcoming(q.ahead, nameSize, valueSize, |ps| + m)
         == FormLaws.PairReplies(ps)
          + FormLaws.Replies(FormLaws.Behind(ps, before[|UrlOf(r)| + 1..], valueSize), nameSize, valueSize, m)
  {
    hide Arrived, UrlOf, QueryOf, PathOf, FormLaws.Replies, FormLaws.ShowPairs, FormLaws.LegalPairs, CString,
         FormLaws.PairReplies, FormLaws.PairsFit, FormLaws.IsSeparable, FormLaws.Behind;
    UrlArrives(r, q, before);
    FormLaws.TargetRoundTrip(ps, before[|UrlOf(r)| + 1..], nameSize, valueSize, m);
  }

  /**
   The pairs come back, and behind them the end, exactly when all pairs fit and nothing is left to report.  When each
   pair that another follows is ended by the ampersand, that means: there is no pair, or the last value fills its
   buffer, or the old bytes look like the end; without codes, when they are the end.
   */
  lemma QueryEnds(r: RequestLaws.Request, q: Parsed, before: string, ps: seq<FormLaws.Pair>, nameSize: nat,
                  valueSize: nat)
    requires Arrived(r, q, before) && r.verb == Get && |UrlOf(r)| < |before|
    requires QueryOf(UrlOf(r)) == FormLaws.ShowPairs(ps) && FormLaws.LegalPairs(ps) && nameSize > 0 && valueSize > 0
    ensures Params.Upcoming(q.ahead, nameSize, valueSize, |ps| + 1) == FormLaws.PairReplies(ps) + [NO_MORE]
       <==> && FormLaws.PairsFit(ps, nameSize, valueSize)
            && FormLimits.EndsBehind(ps, before[|UrlOf(r)| + 1..], nameSize, valueSize)
    ensures FormLaws.IsSeparable(ps, valueSize) ==>
              (FormLimits.EndsBehind(ps, before[|UrlOf(r)| + 1..], nameSize, valueSize)
               <==> FormLimits.IsFollowedByEnd(ps, before[|UrlOf(r)| + 1..], nameSize, valueSize))
    ensures var after := before[|UrlOf(r)| + 1..];
            '%' !in after ==> (FormLimits.LooksLikeEnd(after, nameSize) <==> FormLimits.IsAtEnd(after))
  {
    hide Arrived, UrlOf, PathOf, ParamsAt, FormLaws.Replies, FormLaws.ShowPairs, FormLaws.LegalPairs, CString,
         FormLaws.PairReplies, FormLaws.PairsFit, FormLaws.IsSeparable, FormLimits.LooksLikeEnd, FormLimits.IsAtEnd,
         FormLimits.EndsBehind;
    var u, after := UrlOf(r), before[|UrlOf(r)| + 1..];
    UrlArrives(r, q, before);
    if FormLaws.IsSeparable(ps, valueSize) {
      FormLimits.SeparableEnds(ps, after, nameSize, valueSize);
    }
    if '%' !in after {
      FormLimits.OnlyCodesLookLikeEnd(after, nameSize);
    }
    if '?' in u {
      FormLimits.TargetComesBack(ps, after, nameSize, valueSize);
    } else {
      NoMark(u);
      NoPairs(ps, after, nameSize, valueSize);
    }
  }

  /** Without parameters there is nothing to report. */
  lemma NoPairs(ps: seq<FormLaws.Pair>, after: string, nameSize: nat, valueSize: nat)
    requires FormLaws.ShowPairs(ps) == "" && nameSize > 0 && valueSize > 0
    ensures |ps| == 0 && FormLaws.Replies("", nameSize, valueSize, 1) == [NO_MORE]
    ensures FormLimits.EndsBehind(ps, after, nameSize, valueSize)
    ensures FormLaws.LegalPairs(ps) && FormLaws.PairReplies(ps) + [NO_MORE] == [NO_MORE]
    ensures FormLaws.PairsFit(ps, nameSize, valueSize) && FormLaws.IsSeparable(ps, valueSize)
  {
    assert |ps| > 0 ==> '=' in FormLaws.ShowPair(ps[0]);
    FormLaws.NothingIsLeft("", nameSize, valueSize);
  }

  // ---------------------------------------------------------------- an old pair

  function Nuls(n: nat): string {
    seq(n, _ => NUL)
  }

  /** What a request for `/page?b=2` leaves in a URL buffer that was empty. */
  function OldBuffer(): (b: string)
    ensures |b| == URL_SIZE
  {
    SplitMarks("/page?b=2") + [NUL] + Nuls(54)
  }

  /** The next request on the buffer. */
  function NextRequest(): RequestLaws.Request {
    RequestLaws.Request("", Get, " ", "/?a=1", " ", "HTTP/1.0", "\r\n", [], "\r\n", "")
  }

  /**
   Its second call reports the pair of the request before.  With a value size of 1 the end comes instead, since
   the value fills its buffer.
   */
  lemma OldPairComesBack(q: Parsed)
    requires Arrived(NextRequest(), q, OldBuffer())
    ensures Params.Upcoming(q.ahead, 8, 8, 2) == [Reply(true, "a", "1"), Reply(true, "b", "2")]
    ensures Params.Upcoming(q.ahead, 1, 1, 2) == [Reply(true, "a", "1"), NO_MORE]
  {
    hide Arrived, OldBuffer, NextRequest, UrlOf, QueryOf, FormLaws.Replies, FormLaws.ShowPairs, FormLaws.LegalPairs,
         FormLaws.PairReplies, FormLaws.SmallPairOf, Nuls, Params.Upcoming, FormLaws.IsLiteral,
         FormLimits.LooksLikeEnd;
    var a, b := [FormLaws.SmallPairOf('a', '1')], [FormLaws.SmallPairOf('b', '2')];
    NextIsKept();
    SmallPairs();
    OldBytes();
    QueryArrives(NextRequest(), q, OldBuffer(), a, 8, 8, 1);
    FormLaws.TargetRoundTrip(b, Nuls(54), 8, 8, 0);
    NoReplies(Nuls(54));
    QueryEnds(NextRequest(), q, OldBuffer(), a, 1, 1);
  }

  lemma NextIsKept()
    ensures var r := NextRequest();
            r.verb == Get && '?' in UrlOf(r) && QueryOf(UrlOf(r)) == "a=1" && |UrlOf(r)| == 5
  {
    hide QueryOf, PathOf;
    assert UrlOf(NextRequest()) == "/?a=1" && "/?a=1"[1] == '?';
    assert "/" + (['?'] + ("" + "a=1")) == "/?a=1";
    PartsOfTarget("/", "", "a=1");
  }

  lemma SmallPairs()
    ensures var a, b := FormLaws.SmallPairOf('a', '1'), FormLaws.SmallPairOf('b', '2');
            && FormLaws.LegalPairs([a]) && FormLaws.ShowPairs([a]) == "a=1" && FormLaws.PairsFit([a], 8, 8)
            && FormLaws.LegalPairs([b]) && FormLaws.ShowPairs([b]) == "b=2" && FormLaws.PairsFit([b], 8, 8)
            && |a.value| == |b.value| == 1 && FormLaws.PairsFit([a], 1, 1)
            && FormLaws.PairReplies([a]) == [Reply(true, "a", "1")]
            && FormLaws.PairReplies([b]) == [Reply(true, "b", "2")]
  {
    FormLaws.SmallPair('a', '1');
    FormLaws.SmallPair('b', '2');
  }

  lemma NoReplies(t: string)
    ensures FormLaws.Replies(t, 8, 8, 0) == []
  {}

  lemma OldBytes()
    ensures OldBuffer()[6..] == "b=2" + ([NUL] + Nuls(54))
  {
    assert SplitMarks("/page?b=2")[6..] == "b=2";
  }

  // ---------------------------------------------------------------- the callback

  /** A request that is let in and meets no page calls the callback once, if its path has a command. */
  lemma OneCall(build: Build, check: (nat, string) -> int, site: Site, q: Parsed)
    requires LegalSite(site) && q.urlLen <= |q.url| && q.code >= 0 && LetIn(build, check, q) && q.verb != NotSupported
    requires IsFree(site, q) && site.callback.Callback?
    ensures Outcome(build, check, site, q).calls ==
              if |CallOf(q).command| == 0 then []
              else
                var c := site.callback;
                [(CallOf(q), Params.Upcoming(q.ahead, c.nameSize, c.valueSize, c.params))]
  {
    hide PageAt, IsEvents, CallOf, Params.Upcoming, LetIn, CString, StatusLine, Concluded;
  }

  /** A request that reaches the callback: it is let in, its path has a command, and nothing else stands there. */
  ghost predicate IsCalled(build: Build, check: (nat, string) -> int, site: Site, r: RequestLaws.Request, q: Parsed,
                           before: string) {
    && Arrived(r, q, before) && LegalSite(site) && q.urlLen <= |q.url| && q.code >= 0
    && LetIn(build, check, q) && IsFree(site, q) && |CallOf(q).command| > 0 && site.callback.Callback?
  }

  /** Its one call reads what the parameters say. */
  lemma CalledOnce(build: Build, check: (nat, string) -> int, site: Site, r: RequestLaws.Request, q: Parsed,
                   before: string)
    requires IsCalled(build, check, site, r, q, before)
    ensures LegalSite(site) && site.callback.Callback? && q.urlLen <= |q.url| && q.code >= 0 && Arrived(r, q, before)
    ensures var c := site.callback;
            Outcome(build, check, site, q).calls
              == [(CallOf(q), Params.Upcoming(q.ahead, c.nameSize, c.valueSize, c.params))]
  {
    hide LegalRequest, ShowRequest, IsRequest, IsParsed, Outcome, LetIn, IsFree, CallOf, Params.Upcoming,
         SplitMarks, Recorded, FormText.Strip;
    Arrives(r, q, before);
    assert r.verb != NotSupported by { IsSupported(r); }
    OneCall(build, check, site, q);
  }

  lemma IsSupported(r: RequestLaws.Request)
    requires LegalRequest(r)
    ensures r.verb != NotSupported
  {}

  // ---------------------------------------------------------------- what a request carries

  /** Parameters, as they are printed. */
  datatype Content =
    | Form(pairs: seq<FormLaws.Pair>, amps: string)
    | Query(pairs: seq<FormLaws.Pair>)
    | Members(pre: string, inner: string, members: seq<JsonLaws.Member>, post: string)
    | Items(pre: string, inner: string, items: seq<JsonNested.Item>, post: string)
    | Elements(pre: string, inner: string, elements: seq<JsonLaws.Element>, post: string)
    | Parts(pre: string, inner: string, parts: seq<JsonParts.Part>, post: string)

  function Count(c: Content): nat {
    match c
    case Form(ps, _) => |ps|
    case Query(ps) => |ps|
    case Members(_, _, ms, _) => |ms|
    case Items(_, _, ts, _) => |ts|
    case Elements(_, _, es, _) => |es|
    case Parts(_, _, ps, _) => |ps|
  }

  predicate IsLegal(c: Content) {
    match c
    case Form(ps, amps) => FormLaws.LegalPairs(ps) && FormLaws.AllAmps(amps)
    case Query(ps) => FormLaws.LegalPairs(ps)
    case Members(pre, inner, ms, _) =>
      AllSpace(pre) && AllSpace(inner) && forall i | 0 <= i < |ms| :: JsonLaws.LegalMember(ms[i])
    case Items(pre, inner, ts, _) => AllSpace(pre) && AllSpace(inner) && JsonNested.LegalItems(ts)
    case Elements(pre, inner, es, post) =>
      && AllSpace(pre) && AllSpace(inner) && AllSpace(post)
      && forall i | 0 <= i < |es| :: JsonLaws.LegalElement(es[i])
    case Parts(pre, inner, ps, post) =>
      AllSpace(pre) && AllSpace(inner) && AllSpace(post) && JsonParts.LegalParts(ps)
  }

  /** The body, or for a query the target, is the printed content, and the content type goes with it. */
  predicate Carries(r: RequestLaws.Request, c: Content) {
    if c.Query? then r.verb == Get && QueryOf(UrlOf(r)) == FormLaws.ShowPairs(c.pairs)
    else if c.Form? then
      && r.verb != Get && ContentTypeOf(KeptOf(r.fields)) == XWWWFORM
      && FormText.Strip(r.body) == FormLaws.ShowPairs(c.pairs) + c.amps
    else
      && r.verb != Get && ContentTypeOf(KeptOf(r.fields)) != XWWWFORM
      && r.body == match c
                   case Members(pre, inner, ms, post) => JsonLaws.ShowObject(pre, inner, ms, post)
                   case Items(pre, inner, ts, post) => JsonNested.ShowItemObject(pre, inner, ts, post)
                   case Elements(pre, inner, es, post) => JsonLaws.ShowArray(pre, inner, es, post)
                   case Parts(pre, inner, ps, post) => JsonParts.ShowPartArray(pre, inner, ps, post)
  }

  /** An element number of three digits has room in the name buffer. */
  predicate Suits(c: Content, nameSize: nat, valueSize: nat) {
    c.Elements? || c.Parts? ==> 4 <= nameSize <= valueSize
  }

  /** What the calls should report: every parameter, cut to the buffers in JSON. */
  function Told(c: Content, nameSize: nat, valueSize: nat): seq<Reply>
    requires IsLegal(c) && nameSize >= 1 && valueSize >= 1
  {
    match c
    case Form(ps, _) => FormLaws.PairReplies(ps)
    case Query(ps) => FormLaws.PairReplies(ps)
    case Members(_, _, ms, _) => JsonLaws.MemberReplies(ms, nameSize, valueSize)
    case Items(_, _, ts, _) => JsonNested.ItemReplies(ts, nameSize, valueSize)
    case Elements(_, _, es, _) => JsonLaws.ElementReplies(es, 0, nameSize)
    case Parts(_, _, ps, _) => JsonParts.PartReplies(ps, 0, nameSize)
  }

  /** When they do; `after` is what an earlier request left behind the target in the URL buffer. */
  predicate ComesBack(c: Content, after: string, nameSize: nat, valueSize: nat) {
    match c
    case Form(ps, _) => FormLaws.PairsFit(ps, nameSize, valueSize) && FormLaws.IsSeparable(ps, valueSize)
    case Query(ps) =>
      FormLaws.PairsFit(ps, nameSize, valueSize) && FormLimits.EndsBehind(ps, after, nameSize, valueSize)
    case Items(_, _, ts, _) => JsonNested.OnlyLastIsNested(ts)
    case Parts(_, _, ps, _) => JsonParts.OnlyLastIsBracketed(ps)
    case _ => true
  }

  /** Whatever the request carries, the calls report it and then the end exactly when it comes back. */
  lemma ContentArrives(r: RequestLaws.Request, q: Parsed, before: string, c: Content, nameSize: nat, valueSize: nat)
    requires Arrived(r, q, before) && Carries(r, c) && IsLegal(c) && Suits(c, nameSize, valueSize)
    requires nameSize >= 1 && valueSize >= 1 && |UrlOf(r)| < |before|
    ensures Params.Upcoming(q.ahead, nameSize, valueSize, Count(c) + 1) == Told(c, nameSize, valueSize) + [NO_MORE]
       <==> ComesBack(c, before[|UrlOf(r)| + 1..], nameSize, valueSize)
  {
    hide Arrived, UrlOf, QueryOf, FormText.Strip, FormLaws.ShowPairs, FormLaws.LegalPairs, FormLaws.AllAmps,
         FormLaws.PairReplies, FormLaws.PairsFit, FormLaws.IsSeparable, FormLimits.EndsBehind, JsonLaws.ShowObject,
         JsonLaws.LegalMember, JsonLaws.MemberReplies, JsonNested.ShowItemObject, JsonNested.LegalItems,
         JsonNested.ItemReplies, JsonNested.OnlyLastIsNested, JsonLaws.ShowArray, JsonLaws.LegalElement,
         JsonLaws.ElementReplies, JsonParts.ShowPartArray, JsonParts.LegalParts, JsonParts.PartReplies,
         JsonParts.OnlyLastIsBracketed, KeptOf, ContentTypeOf, AllSpace, Params.Upcoming;
    match c
    case Form(ps, amps) => FormArrives(r, q, before, ps, amps, nameSize, valueSize);
    case Query(ps) => QueryEnds(r, q, before, ps, nameSize, valueSize);
    case Members(pre, inner, ms, post) => ObjectArrives(r, q, before, pre, inner, ms, post, nameSize, valueSize);
    case Items(pre, inner, ts, post) => NestedArrives(r, q, before, pre, inner, ts, post, nameSize, valueSize);
    case Elements(pre, inner, es, post) => ArrayArrives(r, q, before, pre, inner, es, post, nameSize, valueSize);
    case Parts(pre, inner, ps, post) => PartsArrive(r, q, before, pre, inner, ps, post, nameSize, valueSize);
  }

  /** So the callback sees what was printed, and then the end, exactly then. */
  lemma CallbackSeesContent(build: Build, check: (nat, string) -> int, site: Site, r: RequestLaws.Request,
                            q: Parsed, before: string, c: Content)
    requires IsCalled(build, check, site, r, q, before) && site.callback.params == Count(c) + 1
    requires Carries(r, c) && IsLegal(c) && Suits(c, site.callback.nameSize, site.callback.valueSize)
    ensures q.urlLen <= |q.url| && LegalSite(site) && q.code >= 0 && |UrlOf(r)| < |before|
    ensures Outcome(build, check, site, q).calls
              == [(CallOf(q), Told(c, site.callback.nameSize, site.callback.valueSize) + [NO_MORE])]
       <==> ComesBack(c, before[|UrlOf(r)| + 1..], site.callback.nameSize, site.callback.valueSize)
  {
    hide IsCalled, Arrived, CallOf, Params.Upcoming, UrlOf, Carries, IsLegal, Suits, Told, ComesBack, Count,
         Outcome, CString, PathOf, QueryOf;
    CalledOnce(build, check, site, r, q, before);
    UrlArrives(r, q, before);
    ContentArrives(r, q, before, c, site.callback.nameSize, site.callback.valueSize);
  }
}
