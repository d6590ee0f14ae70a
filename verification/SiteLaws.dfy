/** Which page any URL gets, and the literal lines of the answers, told without what finds and prints them. */
module SiteLaws {
  import opened Text
  import opened HeaderEffects
  import opened Response

  // ---------------------------------------------------------------- pages

  /** A character of a string, or -1 behind its end. */
  function CharAt(a: string, i: nat): int {
    if i < |a| then a[i] as int else -1
  }

  /** Two strings agree on their first 32 characters, or up to an end that they share. */
  predicate Agree(a: string, b: string) {
    forall i | 0 <= i < 32 :: CharAt(a, i) == CharAt(b, i)
  }

  predicate IsFor(slot: Slot, url: string) {
    slot.Full? && Agree(url, slot.page.url)
  }

  /** The default page is for the URL / alone, and for its own. */
  predicate IsDefaultFor(site: Site, url: string, urlLen: nat) {
    site.defaultPage.Full? && ((url == "/" && urlLen == 1) || IsFor(site.defaultPage, url))
  }

  /** No page is for the URL. */
  ghost predicate NothingStands(site: Site, url: string, urlLen: nat) {
    !IsDefaultFor(site, url, urlLen) && forall k | 0 <= k < |site.pages| :: !IsFor(site.pages[k], url)
  }

  /** The page is the default page if that is for the URL, and else the first in the list that is. */
  ghost predicate StandsAt(site: Site, page: Page, url: string, urlLen: nat) {
    if IsDefaultFor(site, url, urlLen) then site.defaultPage == Full(page)
    else
      exists k :: 0 <= k < |site.pages| && site.pages[k] == Full(page) && IsFor(site.pages[k], url)
                  && forall j | 0 <= j < k :: !IsFor(site.pages[j], url)
  }

  lemma CutsAgree(a: string, b: string)
    ensures Cut(a, 32) == Cut(b, 32) <==> Agree(a, b)
  {
    if Agree(a, b) {
      SameLength(a, b);
      forall i | 0 <= i < |Cut(a, 32)| ensures Cut(a, 32)[i] == Cut(b, 32)[i] {
        assert CharAt(a, i) == CharAt(b, i);
      }
    }
    if Cut(a, 32) == Cut(b, 32) {
      forall i | 0 <= i < 32 ensures CharAt(a, i) == CharAt(b, i) {
        CutKeeps(a, i);
        CutKeeps(b, i);
      }
    }
  }

  lemma CutKeeps(a: string, i: nat)
    requires i < 32
    ensures CharAt(Cut(a, 32), i) == CharAt(a, i)
  {}

  lemma SameLength(a: string, b: string)
    requires Agree(a, b)
    ensures Min(|a|, 32) == Min(|b|, 32)
  {
    if |a| < 32 {
      assert CharAt(a, |a|) == CharAt(b, |a|);
    }
    if |b| < 32 {
      assert CharAt(a, |b|) == CharAt(b, |b|);
    }
  }

  lemma SlotIsFor(slot: Slot, url: string)
    ensures IsAt(slot, url) <==> IsFor(slot, url)
  {
    if slot.Full? {
      CutsAgree(url, slot.page.url);
    }
  }

  lemma {:induction false} FirstIsFirst(pages: seq<Slot>, url: string)
    ensures var s := FirstAt(pages, url);
            if s == Empty then forall k | 0 <= k < |pages| :: !IsFor(pages[k], url)
            else exists k :: 0 <= k < |pages| && pages[k] == s && IsFor(pages[k], url)
                             && forall j | 0 <= j < k :: !IsFor(pages[j], url)
  {
    hide IsAt, IsFor;
    if |pages| > 0 {
      SlotIsFor(pages[0], url);
      if IsAt(pages[0], url) {
        NotEmpty(pages[0], url);
        assert IsFor(pages[0], url);
      } else {
        FirstIsFirst(pages[1..], url);
        var s := FirstAt(pages[1..], url);
        if s == Empty {
          forall k | 0 <= k < |pages| ensures !IsFor(pages[k], url) {
            assert k > 0 ==> pages[k] == pages[1..][k - 1];
          }
        } else {
          var k :| 0 <= k < |pages[1..]| && pages[1..][k] == s && IsFor(pages[1..][k], url)
                   && forall j | 0 <= j < k :: !IsFor(pages[1..][j], url);
          assert pages[k + 1] == s && IsFor(pages[k + 1], url);
          forall j | 0 <= j < k + 1 ensures !IsFor(pages[j], url) {
            assert j > 0 ==> pages[j] == pages[1..][j - 1];
          }
        }
      }
    }
  }

  lemma NotEmpty(slot: Slot, url: string)
    requires IsAt(slot, url)
    ensures slot != Empty
  {}

  /** The page that is found stands at the URL, and none is found exactly when none does. */
  lemma PageIsFound(site: Site, page: Page, url: string, urlLen: nat)
    ensures PageAt(site, url, urlLen) == Full(page) <==> StandsAt(site, page, url, urlLen)
    ensures PageAt(site, url, urlLen) == Empty <==> NothingStands(site, url, urlLen)
  {
    hide IsAt, IsFor;
    SlotIsFor(site.defaultPage, url);
    FirstIsFirst(site.pages, url);
    if !IsDefaultFor(site, url, urlLen) && StandsAt(site, page, url, urlLen) {
      var k :| 0 <= k < |site.pages| && site.pages[k] == Full(page) && IsFor(site.pages[k], url)
               && forall j | 0 <= j < k :: !IsFor(site.pages[j], url);
    }
  }

  /** The default page stands at the URL /. */
  lemma DefaultStandsAtRoot(site: Site, page: Page)
    requires site.defaultPage == Full(page)
    ensures StandsAt(site, page, "/", 1)
  {}

  /** A listed page stands at its own URL, unless the default page or an earlier one is for that. */
  lemma ListedStandsAtItsUrl(site: Site, k: nat, urlLen: nat)
    requires k < |site.pages| && site.pages[k].Full? && !IsDefaultFor(site, site.pages[k].page.url, urlLen)
    requires forall j | 0 <= j < k :: !IsFor(site.pages[j], site.pages[k].page.url)
    ensures StandsAt(site, site.pages[k].page, site.pages[k].page.url, urlLen)
  {
    assert Agree(site.pages[k].page.url, site.pages[k].page.url);
    assert IsFor(site.pages[k], site.pages[k].page.url);
  }

  // ---------------------------------------------------------------- literal lines

  lemma ReasonsAre(code: int)
    ensures HasReason(code) <==> code in {200, 202, 400, 401, 404, 501}
    ensures Reported(code) == if code in {200, 202, 400, 401, 404, 501} then code else 500
  {}

  lemma TensAre()
    ensures Decimal(20) == "20" && Decimal(40) == "40" && Decimal(50) == "50"
  {
    assert Decimal(2) == "2" && Decimal(4) == "4" && Decimal(5) == "5";
  }

  lemma NumbersAre()
    ensures Decimal(200) == "200" && Decimal(202) == "202" && Decimal(400) == "400" && Decimal(401) == "401"
    ensures Decimal(404) == "404" && Decimal(500) == "500" && Decimal(501) == "501"
  {
    TensAre();
    LastDigit(200);
    LastDigit(202);
    LastDigit(400);
    LastDigit(401);
    LastDigit(404);
    LastDigit(500);
    LastDigit(501);
    hide Decimal;
  }

  lemma LastDigit(n: nat)
    requires n >= 10
    ensures Decimal(n) == Decimal(n / 10) + ["0123456789"[n % 10]]
  {}

  lemma GoodLines()
    ensures StatusLine(OK) == "HTTP/1.0 200 OK\r\n"
    ensures StatusLine(202) == "HTTP/1.0 202 Accepted\r\n"
  {
    NumbersAre();
    hide Decimal;
  }

  lemma ClientLines()
    ensures StatusLine(400) == "HTTP/1.0 400 Bad Request\r\n"
    ensures StatusLine(UNAUTHORIZED) == "HTTP/1.0 401 Unauthorized\r\n"
    ensures StatusLine(NOT_FOUND) == "HTTP/1.0 404 Not Found\r\n"
  {
    NumbersAre();
    hide Decimal;
  }

  lemma ServerLines()
    ensures StatusLine(INTERNAL_ERROR) == "HTTP/1.0 500 Internal Error\r\n"
    ensures StatusLine(UNSUPPORTED) == "HTTP/1.0 501 Not Implemented\r\n"
  {
    NumbersAre();
    hide Decimal;
  }

  /** What is printed and returned for the code of a callback. */
  lemma CallbackCodesAre(build: Build, code: int)
    ensures var a := Concluded(build, code);
            && a.calls == []
            && (code == 510 ==> a.code == 200 && a.sent == "HTTP/1.0 200 OK\r\n")
            && (code == 1 ==> a.code == 1 && a.sent == "HTTP/1.0 200 OK\r\n")
            && (code == 401 ==> a.code == 401 && a.sent == Refusal(build).sent)
            && (code in {200, 202, 400, 404, 501} ==> a.code == code && a.sent == StatusLine(code))
            && (code !in {1, 200, 202, 400, 401, 404, 501, 510} ==>
                  a.code == 500 && a.sent == "HTTP/1.0 500 Internal Error\r\n")
  {
    GoodLines();
    ServerLines();
    ReasonsAre(code);
    hide StatusLine, HasReason;
  }

  lemma EventHeadersAre()
    ensures EventHeaders() == "Content-Type: text/event-stream\r\n" + ("Cache-Control: no-cache\r\n" + "\r\n")
  {
    assert TYPE_FIELD + MimeType(EVENT_STREAM) + EOL == "Content-Type: text/event-stream\r\n";
    assert NO_CACHE_FIELD + EOL == "Cache-Control: no-cache\r\n";
  }

  /** Everything that the head of an event stream is. */
  lemma EventText()
    ensures Events().sent == "HTTP/1.0 200 OK\r\n"
                           + ("Content-Type: text/event-stream\r\n" + ("Cache-Control: no-cache\r\n" + "\r\n"))
    ensures Events().code == 1
  {
    GoodLines();
    EventHeadersAre();
    hide StatusLine, EventHeaders;
  }

  lemma BasicChallenge()
    ensures Challenge(BasicAuth) == "WWW-Authenticate: Basic realm=\"attoHTTP Server\"" + "\r\n"
  {
    assert BASIC_FIELD + REALM + "\"" == "WWW-Authenticate: Basic realm=\"attoHTTP Server\"";
  }

  lemma DigestChallenge()
    ensures Challenge(DigestAuth)
         == "WWW-Authenticate: Digest realm=\"" + "attoHTTP Server" + "\",qop=\"auth,auth-int\",nonce=\""
          + "attoHTTP Server" + "\",opaque=\"" + "attoHTTP Server" + "\"" + "\r\n"
  {}

  lemma TypeLine()
    ensures ContentType(1) == "Content-Type: " + "text/html" + "; charset=utf-8" + "\r\n"
  {}

  lemma LengthLine()
    ensures ContentLength(5) == "Content-Length: 5\r\n" && ContentLength(0) == "" && Encoding(false) == ""
  {
    assert Decimal(5) == "5";
  }

  /** The whole 401 message. */
  lemma RefusalIs(build: Build)
    ensures Refusal(build).code == 401
    ensures Refusal(build).sent
         == "HTTP/1.0 401 Unauthorized\r\n"
          + (Challenge(build) + "\r\n"
             + ("<!DOCTYPE html><html><head><title>Invalid Request</title></head>"
                + "<body><h1>Invalid Request</h1></body></html>"))
  {
    ClientLines();
    hide StatusLine, Challenge;
  }

  /** The headers of a page of five bytes of HTML. */
  lemma HeadersAre(url: string)
    ensures PageHeaders(Page(url, "hello", 1), false)
         == ("Content-Type: " + "text/html" + "; charset=utf-8" + "\r\n") + ("Content-Length: 5\r\n" + "\r\n")
  {
    TypeLine();
    LengthLine();
    hide ContentType, ContentLength, Encoding;
  }
}
