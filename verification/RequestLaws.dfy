/** A request that is printed and then parsed comes back, cut to the sizes of the buffers. */
module RequestLaws {
  import opened Text
  import opened Stream
  import opened RequestText

  // ---------------------------------------------------------------- printed headers

  /** A header line: a name, a colon, blanks, a value and an end of line. */
  datatype Field = Field(name: string, blanks: string, value: string, end: string)

  predicate LegalField(f: Field) {
    && 0 < |f.name| < NAME_SIZE - 1 && !IsSpace(f.name[0]) && (forall i | 0 <= i < |f.name| :: f.name[i] != ':')
    && AllBlank(f.blanks)
    && (forall i | 0 <= i < |f.value| :: !IsEol(f.value[i])) && (|f.value| > 0 ==> !IsBlank(f.value[0]))
    && IsLineEnd(f.end)
  }

  predicate LegalFields(fs: seq<Field>) {
    forall i | 0 <= i < |fs| :: LegalField(fs[i])
  }

  function ShowField(f: Field): string {
    f.name + ([':'] + (f.blanks + (f.value + f.end)))
  }

  function ShowFields(fs: seq<Field>): string {
    if |fs| == 0 then "" else ShowField(fs[0]) + ShowFields(fs[1..])
  }

  /** What the parser should keep of a field. */
  function Kept(f: Field): Header {
    Header(f.name, Cut(f.value, VALUE_SIZE - 1))
  }

  function KeptOf(fs: seq<Field>): seq<Header> {
    if |fs| == 0 then [] else [Kept(fs[0])] + KeptOf(fs[1..])
  }

  /** The input behind the end of the line above the fields. */
  function Block(fs: seq<Field>, blank: string, body: string): string {
    if |fs| == 0 then ['\n'] + body else ShowFields(fs) + (blank + body)
  }

  /** Whatever line comes before the fields, its end leads to them. */
  lemma AfterLine(end: string, fs: seq<Field>, blank: string, body: string)
    requires IsLineEnd(end) && IsLineEnd(blank) && LegalFields(fs)
    ensures AfterEol(end + (ShowFields(fs) + (blank + body))) == Block(fs, blank, body)
  {
    hide IsSpace;
    if |fs| == 0 {
      assert ShowFields(fs) + (blank + body) == blank + body;
      AfterBlankLine(end, blank, body);
    } else {
      assert LegalField(fs[0]);
      AfterLineEnd(end, ShowFields(fs) + (blank + body));
    }
  }

  /** A printed field up to its value, and the value up to its end. */
  lemma NameEnds(f: Field, rest: string)
    requires LegalField(f)
    ensures var s, t := ShowField(f) + rest, f.value + (f.end + rest);
            && Find(s, IsColon) == |f.name| < |s| && s[..|f.name|] == f.name && s[|f.name| + 1..] == f.blanks + t
  {
    hide Find;
    var s, t := ShowField(f) + rest, f.value + (f.end + rest);
    assert s == f.name + ([':'] + (f.blanks + t));
    FindAfter(f.name, [':'] + (f.blanks + t), IsColon);
  }

  lemma ValueEnds(f: Field, rest: string)
    requires LegalField(f)
    ensures var t := f.value + (f.end + rest);
            && SkipBlanks(f.blanks + t) == t && Find(t, IsEol) == |f.value| < |t|
            && t[..|f.value|] == f.value && t[|f.value|..] == f.end + rest
  {
    hide Find, SkipBlanks;
    var t := f.value + (f.end + rest);
    SkipBlanksDrops(f.blanks, t);
    FindAfter(f.value, f.end + rest, IsEol);
  }

  /** One printed field is read, with what follows it left. */
  lemma FieldIsRead(f: Field, rest: string)
    requires LegalField(f)
    ensures var s := ShowField(f) + rest;
            && IsHeader(s) && HeaderName(s) == f.name && HeaderValue(s) == Cut(f.value, VALUE_SIZE - 1)
            && AfterHeader(s) == AfterEol(f.end + rest)
  {
    hide Find, AfterEol, SkipBlanks, ShowField;
    NameEnds(f, rest);
    ValueEnds(f, rest);
    var t := f.value + (f.end + rest);
    assert t[..Min(|f.value|, VALUE_SIZE - 1)] == t[..|f.value|][..Min(|f.value|, VALUE_SIZE - 1)];
  }

  lemma {:induction false} BlockIsRead(fs: seq<Field>, blank: string, body: string)
    requires LegalFields(fs) && IsLineEnd(blank)
    ensures var s := Block(fs, blank, body);
            IsHeaderBlock(s) && Headers(s) == KeptOf(fs) && AfterHeaders(s) == ['\n'] + body
  {
    hide IsHeader, HeaderName, HeaderValue, AfterHeader;
    if |fs| > 0 {
      var f, rest := fs[0], ShowFields(fs[1..]) + (blank + body);
      assert LegalField(f);
      assert Block(fs, blank, body) == ShowField(f) + rest;
      FieldIsRead(f, rest);
      AfterLine(f.end, fs[1..], blank, body);
      BlockIsRead(fs[1..], blank, body);
    }
  }

  // ---------------------------------------------------------------- printed requests

  /** The parts of a request; the blanks stand before and behind the method and behind the target. */
  datatype Request = Request(lead: string, verb: Verb, gap: string, target: string, space: string,
                             version: string, end: string, fields: seq<Field>, blank: string, body: string)

  function VerbName(v: Verb): string {
    match v
    case Get => GET
    case Post => POST
    case Put => PUT
    case Delete => DELETE
    case Patch => PATCH
    case NotSupported => ""
  }

  predicate LegalRequest(r: Request) {
    && AllBlank(r.lead) && r.verb != NotSupported
    && |r.gap| > 0 && AllBlank(r.gap) && |r.space| > 0 && AllBlank(r.space)
    && |r.target| > 0 && (forall i | 0 <= i < |r.target| :: !IsBlank(r.target[i]))
    && |r.version| <= 8 && (forall i | 0 <= i < |r.version| :: !IsSpace(r.version[i]))
    && IsLineEnd(r.end) && LegalFields(r.fields) && IsLineEnd(r.blank)
  }

  function ShowHead(r: Request): string {
    ShowFields(r.fields) + (r.blank + r.body)
  }

  function ShowRequest(r: Request): string {
    r.lead + (VerbName(r.verb) + (r.gap + (r.target + (r.space + (r.version + (r.end + ShowHead(r)))))))
  }

  /** Exactly the five words, in capitals. */
  lemma VerbsAre(w: string)
    ensures VerbName(Get) == "GET" && VerbName(Post) == "POST" && VerbName(Put) == "PUT"
    ensures VerbName(Delete) == "DELETE" && VerbName(Patch) == "PATCH"
    ensures VerbOf(w) != NotSupported <==> w in {"GET", "POST", "PUT", "DELETE", "PATCH"}
    ensures VerbOf(w) != NotSupported ==> VerbName(VerbOf(w)) == w
  {}

  lemma SameStart(n: nat)
    requires n <= 7
    ensures "HTTP/1.1"[..n] == "HTTP/1.0"[..n]
  {
    var w := "HTTP/1.";
    assert "HTTP/1.1" == w + "1" && "HTTP/1.0" == w + "0";
    assert (w + "1")[..n] == w[..n] == (w + "0")[..n];
  }

  lemma PrefixIsSlice(w: string, s: string)
    ensures w <= s <==> |w| <= |s| && w == s[..|w|]
  {}

  /** The whole text of a version, and for the first one also every beginning of it, the empty one too. */
  lemma VersionsAre(w: string)
    ensures VersionOf(w) == V1_1 <==> w == "HTTP/1.1"
    ensures VersionOf(w) == V1_0 <==> |w| <= 8 && w == "HTTP/1.0"[..|w|]
  {
    PrefixIsSlice(w, "HTTP/1.0");
    PrefixIsSlice(w, "HTTP/1.1");
    if |w| <= 7 {
      SameStart(|w|);
    } else if |w| == 8 {
      assert "HTTP/1.0"[..8] == "HTTP/1.0" && "HTTP/1.1"[..8] == "HTTP/1.1" && "HTTP/1.0"[7] != "HTTP/1.1"[7];
    }
  }

  lemma VerbNames(v: Verb)
    requires v != NotSupported
    ensures var w := VerbName(v);
            VerbOf(w) == v && 0 < |w| < 9 && forall i | 0 <= i < |w| :: !IsBlank(w[i])
  {}

  lemma MethodIsFound(r: Request)
    requires LegalRequest(r)
    ensures var s := SkipBlanks(ShowRequest(r));
            && |s| > 0 && MethodWord(s) == VerbName(r.verb)
            && AtTarget(ShowRequest(r)) == r.target + (r.space + (r.version + (r.end + ShowHead(r))))
  {
    hide Find, SkipBlanks, ShowHead;
    var w, t := VerbName(r.verb), r.target + (r.space + (r.version + (r.end + ShowHead(r))));
    VerbNames(r.verb);
    SkipBlanksDrops(r.lead, w + (r.gap + t));
    FindAfter(w, r.gap + t, IsBlank);
    assert (w + (r.gap + t))[..|w|] == w;
    assert (w + (r.gap + t))[|w| + 1..] == r.gap[1..] + t;
    SkipBlanksDrops(r.gap[1..], t);
  }

  lemma TargetIsFound(r: Request)
    requires LegalRequest(r)
    ensures var t := AtTarget(ShowRequest(r));
            && Find(t, IsBlank) < |t| && Target(t) == Cut(r.target, URL_SIZE - 1)
            && AtVersion(ShowRequest(r)) == r.version + (r.end + ShowHead(r))
  {
    hide Find, SkipBlanks, ShowHead, AtTarget;
    var v := r.version + (r.end + ShowHead(r));
    MethodIsFound(r);
    FindAfter(r.target, r.space + v, IsBlank);
    assert (r.target + (r.space + v))[|r.target|..] == r.space + v;
    assert !IsBlank(v[0]);
    SkipBlanksDrops(r.space, v);
  }

  /**
   The parser recovers the method, the target as far as it fits its buffer, the version, every
   header with its value cut at 63 characters, and leaves the newline of the empty line and the body.
   */
  lemma RequestRoundTrip(r: Request)
    requires LegalRequest(r)
    ensures var s := ShowRequest(r);
            && IsRequest(s) && VerbAt(s) == r.verb
            && Target(AtTarget(s)) == Cut(r.target, URL_SIZE - 1) && VersionText(s) == r.version
            && Headers(AtHeaders(s)) == KeptOf(r.fields) && AfterHeaders(AtHeaders(s)) == ['\n'] + r.body
  {
    hide Find, SkipBlanks, ShowRequest, AtTarget, AtVersion, MethodWord, Target, IsHeaderBlock, Block, AfterEol;
    MethodIsFound(r);
    VerbNames(r.verb);
    TargetIsFound(r);
    FindAfter(r.version, r.end + ShowHead(r), IsSpace);
    assert (r.version + (r.end + ShowHead(r)))[|r.version|..] == r.end + ShowHead(r);
    AfterLine(r.end, r.fields, r.blank, r.body);
    BlockIsRead(r.fields, r.blank, r.body);
  }

  // ---------------------------------------------------------------- the split at the question mark

  predicate IsMark(c: char) {
    c == '?'
  }

  /** The path of a target ends at its first question mark. */
  function PathOf(u: string): string {
    u[..Find(u, IsMark)]
  }

  /** Its parameters start behind the last one. */
  function QueryOf(u: string): string {
    if ParamsAt(u) < 0 then "" else u[ParamsAt(u)..]
  }

  lemma PathIsStored(u: string, more: string)
    requires IsText(u) && (|more| == 0 || more[0] == NUL)
    ensures CString(SplitMarks(u) + more) == PathOf(u) && '?' !in PathOf(u)
  {
    hide CString, IsText, Find;
    var b, k := SplitMarks(u) + more, Find(u, IsMark);
    FindStops(u, IsMark);
    TextIsCut(u, k);
    assert Cut(u, k) == PathOf(u) == b[..k];
    if k < |b| {
      assert b == PathOf(u) + [NUL] + b[k + 1..];
      CStringEnds(PathOf(u), b[k + 1..]);
    } else {
      assert b == PathOf(u);
      TextIsString(PathOf(u));
    }
  }

  lemma QueryIsStored(u: string, after: string)
    requires IsText(u) && ParamsAt(u) > 0
    ensures var b := SplitMarks(u) + [NUL] + after;
            b[ParamsAt(u)..] == QueryOf(u) + ([NUL] + after) && CString(b[ParamsAt(u)..]) == QueryOf(u)
  {
    hide CString, IsText, ParamsAt;
    var b, n := SplitMarks(u) + [NUL] + after, ParamsAt(u);
    NoMarkBehind(u);
    assert SplitMarks(u)[n..] == QueryOf(u);
    assert b[n..] == SplitMarks(u)[n..] + ([NUL] + after) == QueryOf(u) + [NUL] + after;
    TextEnds(u, n);
    CStringEnds(QueryOf(u), after);
  }

  /** The two strings that the URL buffer holds of any target: its path and its parameters. */
  lemma TargetSplits(u: string, after: string)
    requires IsText(u)
    ensures var b := SplitMarks(u) + [NUL] + after;
            && CString(b) == PathOf(u) && CString(b[..|u|]) == PathOf(u)
            && (ParamsAt(u) > 0 <==> '?' in u)
            && ('?' in u ==>
                  b[ParamsAt(u)..] == QueryOf(u) + ([NUL] + after) && CString(b[ParamsAt(u)..]) == QueryOf(u))
    ensures '?' !in PathOf(u) && '?' !in QueryOf(u)
  {
    hide CString, IsText, ParamsAt, PathOf, SplitMarks;
    var b := SplitMarks(u) + [NUL] + after;
    NoMarkBehind(u);
    assert b == SplitMarks(u) + ([NUL] + after) && b[..|u|] == SplitMarks(u) + "";
    PathIsStored(u, [NUL] + after);
    PathIsStored(u, "");
    if ParamsAt(u) > 0 {
      QueryIsStored(u, after);
    }
  }

  lemma TextEnds(u: string, n: nat)
    requires IsText(u) && n <= |u|
    ensures IsText(u[n..])
  {}

  /** The last question mark is the last one. */
  lemma {:induction false} NoMarkBehind(u: string)
    ensures if ParamsAt(u) < 0 then '?' !in u else ParamsAt(u) > 0 && u[ParamsAt(u) - 1] == '?' && '?' !in QueryOf(u)
  {
    if |u| > 0 {
      var v := u[..|u| - 1];
      NoMarkBehind(v);
      assert u == v + [u[|u| - 1]];
      if u[|u| - 1] != '?' && ParamsAt(v) > 0 {
        assert QueryOf(u) == QueryOf(v) + [u[|u| - 1]];
      }
    }
  }

  /** So any target falls into these parts, of which everything between two question marks is lost. */
  lemma PartsOfTarget(path: string, lost: string, query: string)
    requires '?' !in path && '?' !in query && (|lost| > 0 ==> lost[|lost| - 1] == '?')
    ensures PathOf(path) == path && QueryOf(path) == ""
    ensures var u := path + (['?'] + (lost + query)); PathOf(u) == path && QueryOf(u) == query
  {
    hide Find, ParamsAt;
    var u := path + (['?'] + (lost + query));
    NoMark(path);
    FindIs(path, IsMark, |path|);
    FindAfter(path, ['?'] + (lost + query), IsMark);
    if |lost| == 0 {
      assert lost + query == query;
      LastMark(path, query);
    } else {
      var front := path + (['?'] + lost[..|lost| - 1]);
      assert u == front + (['?'] + query);
      LastMark(front, query);
    }
  }

  /** A target that is too long is cut before it is split. */
  lemma PathIsCut(t: string, n: nat)
    ensures PathOf(Cut(t, n)) == Cut(PathOf(t), n)
  {
    FindStops(t, IsMark);
    FindIs(Cut(t, n), IsMark, Min(Find(t, IsMark), Min(|t|, n)));
  }

  lemma TextIsCut(s: string, n: nat)
    requires IsText(s)
    ensures IsText(Cut(s, n))
  {}

  lemma {:induction false} LastMark(path: string, q: string)
    requires '?' !in q
    ensures ParamsAt(path + (['?'] + q)) == |path| + 1
  {
    var u := path + (['?'] + q);
    if |q| > 0 {
      assert u[..|u| - 1] == path + (['?'] + q[..|q| - 1]);
      LastMark(path, q[..|q| - 1]);
    }
  }

  /** Without a question mark there are no parameters. */
  lemma {:induction false} NoMark(u: string)
    requires '?' !in u
    ensures ParamsAt(u) == -1 && SplitMarks(u) == u
  {
    if |u| > 0 {
      NoMark(u[..|u| - 1]);
    }
  }
}
