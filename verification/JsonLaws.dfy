/**
 What the JSON parser is for: the calls give back the members of a flat object, or the
 elements of a flat array, in order, and then report the end.
 */
module JsonLaws {
  import opened Text
  import opened JsonParam

  // ---------------------------------------------------------------- successive calls

  function ReplyOf(s: Scan, nameLen: nat, valueLen: nat): Reply
    requires nameLen >= 1
  {
    if IsElement(s) then Reply(true, Cut(Decimal(s.levels.counter), nameLen - 1), Cut(s.name, valueLen))
    else Reply(s.inValue, s.name, s.value)
  }

  /** The replies to `n` calls in a row. */
  function Replies(l: Levels, text: string, nameLen: nat, valueLen: nat, n: nat): (r: seq<Reply>)
    requires nameLen >= 1
    ensures |r| == n
    decreases n
  {
    if n == 0 then [] else
    var (scan, rest) := Run(Begin(l), text, nameLen, valueLen);
    [ReplyOf(scan, nameLen, valueLen)] + Replies(LevelsAfter(scan), rest, nameLen, valueLen, n - 1)
  }

  lemma {:induction false} FewerReplies(l: Levels, text: string, nameLen: nat, valueLen: nat, n: nat, m: nat)
    requires nameLen >= 1 && n <= m
    ensures Replies(l, text, nameLen, valueLen, n) == Replies(l, text, nameLen, valueLen, m)[..n]
    decreases n
  {
    hide Run, ReplyOf, LevelsAfter;
    if n > 0 {
      var (scan, rest) := Run(Begin(l), text, nameLen, valueLen);
      FewerReplies(LevelsAfter(scan), rest, nameLen, valueLen, n - 1, m - 1);
    }
  }

  lemma {:induction false} DecimalIsText(n: nat)
    ensures IsText(Decimal(n))
  {
    if n >= 10 {
      DecimalIsText(n / 10);
    }
  }

  lemma {:induction false} RunStoresText(s: Scan, text: string, nameLen: nat, valueLen: nat)
    requires IsText(s.name) && IsText(s.value) && IsText(text)
    ensures var (t, rest) := Run(s, text, nameLen, valueLen); IsText(t.name) && IsText(t.value)
    decreases |text|
  {
    if |text| > 0 {
      hide Nest, Inc, Dec, IsSpace;
      var next := Step(s, text[0], nameLen, valueLen);
      assert IsText(next.scan.name) && IsText(next.scan.value) by { StepStoresText(s, text[0], nameLen, valueLen); }
      if next.Go? {
        RunStoresText(next.scan, text[1..], nameLen, valueLen);
      }
    }
  }

  lemma StepStoresText(s: Scan, c: char, nameLen: nat, valueLen: nat)
    requires IsText(s.name) && IsText(s.value) && NUL < c < 256 as char
    ensures var t := Step(s, c, nameLen, valueLen).scan; IsText(t.name) && IsText(t.value)
  {
    hide Nest, Inc, Dec, IsSpace;
  }

  /** The name buffer holds the name of the reply, and ends inside its size. */
  lemma NameHoldsReply(buffer: string, s: Scan, nameLen: nat, valueLen: nat)
    requires |s.name| < nameLen <= |buffer| && IsText(s.name)
    ensures CString(NameAfter(buffer, s, nameLen)) == ReplyOf(s, nameLen, valueLen).name
    ensures NUL in NameAfter(buffer, s, nameLen)[..nameLen]
  {
    OverHolds(buffer, s.name, nameLen);
    if IsElement(s) {
      DecimalIsText(s.levels.counter);
      OverHolds(Over(buffer, s.name), Cut(Decimal(s.levels.counter), nameLen - 1), nameLen);
    }
  }

  /**
   The value buffer ends inside its size exactly when the value is not that of an element too
   long for it, which a name buffer that is no larger rules out; then it holds the value of the reply.
   */
  lemma ValueHoldsReply(buffer: string, s: Scan, nameLen: nat, valueLen: nat)
    requires nameLen >= 1 && |s.value| < valueLen <= |buffer| && IsText(s.name) && IsText(s.value)
    ensures NUL in ValueAfter(buffer, s, valueLen)[..valueLen] <==> !IsElement(s) || |s.name| < valueLen
    ensures !IsElement(s) || |s.name| < valueLen ==>
              CString(ValueAfter(buffer, s, valueLen)) == ReplyOf(s, nameLen, valueLen).value
  {
    OverHolds(buffer, s.value, valueLen);
    if IsElement(s) {
      CopiedHolds(Over(buffer, s.value), s.name, valueLen);
    }
  }

  lemma CopiedHolds(buffer: string, w: string, size: nat)
    requires size <= |buffer| && IsText(w)
    ensures NUL in Copied(buffer, w, size)[..size] <==> |w| < size
    ensures |w| < size ==> CString(Copied(buffer, w, size)) == w
  {
    var b := Copied(buffer, w, size);
    if |w| < size {
      var rest := Zeros(size - |w| - 1) + buffer[size..];
      assert Zeros(size - |w|) == [NUL] + Zeros(size - |w| - 1);
      assert b == w + [NUL] + rest;
      CStringEnds(w, rest);
      assert b[..size][|w|] == NUL;
    } else {
      assert b[..size] == w[..size];
    }
  }

  lemma OverHolds(buffer: string, w: string, size: nat)
    requires |w| < size <= |buffer| && IsText(w)
    ensures CString(Over(buffer, w)) == w && NUL in Over(buffer, w)[..size]
  {
    CStringEnds(w, buffer[|w| + 1..]);
    assert Over(buffer, w)[..size][|w|] == NUL;
  }

  /** A call takes characters from the front of the input only. */
  lemma {:induction false} RunTakesPrefix(s: Scan, text: string, nameLen: nat, valueLen: nat)
    ensures var rest := Run(s, text, nameLen, valueLen).1; rest == text[|text| - |rest|..]
    decreases |text|
  {
    hide Step;
    if |text| > 0 && Step(s, text[0], nameLen, valueLen).Go? {
      RunTakesPrefix(Step(s, text[0], nameLen, valueLen).scan, text[1..], nameLen, valueLen);
    }
  }

  // ---------------------------------------------------------------- printed tokens

  /** A string in either kind of quotes, or a word without any. */
  datatype Token = Bare(text: string) | Single(text: string) | Double(text: string)

  predicate IsBracket(c: char) {
    c == '{' || c == '}' || c == '[' || c == ']'
  }

  /** Commas and brackets act inside quotes too; the other limits are those of the token's own quotes. */
  predicate LegalChar(t: Token, c: char, inObject: bool) {
    && c != ',' && !IsBracket(c)
    && (t.Single? ==> c != '\'')
    && (t.Double? ==> c != '"')
    && (t.Bare? ==> c != '\'' && c != '"' && !IsSpace(c) && (inObject ==> c != ':'))
  }

  predicate Legal(t: Token, inObject: bool) {
    forall i | 0 <= i < |t.text| :: LegalChar(t, t.text[i], inObject)
  }

  function Show(t: Token): string {
    match t
    case Bare(text) => text
    case Single(text) => "'" + text + "'"
    case Double(text) => "\"" + text + "\""
  }

  /** Storing a whole text. */
  function StoreAll(s: Scan, w: string, nameLen: nat, valueLen: nat): Scan
    requires nameLen >= 1 && valueLen >= 1
  {
    if s.inValue then s.(value := Cut(s.value + w, valueLen - 1)) else s.(name := Cut(s.name + w, nameLen - 1))
  }

  lemma StoreAllStep(s: Scan, w: string, nameLen: nat, valueLen: nat)
    requires |w| > 0 && |s.name| < nameLen && |s.value| < valueLen
    ensures StoreAll(s, w, nameLen, valueLen)
         == StoreAll(Store(s, w[0], nameLen, valueLen), w[1..], nameLen, valueLen)
  {
    assert s.name + w == s.name + [w[0]] + w[1..];
    assert s.value + w == s.value + [w[0]] + w[1..];
  }

  /** The levels inside the outermost bracket. */
  predicate AtTop(l: Levels) {
    (l.curly == 1 && l.square == 0 && l.base == '{') || (l.curly == 0 && l.square == 1 && l.base == '[')
  }

  /** The quote flags inside a token. */
  predicate Inside(s: Scan, t: Token) {
    s.single == t.Single? && s.double == t.Double?
  }

  lemma LegalCharIsStored(s: Scan, t: Token, c: char, nameLen: nat, valueLen: nat)
    requires AtTop(s.levels) && Inside(s, t) && LegalChar(t, c, s.levels.curly == 1)
    ensures Step(s, c, nameLen, valueLen) == Go(Store(s, c, nameLen, valueLen))
  {}

  /** With room in both buffers no other character is stored and nothing else. */
  lemma OnlyLegalCharsAreStored(s: Scan, t: Token, c: char, nameLen: nat, valueLen: nat)
    requires AtTop(s.levels) && Inside(s, t) && |s.name| + 1 < nameLen && |s.value| + 1 < valueLen
    ensures Step(s, c, nameLen, valueLen) == Go(Store(s, c, nameLen, valueLen))
       <==> LegalChar(t, c, s.levels.curly == 1)
  {
    StoreIsSeen(s, c, nameLen, valueLen);
  }

  lemma StoreIsSeen(s: Scan, c: char, nameLen: nat, valueLen: nat)
    requires |s.name| + 1 < nameLen && |s.value| + 1 < valueLen
    ensures var r := Store(s, c, nameLen, valueLen); |r.name| + |r.value| == |s.name| + |s.value| + 1
  {}

  lemma {:induction false} RunText(s: Scan, t: Token, w: string, rest: string, nameLen: nat, valueLen: nat)
    requires AtTop(s.levels) && Inside(s, t) && |s.name| < nameLen && |s.value| < valueLen
    requires forall i | 0 <= i < |w| :: LegalChar(t, w[i], s.levels.curly == 1)
    ensures Run(s, w + rest, nameLen, valueLen) == Run(StoreAll(s, w, nameLen, valueLen), rest, nameLen, valueLen)
    decreases |w|
  {
    hide LegalChar, Step;
    if |w| == 0 {
      assert w + rest == rest && s.name + w == s.name && s.value + w == s.value;
    } else {
      LegalCharIsStored(s, t, w[0], nameLen, valueLen);
      assert (w + rest)[1..] == w[1..] + rest;
      StoreAllStep(s, w, nameLen, valueLen);
      RunText(Store(s, w[0], nameLen, valueLen), t, w[1..], rest, nameLen, valueLen);
    }
  }

  /** One step of a run that goes on. */
  lemma RunStep(s: Scan, c: char, rest: string, nameLen: nat, valueLen: nat)
    ensures var next := Step(s, c, nameLen, valueLen);
            Run(s, [c] + rest, nameLen, valueLen)
              == if next.Go? then Run(next.scan, rest, nameLen, valueLen)
                 else (next.scan, if next.Stop? then rest else [c] + rest)
  {
    hide Step;
    assert ([c] + rest)[1..] == rest;
  }

  predicate Quiet(s: Scan) {
    !s.single && !s.double
  }

  lemma SpaceIsSkipped(s: Scan, c: char, nameLen: nat, valueLen: nat)
    requires Quiet(s) && s.levels.curly + s.levels.square <= 1 && IsSpace(c)
    ensures Step(s, c, nameLen, valueLen) == Go(s)
  {
    hide StepBracket;
  }

  lemma {:induction false} RunSpaces(s: Scan, w: string, rest: string, nameLen: nat, valueLen: nat)
    requires Quiet(s) && s.levels.curly + s.levels.square <= 1 && AllSpace(w)
    ensures Run(s, w + rest, nameLen, valueLen) == Run(s, rest, nameLen, valueLen)
    decreases |w|
  {
    hide Step;
    if |w| == 0 {
      assert w + rest == rest;
    } else {
      assert w + rest == [w[0]] + (w[1..] + rest);
      RunStep(s, w[0], w[1..] + rest, nameLen, valueLen);
      SpaceIsSkipped(s, w[0], nameLen, valueLen);
      RunSpaces(s, w[1..], rest, nameLen, valueLen);
    }
  }

  /** A whole token stores its text, without its quotes. */
  lemma RunToken(s: Scan, t: Token, rest: string, nameLen: nat, valueLen: nat)
    requires AtTop(s.levels) && Quiet(s) && |s.name| < nameLen && |s.value| < valueLen
    requires Legal(t, s.levels.curly == 1)
    ensures Run(s, Show(t) + rest, nameLen, valueLen)
         == Run(StoreAll(s, t.text, nameLen, valueLen), rest, nameLen, valueLen)
  {
    hide LegalChar, Step;
    match t
    case Bare(text) =>
      RunText(s, t, text, rest, nameLen, valueLen);
    case Single(text) =>
      var q := s.(single := true);
      QuoteToggles(s, nameLen, valueLen);
      assert Show(t) + rest == ['\''] + (text + (['\''] + rest));
      RunStep(s, '\'', text + (['\''] + rest), nameLen, valueLen);
      RunText(q, t, text, ['\''] + rest, nameLen, valueLen);
      var r := StoreAll(q, text, nameLen, valueLen);
      QuoteToggles(r, nameLen, valueLen);
      RunStep(r, '\'', rest, nameLen, valueLen);
    case Double(text) =>
      var q := s.(double := true);
      QuoteToggles(s, nameLen, valueLen);
      assert Show(t) + rest == ['"'] + (text + (['"'] + rest));
      RunStep(s, '"', text + (['"'] + rest), nameLen, valueLen);
      RunText(q, t, text, ['"'] + rest, nameLen, valueLen);
      var r := StoreAll(q, text, nameLen, valueLen);
      QuoteToggles(r, nameLen, valueLen);
      RunStep(r, '"', rest, nameLen, valueLen);
  }

  /** A comma ends the call even inside quotes: the rest of the text is left for the next one. */
  lemma CommaCuts(s: Scan, t: Token, w: string, rest: string, nameLen: nat, valueLen: nat)
    requires AtTop(s.levels) && Inside(s, t) && |s.name| < nameLen && |s.value| < valueLen
    requires forall i | 0 <= i < |w| :: LegalChar(t, w[i], s.levels.curly == 1)
    ensures Run(s, w + ([','] + rest), nameLen, valueLen) == (StoreAll(s, w, nameLen, valueLen), rest)
  {
    hide LegalChar, Run;
    RunText(s, t, w, [','] + rest, nameLen, valueLen);
    RunStep(StoreAll(s, w, nameLen, valueLen), ',', rest, nameLen, valueLen);
  }

  lemma QuoteToggles(s: Scan, nameLen: nat, valueLen: nat)
    requires AtTop(s.levels)
    ensures !s.double ==> Step(s, '\'', nameLen, valueLen) == Go(s.(single := !s.single))
    ensures !s.single ==> Step(s, '"', nameLen, valueLen) == Go(s.(double := !s.double))
  {}

  // ---------------------------------------------------------------- flat objects

  /** A member with arbitrary space around its tokens. */
  datatype Member = Member(key: Token, value: Token, before: string, afterKey: string, beforeValue: string,
                           after: string)

  predicate LegalMember(m: Member) {
    && Legal(m.key, true) && Legal(m.value, true)
    && AllSpace(m.before) && AllSpace(m.afterKey) && AllSpace(m.beforeValue) && AllSpace(m.after)
  }

  function ShowMember(m: Member): string {
    m.before + (Show(m.key) + (m.afterKey + ([':'] + (m.beforeValue + (Show(m.value) + m.after)))))
  }

  function ShowMembers(ms: seq<Member>): string {
    if |ms| == 0 then ""
    else if |ms| == 1 then ShowMember(ms[0])
    else ShowMember(ms[0]) + ([','] + ShowMembers(ms[1..]))
  }

  /** What a call should report for a member: both texts, cut to their buffers. */
  function MemberReply(m: Member, nameLen: nat, valueLen: nat): Reply
    requires nameLen >= 1 && valueLen >= 1
  {
    Reply(true, Cut(m.key.text, nameLen - 1), Cut(m.value.text, valueLen - 1))
  }

  function MemberReplies(ms: seq<Member>, nameLen: nat, valueLen: nat): (r: seq<Reply>)
    requires nameLen >= 1 && valueLen >= 1
    ensures |r| == |ms|
  {
    if |ms| == 0 then [] else [MemberReply(ms[0], nameLen, valueLen)] + MemberReplies(ms[1..], nameLen, valueLen)
  }

  function InObject(counter: nat): Levels {
    Levels(1, 0, '{', counter)
  }

  /** The scan after a member and before what ends it. */
  function MemberScan(m: Member, counter: nat, nameLen: nat, valueLen: nat): Scan
    requires nameLen >= 1 && valueLen >= 1
  {
    Scan(InObject(counter), false, false, true, Cut(m.key.text, nameLen - 1), Cut(m.value.text, valueLen - 1))
  }

  lemma DividerTurns(s: Scan, nameLen: nat, valueLen: nat)
    requires Quiet(s) && s.levels.curly == 1 && s.levels.square == 0
    ensures Step(s, ':', nameLen, valueLen) == Go(s.(inValue := true))
  {
    hide StepBracket;
  }

  /** The scan behind the divider of a member and the space there. */
  function KeyScan(key: Token, counter: nat, nameLen: nat): Scan
    requires nameLen >= 1
  {
    Scan(InObject(counter), false, false, true, Cut(key.text, nameLen - 1), "")
  }

  lemma RunKey(m: Member, counter: nat, rest: string, nameLen: nat, valueLen: nat)
    requires Legal(m.key, true) && AllSpace(m.before) && AllSpace(m.afterKey) && AllSpace(m.beforeValue)
    requires nameLen >= 1 && valueLen >= 1
    ensures Run(Begin(InObject(counter)), ShowMember(m) + rest, nameLen, valueLen)
         == Run(KeyScan(m.key, counter, nameLen), Show(m.value) + (m.after + rest), nameLen, valueLen)
  {
    hide Step, Run, Legal, AllSpace, Show;
    var s0 := Begin(InObject(counter));
    var s1 := StoreAll(s0, m.key.text, nameLen, valueLen);
    var t5 := Show(m.value) + (m.after + rest);
    var t3 := [':'] + (m.beforeValue + t5);
    assert ShowMember(m) + rest == m.before + (Show(m.key) + (m.afterKey + t3));
    RunSpaces(s0, m.before, Show(m.key) + (m.afterKey + t3), nameLen, valueLen);
    RunToken(s0, m.key, m.afterKey + t3, nameLen, valueLen);
    RunSpaces(s1, m.afterKey, t3, nameLen, valueLen);
    DividerTurns(s1, nameLen, valueLen);
    RunStep(s1, ':', m.beforeValue + t5, nameLen, valueLen);
    RunSpaces(s1.(inValue := true), m.beforeValue, t5, nameLen, valueLen);
    assert "" + m.key.text == m.key.text;
  }

  lemma RunMember(m: Member, counter: nat, rest: string, nameLen: nat, valueLen: nat)
    requires LegalMember(m) && nameLen >= 1 && valueLen >= 1
    ensures Run(Begin(InObject(counter)), ShowMember(m) + rest, nameLen, valueLen)
         == Run(MemberScan(m, counter, nameLen, valueLen), rest, nameLen, valueLen)
  {
    hide Step, Run, Legal, AllSpace, Show, ShowMember;
    var s2 := KeyScan(m.key, counter, nameLen);
    RunKey(m, counter, rest, nameLen, valueLen);
    RunToken(s2, m.value, m.after + rest, nameLen, valueLen);
    RunSpaces(StoreAll(s2, m.value.text, nameLen, valueLen), m.after, rest, nameLen, valueLen);
    assert "" + m.value.text == m.value.text;
  }

  /** What ends a member: a comma is consumed, a closing brace is put back. */
  lemma MemberEnds(m: Member, counter: nat, rest: string, nameLen: nat, valueLen: nat)
    requires nameLen >= 1 && valueLen >= 1
    ensures var s := MemberScan(m, counter, nameLen, valueLen);
            && Run(s, [','] + rest, nameLen, valueLen) == (s, rest)
            && Run(s, ['}'] + rest, nameLen, valueLen) == (s.(levels := Levels(0, 0, '{', counter)), ['}'] + rest)
  {
    var s := MemberScan(m, counter, nameLen, valueLen);
    RunStep(s, ',', rest, nameLen, valueLen);
    RunStep(s, '}', rest, nameLen, valueLen);
  }

  /** The call after the last one: the brace put back ends it at once, and the level wraps. */
  lemma AfterObject(l: Levels, rest: string, nameLen: nat, valueLen: nat)
    requires (l.curly == 0 || l.curly == 1) && l.square == 0 && l.base == '{'
    ensures Run(Begin(l), ['}'] + rest, nameLen, valueLen) == (Begin(l.(curly := Dec(l.curly))), ['}'] + rest)
  {
    RunStep(Begin(l), '}', rest, nameLen, valueLen);
  }

  lemma {:induction false} MembersRoundTrip(ms: seq<Member>, counter: nat, post: string, nameLen: nat, valueLen: nat)
    requires |ms| > 0 && (forall i | 0 <= i < |ms| :: LegalMember(ms[i])) && nameLen >= 1 && valueLen >= 1
    ensures Replies(InObject(counter), ShowMembers(ms) + (['}'] + post), nameLen, valueLen, |ms| + 1)
         == MemberReplies(ms, nameLen, valueLen) + [NO_MORE]
    decreases |ms|
  {
    hide Run, LegalMember, ShowMember;
    var m, text := ms[0], ShowMembers(ms) + (['}'] + post);
    var s := MemberScan(m, counter, nameLen, valueLen);
    if |ms| == 1 {
      var l := Levels(0, 0, '{', counter);
      RunMember(m, counter, ['}'] + post, nameLen, valueLen);
      MemberEnds(m, counter, post, nameLen, valueLen);
      AfterObject(l, post, nameLen, valueLen);
      assert Replies(l, ['}'] + post, nameLen, valueLen, 1) == [NO_MORE];
    } else {
      var rest := ShowMembers(ms[1..]) + (['}'] + post);
      assert text == ShowMember(m) + ([','] + rest);
      RunMember(m, counter, [','] + rest, nameLen, valueLen);
      MemberEnds(m, counter, rest, nameLen, valueLen);
      MembersRoundTrip(ms[1..], counter, post, nameLen, valueLen);
    }
  }

  /** The opening bracket changes the state as if the call had begun after it. */
  lemma Opens(counter: nat, c: char, pre: string, rest: string, nameLen: nat, valueLen: nat)
    requires AllSpace(pre) && (c == '{' || c == '[')
    ensures var l := if c == '{' then InObject(counter) else InArray(counter);
            Run(Begin(Levels(0, 0, NUL, counter)), pre + ([c] + rest), nameLen, valueLen)
              == Run(Begin(l), rest, nameLen, valueLen)
  {
    hide Run;
    var s := Begin(Levels(0, 0, NUL, counter));
    RunSpaces(s, pre, [c] + rest, nameLen, valueLen);
    RunStep(s, c, rest, nameLen, valueLen);
  }

  function ShowObject(pre: string, inner: string, ms: seq<Member>, post: string): string {
    pre + (['{'] + (inner + (ShowMembers(ms) + (['}'] + post))))
  }

  /**
   One call for each member gives the member, and one more call reports the end; whatever
   follows the object does not matter.
   */
  lemma ObjectRoundTrip(ms: seq<Member>, counter: nat, pre: string, inner: string, post: string, nameLen: nat,
                        valueLen: nat)
    requires (forall i | 0 <= i < |ms| :: LegalMember(ms[i])) && AllSpace(pre) && AllSpace(inner)
    requires nameLen >= 1 && valueLen >= 1
    ensures Replies(Levels(0, 0, NUL, counter), ShowObject(pre, inner, ms, post), nameLen, valueLen, |ms| + 1)
         == MemberReplies(ms, nameLen, valueLen) + [NO_MORE]
  {
    hide Run, LegalMember, AllSpace;
    var body := ShowMembers(ms) + (['}'] + post);
    Opens(counter, '{', pre, inner + body, nameLen, valueLen);
    RunSpaces(Begin(InObject(counter)), inner, body, nameLen, valueLen);
    if |ms| == 0 {
      assert body == ['}'] + post;
      AfterObject(InObject(counter), post, nameLen, valueLen);
      assert Replies(Levels(0, 0, NUL, counter), ShowObject(pre, inner, ms, post), nameLen, valueLen, 1) == [NO_MORE];
    } else {
      MembersRoundTrip(ms, counter, post, nameLen, valueLen);
    }
  }

  // ---------------------------------------------------------------- flat arrays

  datatype Element = Element(token: Token, before: string, after: string)

  predicate LegalElement(e: Element) {
    Legal(e.token, false) && |e.token.text| > 0 && AllSpace(e.before) && AllSpace(e.after)
  }

  function ShowElement(e: Element): string {
    e.before + (Show(e.token) + e.after)
  }

  function ShowElements(es: seq<Element>): string {
    if |es| == 0 then ""
    else if |es| == 1 then ShowElement(es[0])
    else ShowElement(es[0]) + ([','] + ShowElements(es[1..]))
  }

  /** An element's name is its number modulo 256, and its value is cut to the name buffer. */
  function ElementReplies(es: seq<Element>, counter: nat, nameLen: nat): (r: seq<Reply>)
    requires nameLen >= 1
    ensures |r| == |es|
  {
    if |es| == 0 then [] else
    var first := Reply(true, Decimal(counter), Cut(es[0].token.text, nameLen - 1));
    [first] + ElementReplies(es[1..], Inc(counter), nameLen)
  }

  function InArray(counter: nat): Levels {
    Levels(0, 1, '[', counter)
  }

  lemma RunElement(e: Element, counter: nat, rest: string, nameLen: nat, valueLen: nat)
    requires LegalElement(e) && nameLen >= 1 && valueLen >= 1
    ensures Run(Begin(InArray(counter)), ShowElement(e) + rest, nameLen, valueLen)
         == Run(Begin(InArray(counter)).(name := Cut(e.token.text, nameLen - 1)), rest, nameLen, valueLen)
  {
    hide Step, Run, Legal, AllSpace, Show;
    var s0 := Begin(InArray(counter));
    var s1 := StoreAll(s0, e.token.text, nameLen, valueLen);
    assert ShowElement(e) + rest == e.before + (Show(e.token) + (e.after + rest));
    RunSpaces(s0, e.before, Show(e.token) + (e.after + rest), nameLen, valueLen);
    RunToken(s0, e.token, e.after + rest, nameLen, valueLen);
    RunSpaces(s1, e.after, rest, nameLen, valueLen);
    assert "" + e.token.text == e.token.text;
  }

  lemma ElementStops(name: string, counter: nat, rest: string, nameLen: nat, valueLen: nat)
    ensures var s := Begin(InArray(counter)).(name := name);
            && Run(s, [','] + rest, nameLen, valueLen) == (s, rest)
            && Run(s, [']'] + rest, nameLen, valueLen) == (s.(levels := Levels(0, 0, '[', counter)), rest)
  {
    var s := Begin(InArray(counter)).(name := name);
    RunStep(s, ',', rest, nameLen, valueLen);
    RunStep(s, ']', rest, nameLen, valueLen);
  }

  lemma DecimalOfByte(n: nat)
    requires n < 256
    ensures |Decimal(n)| <= 3
  {
    assert n >= 10 ==> Decimal(n)[..|Decimal(n)| - 1] == Decimal(n / 10);
    assert n >= 100 ==> |Decimal(n / 10)| == 2;
  }

  /** After the array only space is left, which a call skips to find the end of the input. */
  lemma AfterArray(l: Levels, post: string, nameLen: nat, valueLen: nat)
    requires l.curly == 0 && l.square == 0 && AllSpace(post) && nameLen >= 1
    ensures Replies(l, post, nameLen, valueLen, 1) == [NO_MORE]
  {
    hide AllSpace;
    assert post + "" == post;
    RunSpaces(Begin(l), post, "", nameLen, valueLen);
  }

  lemma {:induction false} ElementsRoundTrip(es: seq<Element>, counter: nat, post: string, nameLen: nat, valueLen: nat)
    requires |es| > 0 && (forall i | 0 <= i < |es| :: LegalElement(es[i])) && AllSpace(post)
    requires 4 <= nameLen <= valueLen && counter < 256
    ensures Replies(InArray(counter), ShowElements(es) + ([']'] + post), nameLen, valueLen, |es| + 1)
         == ElementReplies(es, counter, nameLen) + [NO_MORE]
    decreases |es|
  {
    hide Run, Legal, ShowElement, AllSpace, Decimal, IsElement, LevelsAfter, ReplyOf;
    var e, text := es[0], ShowElements(es) + ([']'] + post);
    var name := Cut(e.token.text, nameLen - 1);
    ElementReply(name, counter, nameLen, valueLen);
    if |es| == 1 {
      RunElement(e, counter, [']'] + post, nameLen, valueLen);
      ElementStops(name, counter, post, nameLen, valueLen);
      AfterArray(Levels(0, 0, '[', Inc(counter)), post, nameLen, valueLen);
    } else {
      var rest := ShowElements(es[1..]) + ([']'] + post);
      assert text == ShowElement(e) + ([','] + rest);
      RunElement(e, counter, [','] + rest, nameLen, valueLen);
      ElementStops(name, counter, rest, nameLen, valueLen);
      ElementsRoundTrip(es[1..], Inc(counter), post, nameLen, valueLen);
    }
  }

  lemma ElementReply(name: string, counter: nat, nameLen: nat, valueLen: nat)
    requires 0 < |name| < nameLen <= valueLen && 4 <= nameLen && counter < 256
    ensures var s := Begin(InArray(counter)).(name := name);
            && ReplyOf(s, nameLen, valueLen) == Reply(true, Decimal(counter), name)
            && LevelsAfter(s) == InArray(Inc(counter))
            && ReplyOf(s.(levels := Levels(0, 0, '[', counter)), nameLen, valueLen)
                 == Reply(true, Decimal(counter), name)
            && LevelsAfter(s.(levels := Levels(0, 0, '[', counter))) == Levels(0, 0, '[', Inc(counter))
  {
    DecimalOfByte(counter);
    assert Cut(name, valueLen) == name;
  }

  function ShowArray(pre: string, inner: string, es: seq<Element>, post: string): string {
    pre + (['['] + (inner + (ShowElements(es) + ([']'] + post))))
  }

  /** One call for each element gives its number and its text, and one more call reports the end. */
  lemma ArrayRoundTrip(es: seq<Element>, counter: nat, pre: string, inner: string, post: string, nameLen: nat,
                       valueLen: nat)
    requires (forall i | 0 <= i < |es| :: LegalElement(es[i])) && AllSpace(pre) && AllSpace(inner) && AllSpace(post)
    requires 4 <= nameLen <= valueLen && counter < 256
    ensures Replies(Levels(0, 0, NUL, counter), ShowArray(pre, inner, es, post), nameLen, valueLen, |es| + 1)
         == ElementReplies(es, counter, nameLen) + [NO_MORE]
  {
    hide Run, LegalElement, AllSpace;
    var body := ShowElements(es) + ([']'] + post);
    Opens(counter, '[', pre, inner + body, nameLen, valueLen);
    RunSpaces(Begin(InArray(counter)), inner, body, nameLen, valueLen);
    if |es| == 0 {
      assert body == [']'] + post;
      ElementStops("", counter, post, nameLen, valueLen);
      assert Replies(Levels(0, 0, NUL, counter), ShowArray(pre, inner, es, post), nameLen, valueLen, 1) == [NO_MORE];
    } else {
      ElementsRoundTrip(es, counter, post, nameLen, valueLen);
    }
  }

  /** The number in the name of element `j`, counted from the first call on a connection. */
  lemma {:induction false} ElementNumber(es: seq<Element>, counter: nat, nameLen: nat, j: nat)
    requires j < |es| && counter < 256 && nameLen >= 1
    ensures ElementReplies(es, counter, nameLen)[j]
         == Reply(true, Decimal((counter + j) % 256), Cut(es[j].token.text, nameLen - 1))
  {
    hide Decimal, Inc, Cut;
    if j > 0 {
      IncCounts(counter, j);
      ElementNumber(es[1..], Inc(counter), nameLen, j - 1);
    } else {
      assert (counter + j) % 256 == counter;
    }
  }

  /** Both steps of a byte, with their wraps. */
  lemma BytesWrap(n: nat)
    requires n < 256
    ensures Inc(n) == if n == 255 then 0 else n + 1
    ensures Dec(n) == if n == 0 then 255 else n - 1
  {}

  lemma IncCounts(counter: nat, j: nat)
    requires counter < 256 && j > 0
    ensures Inc(counter) < 256 && (Inc(counter) + (j - 1)) % 256 == (counter + j) % 256
  {}
}
