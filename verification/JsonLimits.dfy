/** Which sizes end every element inside the value buffer, and what a comma in quotes costs. */
module JsonLimits {
  import opened Text
  import opened JsonParam
  import opened JsonLaws

  // ---------------------------------------------------------------- elements and the value buffer

  /** The levels that the parser's bytes can hold. */
  predicate IsState(l: Levels) {
    l.curly < 256 && l.square < 256 && l.counter < 256
  }

  /** A printed element is ended in the value buffer exactly when what the name buffer keeps of it is shorter. */
  lemma ElementNeedsRoom(e: Element, counter: nat, rest: string, nameLen: nat, valueLen: nat)
    requires LegalElement(e) && nameLen >= 2 && valueLen >= 1 && |rest| > 0 && (rest[0] == ',' || rest[0] == ']')
    ensures ElementIsEnded(InArray(counter), ShowElement(e) + rest, nameLen, valueLen)
       <==> |e.token.text| < valueLen || nameLen <= valueLen
  {
    hide Run, Legal, ShowElement, AllSpace;
    var name := Cut(e.token.text, nameLen - 1);
    RunElement(e, counter, rest, nameLen, valueLen);
    assert rest == [rest[0]] + rest[1..];
    ElementStops(name, counter, rest[1..], nameLen, valueLen);
  }

  /** A text with its array opened. */
  lemma OpensArray(text: string, nameLen: nat, valueLen: nat)
    ensures Run(Begin(INITIAL), ['['] + text, nameLen, valueLen) == Run(Begin(InArray(0)), text, nameLen, valueLen)
  {
    assert "" + (['['] + text) == ['['] + text;
    Opens(0, '[', "", text, nameLen, valueLen);
  }

  /** No text leaves the value buffer without a NUL exactly when the name buffer is not larger. */
  lemma SizesDecideElements(nameLen: nat, valueLen: nat)
    requires nameLen >= 1 && valueLen >= 1
    ensures (forall l: Levels, text: string | IsState(l) :: ElementIsEnded(l, text, nameLen, valueLen))
       <==> nameLen <= valueLen
  {
    hide Run, IsElement;
    if nameLen <= valueLen {
      forall l: Levels, text: string | IsState(l) ensures ElementIsEnded(l, text, nameLen, valueLen) {
        RunFits(Begin(l), text, nameLen, valueLen);
      }
    } else {
      LongElementIsNotEnded(nameLen, valueLen);
    }
  }

  lemma LongElementIsNotEnded(nameLen: nat, valueLen: nat)
    requires nameLen > valueLen >= 1
    ensures exists text: string :: !ElementIsEnded(INITIAL, text, nameLen, valueLen)
  {
    hide Run;
    var w := seq(valueLen, _ => 'a');
    var e := Element(Bare(w), "", "");
    assert LegalElement(e);
    var text := ShowElement(e) + [']'];
    OpensArray(text, nameLen, valueLen);
    ElementNeedsRoom(e, 0, [']'], nameLen, valueLen);
    assert !ElementIsEnded(INITIAL, ['['] + text, nameLen, valueLen);
  }

  /** An element of four characters, with room for eight in the name buffer and for four in the value buffer. */
  lemma LongElement()
    ensures !ElementIsEnded(INITIAL, "[abcd]", 8, 4)
  {
    hide Run;
    var e := Element(Bare("abcd"), "", "");
    assert LegalElement(e);
    assert ShowElement(e) + [']'] == "abcd]" && ['['] + "abcd]" == "[abcd]";
    OpensArray("abcd]", 8, 4);
    ElementNeedsRoom(e, 0, [']'], 8, 4);
  }

  // ---------------------------------------------------------------- commas in quotes

  predicate IsComma(c: char) {
    c == ','
  }

  /** A token in either kind of quotes that is legal but for its commas. */
  predicate IsQuotable(t: Token) {
    !t.Bare? && forall i | 0 <= i < |t.text| && t.text[i] != ',' :: LegalChar(t, t.text[i], true)
  }

  predicate IsQuotedMember(m: Member) {
    && Legal(m.key, true) && IsQuotable(m.value)
    && AllSpace(m.before) && AllSpace(m.afterKey) && AllSpace(m.beforeValue) && AllSpace(m.after)
  }

  /** What is left of its value. */
  function BeforeComma(t: Token): string {
    t.text[..Find(t.text, IsComma)]
  }

  /** Members, and the comma behind each. */
  function ShowBefore(ms: seq<Member>): string {
    if |ms| == 0 then "" else ShowMember(ms[0]) + ([','] + ShowBefore(ms[1..]))
  }

  lemma QuotableIsLegal(t: Token)
    requires IsQuotable(t)
    ensures forall i | 0 <= i < |BeforeComma(t)| :: LegalChar(t, BeforeComma(t)[i], true)
    ensures if ',' in t.text then
              |BeforeComma(t)| < |t.text| && t.text == BeforeComma(t) + ([','] + t.text[|BeforeComma(t)| + 1..])
            else BeforeComma(t) == t.text && Legal(t, true)
  {
    hide Find, LegalChar;
    FindStops(t.text, IsComma);
  }

  /** A call in a quoted value stops at its first comma. */
  lemma QuotedStops(s: Scan, t: Token, rest: string, nameLen: nat, valueLen: nat)
    requires s.levels == InObject(s.levels.counter) && Quiet(s) && s.inValue && s.value == ""
    requires |s.name| < nameLen && valueLen >= 1 && IsQuotable(t) && ',' in t.text
    ensures var r := Run(s, Show(t) + rest, nameLen, valueLen).0;
            && r.levels == s.levels && r.inValue && r.name == s.name && r.value == Cut(BeforeComma(t), valueLen - 1)
  {
    hide Run, Find, LegalChar, Step, IsQuotable, BeforeComma;
    QuotableIsLegal(t);
    var q, w := if t.Single? then '\'' else '"', BeforeComma(t);
    var more, s1 := t.text[|w| + 1..] + ([q] + rest), s.(single := t.Single?, double := t.Double?);
    assert t.Single? || t.Double? by { QuotableIsQuoted(t); }
    assert Show(t) + rest == [q] + (w + ([','] + more)) by { ShowSplits(t, w, rest); }
    QuoteToggles(s, nameLen, valueLen);
    RunStep(s, q, w + ([','] + more), nameLen, valueLen);
    CommaCuts(s1, t, w, more, nameLen, valueLen);
    assert "" + w == w;
  }

  lemma QuotableIsQuoted(t: Token)
    requires IsQuotable(t)
    ensures t.Single? || t.Double?
  {}

  lemma ShowSplits(t: Token, w: string, rest: string)
    requires t.Single? || t.Double?
    requires |w| < |t.text| && t.text == w + ([','] + t.text[|w| + 1..])
    ensures var q := if t.Single? then '\'' else '"';
            Show(t) + rest == [q] + (w + ([','] + (t.text[|w| + 1..] + ([q] + rest))))
  {
    var q := if t.Single? then '\'' else '"';
    assert Show(t) == [q] + (t.text + [q]);
    assert Show(t) + rest == [q] + (t.text + ([q] + rest));
    assert (w + ([','] + t.text[|w| + 1..])) + ([q] + rest) == w + ([','] + (t.text[|w| + 1..] + ([q] + rest)));
  }

  /** The call that reads such a member. */
  lemma QuotedIsRead(m: Member, counter: nat, rest: string, nameLen: nat, valueLen: nat)
    requires IsQuotedMember(m) && nameLen >= 1 && valueLen >= 1 && |rest| > 0 && (rest[0] == ',' || rest[0] == '}')
    ensures Replies(InObject(counter), ShowMember(m) + rest, nameLen, valueLen, 1)
         == [Reply(true, Cut(m.key.text, nameLen - 1), Cut(BeforeComma(m.value), valueLen - 1))]
  {
    hide Run, Legal, AllSpace, IsQuotable, BeforeComma, Show, ShowMember;
    QuotableIsLegal(m.value);
    assert rest == [rest[0]] + rest[1..];
    if ',' in m.value.text {
      RunKey(m, counter, rest, nameLen, valueLen);
      QuotedStops(KeyScan(m.key, counter, nameLen), m.value, m.after + rest, nameLen, valueLen);
    } else {
      RunMember(m, counter, rest, nameLen, valueLen);
      MemberEnds(m, counter, rest[1..], nameLen, valueLen);
    }
  }

  lemma {:induction false} BeforeIsRead(ms: seq<Member>, counter: nat, t: string, nameLen: nat, valueLen: nat, n: nat)
    requires (forall i | 0 <= i < |ms| :: LegalMember(ms[i])) && nameLen >= 1 && valueLen >= 1
    ensures Replies(InObject(counter), ShowBefore(ms) + t, nameLen, valueLen, |ms| + n)
         == MemberReplies(ms, nameLen, valueLen) + Replies(InObject(counter), t, nameLen, valueLen, n)
    decreases |ms|
  {
    hide Run, LegalMember, ShowMember;
    if |ms| == 0 {
      assert ShowBefore(ms) + t == t;
    } else {
      var rest := ShowBefore(ms[1..]) + t;
      assert ShowBefore(ms) + t == ShowMember(ms[0]) + ([','] + rest);
      RunMember(ms[0], counter, [','] + rest, nameLen, valueLen);
      MemberEnds(ms[0], counter, rest, nameLen, valueLen);
      BeforeIsRead(ms[1..], counter, t, nameLen, valueLen, n);
    }
  }

  /** An object up to a member that another one or the closing brace follows. */
  function ShowUpTo(pre: string, inner: string, ms: seq<Member>, m: Member, rest: string): string {
    pre + (['{'] + (inner + (ShowBefore(ms) + (ShowMember(m) + rest))))
  }

  lemma BraceOpens(counter: nat, pre: string, inner: string, t: string, nameLen: nat, valueLen: nat, n: nat)
    requires AllSpace(pre) && AllSpace(inner) && nameLen >= 1 && valueLen >= 1
    ensures Replies(Levels(0, 0, NUL, counter), pre + (['{'] + (inner + t)), nameLen, valueLen, n)
         == Replies(InObject(counter), t, nameLen, valueLen, n)
  {
    hide Run, AllSpace;
    Opens(counter, '{', pre, inner + t, nameLen, valueLen);
    RunSpaces(Begin(InObject(counter)), inner, t, nameLen, valueLen);
  }

  /** Wherever it stands in the object, the value that is reported for it is cut at its first comma. */
  lemma QuotedIsCut(counter: nat, pre: string, inner: string, ms: seq<Member>, m: Member, rest: string,
                    nameLen: nat, valueLen: nat)
    requires AllSpace(pre) && AllSpace(inner) && (forall i | 0 <= i < |ms| :: LegalMember(ms[i])) && IsQuotedMember(m)
    requires nameLen >= 1 && valueLen >= 1 && |rest| > 0 && (rest[0] == ',' || rest[0] == '}')
    ensures Replies(Levels(0, 0, NUL, counter), ShowUpTo(pre, inner, ms, m, rest), nameLen, valueLen, |ms| + 1)
         == MemberReplies(ms, nameLen, valueLen)
          + [Reply(true, Cut(m.key.text, nameLen - 1), Cut(BeforeComma(m.value), valueLen - 1))]
  {
    hide Replies, LegalMember, IsQuotedMember, ShowMember, AllSpace, BeforeComma, MemberReplies, ShowBefore;
    BraceOpens(counter, pre, inner, ShowBefore(ms) + (ShowMember(m) + rest), nameLen, valueLen, |ms| + 1);
    BeforeIsRead(ms, counter, ShowMember(m) + rest, nameLen, valueLen, 1);
    QuotedIsRead(m, counter, rest, nameLen, valueLen);
  }

  /** So it comes back whole, as far as the buffer holds it, exactly when no comma stands in that part. */
  lemma QuotedComesBack(counter: nat, pre: string, inner: string, ms: seq<Member>, m: Member, rest: string,
                        nameLen: nat, valueLen: nat)
    requires AllSpace(pre) && AllSpace(inner) && (forall i | 0 <= i < |ms| :: LegalMember(ms[i])) && IsQuotedMember(m)
    requires nameLen >= 1 && valueLen >= 1 && |rest| > 0 && (rest[0] == ',' || rest[0] == '}')
    ensures Replies(Levels(0, 0, NUL, counter), ShowUpTo(pre, inner, ms, m, rest), nameLen, valueLen, |ms| + 1)
              == MemberReplies(ms, nameLen, valueLen) + [MemberReply(m, nameLen, valueLen)]
       <==> ',' !in Cut(m.value.text, valueLen - 1)
  {
    hide Replies, LegalMember, IsQuotedMember, ShowUpTo, AllSpace, MemberReplies, Find;
    QuotedIsCut(counter, pre, inner, ms, m, rest, nameLen, valueLen);
    CutAtComma(m.value.text, valueLen - 1);
    var a, b := MemberReplies(ms, nameLen, valueLen), MemberReply(m, nameLen, valueLen);
    assert (a + [b])[|a|] == b;
  }

  lemma CutAtComma(w: string, n: nat)
    ensures Cut(w[..Find(w, IsComma)], n) == Cut(w, n) <==> ',' !in Cut(w, n)
  {
    hide Find;
    var k := Find(w, IsComma);
    FindStops(w, IsComma);
    if k < |w| && k < n {
      assert Cut(w, n)[k] == ',';
      assert |Cut(w[..k], n)| == k < |Cut(w, n)|;
    } else {
      assert Cut(w[..k], n) == Cut(w, n);
    }
  }
}
