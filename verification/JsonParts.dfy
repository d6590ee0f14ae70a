/**
 Arrays with objects and lists among their elements: what all the calls report, and exactly when
 that is the elements and then the end.
 */
module JsonParts {
  import opened Text
  import opened JsonParam
  import opened JsonDeep
  import opened JsonLaws

  /** The levels inside an object or a list that is an element. */
  function InBraces(counter: nat): Levels {
    Levels(1, 1, '[', counter)
  }

  function InSquares(counter: nat): Levels {
    Levels(0, 2, '[', counter)
  }

  // ---------------------------------------------------------------- elements of any kind

  /** An element that is a token, an object, or a list. */
  datatype Part =
    | Single(element: Element)
    | Braced(inner: string, before: string, after: string)
    | Squared(inner: string, before: string, after: string)

  predicate LegalPart(p: Part) {
    match p
    case Single(e) => LegalElement(e)
    case Braced(inner, before, after) => IsInner(InBraces(0), inner) && AllSpace(before) && AllSpace(after)
    case Squared(inner, before, after) => IsInner(InSquares(0), inner) && AllSpace(before) && AllSpace(after)
  }

  predicate LegalParts(ps: seq<Part>) {
    forall i | 0 <= i < |ps| :: LegalPart(ps[i])
  }

  /** What is reported of it, but for the cut. */
  function PartText(p: Part): (w: string) {
    match p
    case Single(e) => e.token.text
    case Braced(inner, _, _) => ['{'] + (inner + ['}'])
    case Squared(inner, _, _) => ['['] + (inner + [']'])
  }

  function ShowPart(p: Part): string {
    if p.Single? then ShowElement(p.element) else p.before + (PartText(p) + p.after)
  }

  function ShowParts(ps: seq<Part>): string {
    if |ps| == 0 then ""
    else if |ps| == 1 then ShowPart(ps[0])
    else ShowPart(ps[0]) + ([','] + ShowParts(ps[1..]))
  }

  function PartReply(p: Part, counter: nat, nameLen: nat): (r: Reply)
    requires nameLen >= 1
    ensures r.ret
  {
    Reply(true, Decimal(counter), Cut(PartText(p), nameLen - 1))
  }

  function PartReplies(ps: seq<Part>, counter: nat, nameLen: nat): (r: seq<Reply>)
    requires nameLen >= 1
    ensures |r| == |ps|
  {
    if |ps| == 0 then [] else [PartReply(ps[0], counter, nameLen)] + PartReplies(ps[1..], Inc(counter), nameLen)
  }

  /** What all the calls report: the end also comes behind every object or list that another element follows. */
  function Heard(ps: seq<Part>, counter: nat, nameLen: nat): (r: seq<Reply>)
    requires nameLen >= 1
    ensures |r| >= |ps|
  {
    if |ps| == 0 then []
    else
      [PartReply(ps[0], counter, nameLen)] + (if !ps[0].Single? && |ps| > 1 then [NO_MORE] else [])
      + Heard(ps[1..], Inc(counter), nameLen)
  }

  // ---------------------------------------------------------------- one call

  function NameScan(p: Part, counter: nat, nameLen: nat): Scan
    requires nameLen >= 1
  {
    Begin(InArray(counter)).(name := Cut(PartText(p), nameLen - 1))
  }

  lemma Openers(s: Scan, nameLen: nat, valueLen: nat)
    requires s.levels == InArray(s.levels.counter)
    ensures Step(s, '{', nameLen, valueLen)
         == Go(Store(s, '{', nameLen, valueLen).(levels := InBraces(s.levels.counter)))
    ensures Step(s, '[', nameLen, valueLen)
         == Go(Store(s, '[', nameLen, valueLen).(levels := InSquares(s.levels.counter)))
  {}

  lemma RunBracketed(p: Part, counter: nat, rest: string, nameLen: nat, valueLen: nat)
    requires !p.Single? && LegalPart(p) && nameLen >= 1 && valueLen >= 1
    ensures Run(Begin(InArray(counter)), PartText(p) + rest, nameLen, valueLen)
         == (NameScan(p, counter, nameLen), rest)
  {
    hide Step, Run, AllSpace, IsDeep, NextAll;
    var open, close := if p.Braced? then '{' else '[', if p.Braced? then '}' else ']';
    var l := if p.Braced? then InBraces(0) else InSquares(0);
    var s := Begin(InArray(counter));
    var s1 := Store(s, open, nameLen, valueLen).(levels := l.(counter := counter));
    CounterIsNotSeen(l, p.inner, counter);
    Openers(s, nameLen, valueLen);
    assert PartText(p) + rest == [open] + (p.inner + ([close] + rest));
    RunStep(s, open, p.inner + ([close] + rest), nameLen, valueLen);
    CopiedUpTo(s1, p.inner, close, rest, nameLen, valueLen);
    var v := [open] + (p.inner + [close]);
    assert v[1..] == p.inner + [close] && v == PartText(p) && s.name + v == v;
    StoreAllStep(s, v, nameLen, valueLen);
  }

  /** An object or a list is the element as it stands, and its closing bracket ends the call. */
  lemma PartIsCopied(p: Part, counter: nat, rest: string, nameLen: nat, valueLen: nat)
    requires !p.Single? && LegalPart(p) && nameLen >= 1 && valueLen >= 1
    ensures Run(Begin(InArray(counter)), ShowPart(p) + rest, nameLen, valueLen)
         == (NameScan(p, counter, nameLen), p.after + rest)
  {
    hide Run, AllSpace, IsInner, PartText;
    assert ShowPart(p) + rest == p.before + (PartText(p) + (p.after + rest));
    RunSpaces(Begin(InArray(counter)), p.before, PartText(p) + (p.after + rest), nameLen, valueLen);
    RunBracketed(p, counter, p.after + rest, nameLen, valueLen);
  }

  /** Behind it the next call meets what ends an element, and reports the end. */
  lemma EndBehindPart(counter: nat, after: string, c: char, rest: string, nameLen: nat, valueLen: nat, n: nat)
    requires AllSpace(after) && nameLen >= 1 && (c == ',' || c == ']')
    ensures var l := if c == ',' then InArray(counter) else Levels(0, 0, '[', counter);
            Replies(InArray(counter), after + ([c] + rest), nameLen, valueLen, n + 1)
              == [NO_MORE] + Replies(l, rest, nameLen, valueLen, n)
  {
    hide Run, AllSpace;
    RunSpaces(Begin(InArray(counter)), after, [c] + rest, nameLen, valueLen);
    ElementStops("", counter, rest, nameLen, valueLen);
  }

  lemma AfterIsSpace(p: Part)
    requires !p.Single? && LegalPart(p)
    ensures AllSpace(p.after)
  {}

  lemma PartIsNotEmpty(p: Part, nameLen: nat)
    requires LegalPart(p) && nameLen >= 2
    ensures 0 < |Cut(PartText(p), nameLen - 1)| < nameLen
  {}

  /** One call takes an element and, if it is a token, what ends it. */
  lemma PartIsHeard(p: Part, counter: nat, c: char, rest: string, nameLen: nat, valueLen: nat, n: nat)
    requires LegalPart(p) && 4 <= nameLen <= valueLen && counter < 256 && (c == ',' || c == ']')
    ensures var l := if p.Single? && c == ']' then Levels(0, 0, '[', Inc(counter)) else InArray(Inc(counter));
            var left := if p.Single? then rest else p.after + ([c] + rest);
            Replies(InArray(counter), ShowPart(p) + ([c] + rest), nameLen, valueLen, n + 1)
              == [PartReply(p, counter, nameLen)] + Replies(l, left, nameLen, valueLen, n)
  {
    hide Run, LegalElement, ShowElement, Decimal, IsElement, LevelsAfter, ReplyOf, PartText;
    var name := Cut(PartText(p), nameLen - 1);
    PartIsNotEmpty(p, nameLen);
    ElementReply(name, counter, nameLen, valueLen);
    if p.Single? {
      assert PartText(p) == p.element.token.text by { SingleText(p); }
      RunElement(p.element, counter, [c] + rest, nameLen, valueLen);
      ElementStops(name, counter, rest, nameLen, valueLen);
    } else {
      PartIsCopied(p, counter, [c] + rest, nameLen, valueLen);
    }
  }

  lemma SingleText(p: Part)
    requires p.Single?
    ensures PartText(p) == p.element.token.text
  {}

  // ---------------------------------------------------------------- all calls

  lemma LastIsHeard(p: Part, counter: nat, post: string, nameLen: nat, valueLen: nat)
    requires LegalPart(p) && 4 <= nameLen <= valueLen && counter < 256 && AllSpace(post)
    ensures Replies(InArray(counter), ShowPart(p) + ([']'] + post), nameLen, valueLen, 2)
         == [PartReply(p, counter, nameLen), NO_MORE]
  {
    hide Run, LegalPart, ShowPart, PartReply, AllSpace;
    PartIsHeard(p, counter, ']', post, nameLen, valueLen, 1);
    if p.Single? {
      AfterArray(Levels(0, 0, '[', Inc(counter)), post, nameLen, valueLen);
    } else {
      AfterIsSpace(p);
      EndBehindPart(Inc(counter), p.after, ']', post, nameLen, valueLen, 0);
      assert Replies(Levels(0, 0, '[', Inc(counter)), post, nameLen, valueLen, 0) == [];
    }
  }

  /** An element that another one follows. */
  lemma FirstIsHeard(p: Part, counter: nat, rest: string, more: seq<Reply>, nameLen: nat, valueLen: nat)
    requires LegalPart(p) && 4 <= nameLen <= valueLen && counter < 256
    requires Replies(InArray(Inc(counter)), rest, nameLen, valueLen, |more| + 1) == more + [NO_MORE]
    ensures var all := [PartReply(p, counter, nameLen)] + (if p.Single? then [] else [NO_MORE]) + more;
            Replies(InArray(counter), ShowPart(p) + ([','] + rest), nameLen, valueLen, |all| + 1) == all + [NO_MORE]
  {
    hide Replies, LegalPart, ShowPart, PartReply;
    if p.Single? {
      PartIsHeard(p, counter, ',', rest, nameLen, valueLen, |more| + 1);
    } else {
      PartIsHeard(p, counter, ',', rest, nameLen, valueLen, |more| + 2);
      AfterIsSpace(p);
      EndBehindPart(Inc(counter), p.after, ',', rest, nameLen, valueLen, |more| + 1);
    }
  }

  lemma {:induction false} PartsAreHeard(ps: seq<Part>, counter: nat, post: string, nameLen: nat, valueLen: nat)
    requires |ps| > 0 && LegalParts(ps) && 4 <= nameLen <= valueLen && counter < 256 && AllSpace(post)
    ensures Replies(InArray(counter), ShowParts(ps) + ([']'] + post), nameLen, valueLen,
                    |Heard(ps, counter, nameLen)| + 1)
         == Heard(ps, counter, nameLen) + [NO_MORE]
    decreases |ps|
  {
    hide Replies, LegalPart, ShowPart, PartReply, AllSpace;
    var p := ps[0];
    assert LegalPart(p);
    if |ps| == 1 {
      LastIsHeard(p, counter, post, nameLen, valueLen);
      assert Heard(ps[1..], Inc(counter), nameLen) == [];
      assert Heard(ps, counter, nameLen) == [PartReply(p, counter, nameLen)];
    } else {
      var rest := ShowParts(ps[1..]) + ([']'] + post);
      assert ShowParts(ps) + ([']'] + post) == ShowPart(p) + ([','] + rest);
      PartsAreHeard(ps[1..], Inc(counter), post, nameLen, valueLen);
      FirstIsHeard(p, counter, rest, Heard(ps[1..], Inc(counter), nameLen), nameLen, valueLen);
    }
  }

  function ShowPartArray(pre: string, inner: string, ps: seq<Part>, post: string): string {
    pre + (['['] + (inner + (ShowParts(ps) + ([']'] + post))))
  }

  /** The whole array, from its opening bracket: exactly what all the calls report. */
  lemma ArrayIsHeard(ps: seq<Part>, counter: nat, pre: string, inner: string, post: string, nameLen: nat, valueLen: nat)
    requires LegalParts(ps) && AllSpace(pre) && AllSpace(inner) && AllSpace(post)
    requires 4 <= nameLen <= valueLen && counter < 256
    ensures Replies(Levels(0, 0, NUL, counter), ShowPartArray(pre, inner, ps, post), nameLen, valueLen,
                    |Heard(ps, counter, nameLen)| + 1)
         == Heard(ps, counter, nameLen) + [NO_MORE]
  {
    hide Run, LegalPart, AllSpace, Heard;
    var body := ShowParts(ps) + ([']'] + post);
    Opens(counter, '[', pre, inner + body, nameLen, valueLen);
    RunSpaces(Begin(InArray(counter)), inner, body, nameLen, valueLen);
    if |ps| == 0 {
      assert Heard(ps, counter, nameLen) == [] by { NothingIsHeard(counter, nameLen); }
      assert body == [']'] + post;
      ElementStops("", counter, post, nameLen, valueLen);
      assert Replies(Levels(0, 0, NUL, counter), ShowPartArray(pre, inner, ps, post), nameLen, valueLen, 1)
          == [NO_MORE];
    } else {
      PartsAreHeard(ps, counter, post, nameLen, valueLen);
    }
  }

  lemma NothingIsHeard(counter: nat, nameLen: nat)
    requires nameLen >= 1
    ensures Heard([], counter, nameLen) == []
  {}

  // ---------------------------------------------------------------- when the elements survive

  /** No element but the last is an object or a list. */
  predicate OnlyLastIsBracketed(ps: seq<Part>) {
    forall i | 0 <= i < |ps| - 1 :: ps[i].Single?
  }

  lemma {:induction false} HeardIsReplies(ps: seq<Part>, counter: nat, nameLen: nat)
    requires nameLen >= 1
    ensures (Heard(ps, counter, nameLen) + [NO_MORE])[..|ps| + 1] == PartReplies(ps, counter, nameLen) + [NO_MORE]
       <==> OnlyLastIsBracketed(ps)
  {
    hide PartReply;
    if |ps| > 1 {
      var next := Inc(counter);
      var r, more := PartReply(ps[0], counter, nameLen), Heard(ps[1..], next, nameLen);
      var all, wanted := Heard(ps, counter, nameLen) + [NO_MORE], PartReplies(ps, counter, nameLen) + [NO_MORE];
      HeardIsReplies(ps[1..], next, nameLen);
      assert wanted == [r] + (PartReplies(ps[1..], next, nameLen) + [NO_MORE]);
      if ps[0].Single? {
        assert all == [r] + (more + [NO_MORE]);
        assert all[..|ps| + 1] == [r] + (more + [NO_MORE])[..|ps|];
        assert all[..|ps| + 1][1..] == (more + [NO_MORE])[..|ps|];
        assert wanted[1..] == PartReplies(ps[1..], next, nameLen) + [NO_MORE];
        FirstIsSingle(ps);
      } else {
        assert all[1] == NO_MORE;
        assert wanted[1] == PartReply(ps[1], next, nameLen);
        assert all[..|ps| + 1][1] == all[1];
      }
    }
  }

  lemma FirstIsSingle(ps: seq<Part>)
    requires |ps| > 1 && ps[0].Single?
    ensures OnlyLastIsBracketed(ps) <==> OnlyLastIsBracketed(ps[1..])
  {
    if OnlyLastIsBracketed(ps[1..]) {
      forall i | 0 <= i < |ps| - 1 ensures ps[i].Single? {
        assert i > 0 ==> ps[i] == ps[1..][i - 1];
      }
    }
  }

  /**
   One call for each element gives the elements, and one more the end, if and only if no element but
   the last is an object or a list.
   */
  lemma PartsRoundTrip(ps: seq<Part>, counter: nat, pre: string, inner: string, post: string, nameLen: nat,
                       valueLen: nat)
    requires LegalParts(ps) && AllSpace(pre) && AllSpace(inner) && AllSpace(post)
    requires 4 <= nameLen <= valueLen && counter < 256
    ensures Replies(Levels(0, 0, NUL, counter), ShowPartArray(pre, inner, ps, post), nameLen, valueLen, |ps| + 1)
              == PartReplies(ps, counter, nameLen) + [NO_MORE]
       <==> OnlyLastIsBracketed(ps)
  {
    hide Replies, LegalParts, AllSpace, Heard, PartReplies, ShowPartArray, OnlyLastIsBracketed;
    ArrayIsHeard(ps, counter, pre, inner, post, nameLen, valueLen);
    FewerReplies(Levels(0, 0, NUL, counter), ShowPartArray(pre, inner, ps, post), nameLen, valueLen, |ps| + 1,
                 |Heard(ps, counter, nameLen)| + 1);
    HeardIsReplies(ps, counter, nameLen);
  }
}
