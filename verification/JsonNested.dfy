/**
 Objects with nested objects among their values: what all the calls report, and exactly when
 that is the members and then the end.
 */
module JsonNested {
  import opened Text
  import opened JsonParam
  import opened JsonDeep
  import opened JsonLaws

  // ---------------------------------------------------------------- values in brackets

  /** The levels inside an object or a list that is a value. */
  function InNested(counter: nat): Levels {
    Levels(2, 0, '{', counter)
  }

  function InList(counter: nat): Levels {
    Levels(1, 1, '{', counter)
  }

  lemma Openers(s: Scan, nameLen: nat, valueLen: nat)
    requires s.levels == InObject(s.levels.counter)
    ensures Step(s, '{', nameLen, valueLen)
         == Go(Store(s, '{', nameLen, valueLen).(levels := InNested(s.levels.counter)))
    ensures Step(s, '[', nameLen, valueLen)
         == Go(Store(s, '[', nameLen, valueLen).(levels := InList(s.levels.counter)))
  {}

  /** A nested object is the value of its member as it stands, and its closing brace ends the call. */
  lemma NestedValueIsCopied(s: Scan, w: string, rest: string, nameLen: nat, valueLen: nat)
    requires s.levels == InObject(s.levels.counter) && s.inValue && s.value == ""
    requires |s.name| < nameLen && 1 <= valueLen && IsInner(InNested(s.levels.counter), w)
    ensures Run(s, ['{'] + (w + (['}'] + rest)), nameLen, valueLen)
         == (s.(value := Cut(['{'] + w + ['}'], valueLen - 1)), rest)
  {
    hide IsDeep, NextAll, Step, Run;
    var s1 := Store(s, '{', nameLen, valueLen).(levels := InNested(s.levels.counter));
    Openers(s, nameLen, valueLen);
    RunStep(s, '{', w + (['}'] + rest), nameLen, valueLen);
    CopiedUpTo(s1, w, '}', rest, nameLen, valueLen);
    var v := ['{'] + (w + ['}']);
    assert v[1..] == w + ['}'] && s.value + v == ['{'] + w + ['}'];
    StoreAllStep(s, v, nameLen, valueLen);
  }

  /** A list is copied too, but the call goes on behind it. */
  lemma ListIsCopied(s: Scan, w: string, rest: string, nameLen: nat, valueLen: nat)
    requires s.levels == InObject(s.levels.counter) && s.inValue && s.value == ""
    requires |s.name| < nameLen && 1 <= valueLen && IsInner(InList(s.levels.counter), w)
    ensures Run(s, ['['] + (w + ([']'] + rest)), nameLen, valueLen)
         == Run(s.(value := Cut(['['] + w + [']'], valueLen - 1)), rest, nameLen, valueLen)
  {
    hide IsDeep, NextAll, Step, Run;
    var s1 := Store(s, '[', nameLen, valueLen).(levels := InList(s.levels.counter));
    var s2 := StoreAll(s1, w, nameLen, valueLen);
    Openers(s, nameLen, valueLen);
    RunStep(s, '[', w + ([']'] + rest), nameLen, valueLen);
    RunDeep(s1, w, [']'] + rest, nameLen, valueLen);
    ClosersAct(s2, nameLen, valueLen);
    RunStep(s2, ']', rest, nameLen, valueLen);
    assert Store(s2, ']', nameLen, valueLen).value == Cut(['['] + w + [']'], valueLen - 1);
  }

  /** So the comma behind a nested object makes the next call report the end, although members follow. */
  lemma CommaAfterNested(counter: nat, after: string, rest: string, nameLen: nat, valueLen: nat, n: nat)
    requires AllSpace(after) && nameLen >= 1
    ensures Replies(InObject(counter), after + ([','] + rest), nameLen, valueLen, n + 1)
         == [NO_MORE] + Replies(InObject(counter), rest, nameLen, valueLen, n)
  {
    hide Run, AllSpace;
    var s := Begin(InObject(counter));
    RunSpaces(s, after, [','] + rest, nameLen, valueLen);
    RunStep(s, ',', rest, nameLen, valueLen);
  }

  // ---------------------------------------------------------------- members of any kind

  /** A member whose value is a token, an object, or a list. */
  datatype Item =
    | Flat(member: Member)
    | Nested(key: Token, inner: string, before: string, afterKey: string, beforeValue: string, after: string)
    | Listed(key: Token, inner: string, before: string, afterKey: string, beforeValue: string, after: string)

  predicate LegalItem(t: Item) {
    match t
    case Flat(m) => LegalMember(m)
    case Nested(key, inner, before, afterKey, beforeValue, after) =>
      && Legal(key, true) && IsInner(InNested(0), inner)
      && AllSpace(before) && AllSpace(afterKey) && AllSpace(beforeValue) && AllSpace(after)
    case Listed(key, inner, before, afterKey, beforeValue, after) =>
      && Legal(key, true) && IsInner(InList(0), inner)
      && AllSpace(before) && AllSpace(afterKey) && AllSpace(beforeValue) && AllSpace(after)
  }

  predicate LegalItems(ts: seq<Item>) {
    forall i | 0 <= i < |ts| :: LegalItem(ts[i])
  }

  /** A value in its brackets. */
  function Bracketed(t: Item): string
    requires !t.Flat?
  {
    if t.Nested? then ['{'] + (t.inner + ['}']) else ['['] + (t.inner + [']'])
  }

  function ShowBracketed(t: Item): string
    requires !t.Flat?
  {
    t.before + (Show(t.key) + (t.afterKey + ([':'] + (t.beforeValue + (Bracketed(t) + t.after)))))
  }

  function ShowItem(t: Item): string {
    if t.Flat? then ShowMember(t.member) else ShowBracketed(t)
  }

  function ShowItems(ts: seq<Item>): string {
    if |ts| == 0 then ""
    else if |ts| == 1 then ShowItem(ts[0])
    else ShowItem(ts[0]) + ([','] + ShowItems(ts[1..]))
  }

  function ItemReply(t: Item, nameLen: nat, valueLen: nat): (r: Reply)
    requires nameLen >= 1 && valueLen >= 1
    ensures r.ret
  {
    if t.Flat? then MemberReply(t.member, nameLen, valueLen)
    else Reply(true, Cut(t.key.text, nameLen - 1), Cut(Bracketed(t), valueLen - 1))
  }

  function ItemReplies(ts: seq<Item>, nameLen: nat, valueLen: nat): (r: seq<Reply>)
    requires nameLen >= 1 && valueLen >= 1
    ensures |r| == |ts|
  {
    if |ts| == 0 then [] else [ItemReply(ts[0], nameLen, valueLen)] + ItemReplies(ts[1..], nameLen, valueLen)
  }

  /** What all the calls report: the end also comes behind every nested object that another member follows. */
  function Heard(ts: seq<Item>, nameLen: nat, valueLen: nat): (r: seq<Reply>)
    requires nameLen >= 1 && valueLen >= 1
    ensures |r| >= |ts|
  {
    if |ts| == 0 then []
    else
      [ItemReply(ts[0], nameLen, valueLen)] + (if ts[0].Nested? && |ts| > 1 then [NO_MORE] else [])
      + Heard(ts[1..], nameLen, valueLen)
  }

  /** A call up to the value of such a member. */
  lemma RunToValue(t: Item, counter: nat, rest: string, nameLen: nat, valueLen: nat)
    requires !t.Flat? && LegalItem(t) && nameLen >= 1 && valueLen >= 1
    ensures Run(Begin(InObject(counter)), ShowBracketed(t) + rest, nameLen, valueLen)
         == Run(KeyScan(t.key, counter, nameLen), Bracketed(t) + (t.after + rest), nameLen, valueLen)
  {
    hide Step, Run, Legal, AllSpace, Show, IsInner, Bracketed;
    var s0 := Begin(InObject(counter));
    var s1 := StoreAll(s0, t.key.text, nameLen, valueLen);
    var t5 := Bracketed(t) + (t.after + rest);
    var t3 := [':'] + (t.beforeValue + t5);
    assert ShowBracketed(t) + rest == t.before + (Show(t.key) + (t.afterKey + t3));
    RunSpaces(s0, t.before, Show(t.key) + (t.afterKey + t3), nameLen, valueLen);
    RunToken(s0, t.key, t.afterKey + t3, nameLen, valueLen);
    RunSpaces(s1, t.afterKey, t3, nameLen, valueLen);
    DividerTurns(s1, nameLen, valueLen);
    RunStep(s1, ':', t.beforeValue + t5, nameLen, valueLen);
    RunSpaces(s1.(inValue := true), t.beforeValue, t5, nameLen, valueLen);
    assert "" + t.key.text == t.key.text;
  }

  /** The scan behind its value. */
  function ItemScan(t: Item, counter: nat, nameLen: nat, valueLen: nat): Scan
    requires nameLen >= 1 && valueLen >= 1
  {
    var r := ItemReply(t, nameLen, valueLen);
    Scan(InObject(counter), false, false, true, r.name, r.value)
  }

  lemma RunNestedItem(t: Item, counter: nat, rest: string, nameLen: nat, valueLen: nat)
    requires t.Nested? && LegalItem(t) && nameLen >= 1 && valueLen >= 1
    ensures Run(Begin(InObject(counter)), ShowItem(t) + rest, nameLen, valueLen)
         == (ItemScan(t, counter, nameLen, valueLen), t.after + rest)
  {
    hide Run, Legal, AllSpace, Show, IsDeep, NextAll, ShowBracketed;
    CounterIsNotSeen(InNested(0), t.inner, counter);
    RunToValue(t, counter, rest, nameLen, valueLen);
    assert Bracketed(t) + (t.after + rest) == ['{'] + (t.inner + (['}'] + (t.after + rest)));
    assert ['{'] + t.inner + ['}'] == Bracketed(t);
    NestedValueIsCopied(KeyScan(t.key, counter, nameLen), t.inner, t.after + rest, nameLen, valueLen);
  }

  lemma RunListedItem(t: Item, counter: nat, rest: string, nameLen: nat, valueLen: nat)
    requires t.Listed? && LegalItem(t) && nameLen >= 1 && valueLen >= 1
    ensures Run(Begin(InObject(counter)), ShowItem(t) + rest, nameLen, valueLen)
         == Run(ItemScan(t, counter, nameLen, valueLen), rest, nameLen, valueLen)
  {
    hide Run, Legal, AllSpace, Show, IsDeep, NextAll, ShowBracketed;
    CounterIsNotSeen(InList(0), t.inner, counter);
    RunToValue(t, counter, rest, nameLen, valueLen);
    assert Bracketed(t) + (t.after + rest) == ['['] + (t.inner + ([']'] + (t.after + rest)));
    assert ['['] + t.inner + [']'] == Bracketed(t);
    ListIsCopied(KeyScan(t.key, counter, nameLen), t.inner, t.after + rest, nameLen, valueLen);
    RunSpaces(ItemScan(t, counter, nameLen, valueLen), t.after, rest, nameLen, valueLen);
  }

  /** What ends a call behind a value: a comma is consumed, a closing brace is put back. */
  lemma ItemEnds(t: Item, counter: nat, rest: string, nameLen: nat, valueLen: nat)
    requires nameLen >= 1 && valueLen >= 1
    ensures var s := ItemScan(t, counter, nameLen, valueLen);
            && Run(s, [','] + rest, nameLen, valueLen) == (s, rest)
            && Run(s, ['}'] + rest, nameLen, valueLen) == (s.(levels := Levels(0, 0, '{', counter)), ['}'] + rest)
  {
    hide ItemReply;
    var s := ItemScan(t, counter, nameLen, valueLen);
    RunStep(s, ',', rest, nameLen, valueLen);
    RunStep(s, '}', rest, nameLen, valueLen);
  }

  /** A token or a list leaves the call going. */
  lemma RunItem(t: Item, counter: nat, rest: string, nameLen: nat, valueLen: nat)
    requires !t.Nested? && LegalItem(t) && nameLen >= 1 && valueLen >= 1
    ensures Run(Begin(InObject(counter)), ShowItem(t) + rest, nameLen, valueLen)
         == Run(ItemScan(t, counter, nameLen, valueLen), rest, nameLen, valueLen)
  {
    hide Run, LegalMember, ShowMember, ShowBracketed;
    if t.Flat? {
      RunMember(t.member, counter, rest, nameLen, valueLen);
    } else {
      RunListedItem(t, counter, rest, nameLen, valueLen);
    }
  }

  lemma ItemScanReplies(t: Item, counter: nat, nameLen: nat, valueLen: nat)
    requires nameLen >= 1 && valueLen >= 1
    ensures var s := ItemScan(t, counter, nameLen, valueLen);
            && ReplyOf(s, nameLen, valueLen) == ItemReply(t, nameLen, valueLen) && LevelsAfter(s) == s.levels
            && var e := s.(levels := Levels(0, 0, '{', counter));
               ReplyOf(e, nameLen, valueLen) == ItemReply(t, nameLen, valueLen) && LevelsAfter(e) == e.levels
  {
    hide Bracketed;
  }

  /** One call takes a member and, unless it is nested, the comma behind it. */
  lemma ItemIsHeard(t: Item, counter: nat, rest: string, nameLen: nat, valueLen: nat, n: nat)
    requires LegalItem(t) && nameLen >= 1 && valueLen >= 1
    ensures var left := if t.Nested? then t.after + ([','] + rest) else rest;
            Replies(InObject(counter), ShowItem(t) + ([','] + rest), nameLen, valueLen, n + 1)
              == [ItemReply(t, nameLen, valueLen)] + Replies(InObject(counter), left, nameLen, valueLen, n)
  {
    hide Run, LegalItem, ShowItem, ItemReply, ReplyOf, LevelsAfter;
    ItemScanReplies(t, counter, nameLen, valueLen);
    if t.Nested? {
      RunNestedItem(t, counter, [','] + rest, nameLen, valueLen);
    } else {
      RunItem(t, counter, [','] + rest, nameLen, valueLen);
      ItemEnds(t, counter, rest, nameLen, valueLen);
    }
  }

  /** The last one, and the closing brace. */
  lemma LastIsHeard(t: Item, counter: nat, post: string, nameLen: nat, valueLen: nat)
    requires LegalItem(t) && nameLen >= 1 && valueLen >= 1
    ensures Replies(InObject(counter), ShowItem(t) + (['}'] + post), nameLen, valueLen, 2)
         == [ItemReply(t, nameLen, valueLen), NO_MORE]
  {
    hide Run, LegalItem, ShowItem, ItemReply, ReplyOf, LevelsAfter, AllSpace;
    ItemScanReplies(t, counter, nameLen, valueLen);
    if t.Nested? {
      RunNestedItem(t, counter, ['}'] + post, nameLen, valueLen);
      assert AllSpace(t.after) by { AfterIsSpace(t); }
      BraceAfter(InObject(counter), t.after, post, nameLen, valueLen);
    } else {
      RunItem(t, counter, ['}'] + post, nameLen, valueLen);
      ItemEnds(t, counter, post, nameLen, valueLen);
      assert "" + (['}'] + post) == ['}'] + post;
      NothingIsSpace();
      BraceAfter(Levels(0, 0, '{', counter), "", post, nameLen, valueLen);
    }
  }

  lemma NothingIsSpace()
    ensures AllSpace("")
  {}

  /** The brace that is left makes the next call report the end. */
  lemma BraceAfter(l: Levels, space: string, post: string, nameLen: nat, valueLen: nat)
    requires AllSpace(space) && nameLen >= 1 && (l.curly == 0 || l.curly == 1) && l.square == 0 && l.base == '{'
    ensures Replies(l, space + (['}'] + post), nameLen, valueLen, 1) == [NO_MORE]
  {
    hide Run, AllSpace;
    RunSpaces(Begin(l), space, ['}'] + post, nameLen, valueLen);
    AfterObject(l, post, nameLen, valueLen);
  }

  lemma {:induction false} ItemsAreHeard(ts: seq<Item>, counter: nat, post: string, nameLen: nat, valueLen: nat)
    requires |ts| > 0 && LegalItems(ts) && nameLen >= 1 && valueLen >= 1
    ensures Replies(InObject(counter), ShowItems(ts) + (['}'] + post), nameLen, valueLen,
                    |Heard(ts, nameLen, valueLen)| + 1)
         == Heard(ts, nameLen, valueLen) + [NO_MORE]
    decreases |ts|
  {
    hide Replies, LegalItem, ShowItem, ItemReply;
    var t := ts[0];
    assert LegalItem(t);
    if |ts| == 1 {
      LastIsHeard(t, counter, post, nameLen, valueLen);
      assert Heard(ts[1..], nameLen, valueLen) == [];
      assert Heard(ts, nameLen, valueLen) == [ItemReply(t, nameLen, valueLen)];
    } else {
      var rest := ShowItems(ts[1..]) + (['}'] + post);
      assert ShowItems(ts) + (['}'] + post) == ShowItem(t) + ([','] + rest);
      ItemsAreHeard(ts[1..], counter, post, nameLen, valueLen);
      FirstIsHeard(t, counter, rest, Heard(ts[1..], nameLen, valueLen), nameLen, valueLen);
    }
  }

  /** An item that another one follows. */
  lemma FirstIsHeard(t: Item, counter: nat, rest: string, more: seq<Reply>, nameLen: nat, valueLen: nat)
    requires LegalItem(t) && nameLen >= 1 && valueLen >= 1
    requires Replies(InObject(counter), rest, nameLen, valueLen, |more| + 1) == more + [NO_MORE]
    ensures var all := [ItemReply(t, nameLen, valueLen)] + (if t.Nested? then [NO_MORE] else []) + more;
            Replies(InObject(counter), ShowItem(t) + ([','] + rest), nameLen, valueLen, |all| + 1) == all + [NO_MORE]
  {
    hide Replies, LegalItem, ShowItem, ItemReply;
    if t.Nested? {
      ItemIsHeard(t, counter, rest, nameLen, valueLen, |more| + 2);
      assert AllSpace(t.after) by { AfterIsSpace(t); }
      CommaAfterNested(counter, t.after, rest, nameLen, valueLen, |more| + 1);
    } else {
      ItemIsHeard(t, counter, rest, nameLen, valueLen, |more| + 1);
    }
  }

  lemma AfterIsSpace(t: Item)
    requires t.Nested? && LegalItem(t)
    ensures AllSpace(t.after)
  {}

  function ShowItemObject(pre: string, inner: string, ts: seq<Item>, post: string): string {
    pre + (['{'] + (inner + (ShowItems(ts) + (['}'] + post))))
  }

  /** The whole object, from its opening brace: exactly what all the calls report. */
  lemma ObjectIsHeard(ts: seq<Item>, counter: nat, pre: string, inner: string, post: string, nameLen: nat,
                      valueLen: nat)
    requires LegalItems(ts) && AllSpace(pre) && AllSpace(inner) && nameLen >= 1 && valueLen >= 1
    ensures Replies(Levels(0, 0, NUL, counter), ShowItemObject(pre, inner, ts, post), nameLen, valueLen,
                    |Heard(ts, nameLen, valueLen)| + 1)
         == Heard(ts, nameLen, valueLen) + [NO_MORE]
  {
    hide Run, LegalItem, AllSpace, Heard;
    var body := ShowItems(ts) + (['}'] + post);
    Opens(counter, '{', pre, inner + body, nameLen, valueLen);
    RunSpaces(Begin(InObject(counter)), inner, body, nameLen, valueLen);
    if |ts| == 0 {
      assert Heard(ts, nameLen, valueLen) == [] by { NothingIsHeard(nameLen, valueLen); }
      assert body == ['}'] + post;
      AfterObject(InObject(counter), post, nameLen, valueLen);
      assert Replies(Levels(0, 0, NUL, counter), ShowItemObject(pre, inner, ts, post), nameLen, valueLen, 1)
          == [NO_MORE];
    } else {
      ItemsAreHeard(ts, counter, post, nameLen, valueLen);
    }
  }

  lemma NothingIsHeard(nameLen: nat, valueLen: nat)
    requires nameLen >= 1 && valueLen >= 1
    ensures Heard([], nameLen, valueLen) == []
  {}

  // ---------------------------------------------------------------- when the members survive

  /** No member but the last holds an object. */
  predicate OnlyLastIsNested(ts: seq<Item>) {
    forall i | 0 <= i < |ts| - 1 :: !ts[i].Nested?
  }

  lemma {:induction false} HeardIsReplies(ts: seq<Item>, nameLen: nat, valueLen: nat)
    requires nameLen >= 1 && valueLen >= 1
    ensures (Heard(ts, nameLen, valueLen) + [NO_MORE])[..|ts| + 1] == ItemReplies(ts, nameLen, valueLen) + [NO_MORE]
       <==> OnlyLastIsNested(ts)
  {
    hide ItemReply;
    if |ts| > 1 {
      var r, more := ItemReply(ts[0], nameLen, valueLen), Heard(ts[1..], nameLen, valueLen);
      var all, wanted := Heard(ts, nameLen, valueLen) + [NO_MORE], ItemReplies(ts, nameLen, valueLen) + [NO_MORE];
      HeardIsReplies(ts[1..], nameLen, valueLen);
      assert wanted == [r] + (ItemReplies(ts[1..], nameLen, valueLen) + [NO_MORE]);
      if !ts[0].Nested? {
        assert all == [r] + (more + [NO_MORE]);
        assert all[..|ts| + 1] == [r] + (more + [NO_MORE])[..|ts|];
        assert all[..|ts| + 1][1..] == (more + [NO_MORE])[..|ts|];
        assert wanted[1..] == ItemReplies(ts[1..], nameLen, valueLen) + [NO_MORE];
        FirstIsNotNested(ts);
      } else {
        assert all[1] == NO_MORE;
        assert wanted[1] == ItemReply(ts[1], nameLen, valueLen);
        assert all[..|ts| + 1][1] == all[1];
      }
    }
  }

  lemma FirstIsNotNested(ts: seq<Item>)
    requires |ts| > 1 && !ts[0].Nested?
    ensures OnlyLastIsNested(ts) <==> OnlyLastIsNested(ts[1..])
  {
    if OnlyLastIsNested(ts[1..]) {
      forall i | 0 <= i < |ts| - 1 ensures !ts[i].Nested? {
        assert i > 0 ==> ts[i] == ts[1..][i - 1];
      }
    }
  }

  /**
   One call for each member gives the members, and one more the end, if and only if no member
   but the last holds an object.
   */
  lemma NestedRoundTrip(ts: seq<Item>, counter: nat, pre: string, inner: string, post: string, nameLen: nat,
                        valueLen: nat)
    requires LegalItems(ts) && AllSpace(pre) && AllSpace(inner) && nameLen >= 1 && valueLen >= 1
    ensures Replies(Levels(0, 0, NUL, counter), ShowItemObject(pre, inner, ts, post), nameLen, valueLen, |ts| + 1)
              == ItemReplies(ts, nameLen, valueLen) + [NO_MORE]
       <==> OnlyLastIsNested(ts)
  {
    hide Replies, LegalItems, AllSpace, Heard, ItemReplies, ShowItemObject, OnlyLastIsNested;
    ObjectIsHeard(ts, counter, pre, inner, post, nameLen, valueLen);
    FewerReplies(Levels(0, 0, NUL, counter), ShowItemObject(pre, inner, ts, post), nameLen, valueLen, |ts| + 1,
                 |Heard(ts, nameLen, valueLen)| + 1);
    HeardIsReplies(ts, nameLen, valueLen);
  }

  /** The smallest such object: the second call reports the end, and the third the second member. */
  lemma MemberBehindNested(nameLen: nat, valueLen: nat)
    requires nameLen >= 2 && valueLen >= 3
    ensures Replies(INITIAL, "{a:{},b:c}", nameLen, valueLen, 4)
         == [Reply(true, "a", "{}"), NO_MORE, Reply(true, "b", "c"), NO_MORE]
  {
    hide Replies, ShowItemObject, ShowItems;
    var ts := [Nested(Bare("a"), "", "", "", "", ""), Flat(Member(Bare("b"), Bare("c"), "", "", "", ""))];
    TwoMembers(nameLen, valueLen);
    var first, second := ItemReply(ts[0], nameLen, valueLen), ItemReply(ts[1], nameLen, valueLen);
    assert ts[1..][1..] == [];
    assert Heard(ts[1..], nameLen, valueLen) == [second] + [] + [];
    assert Heard(ts, nameLen, valueLen) == [first] + [NO_MORE] + Heard(ts[1..], nameLen, valueLen);
    ObjectIsHeard(ts, 0, "", "", "", nameLen, valueLen);
  }

  lemma TwoMembers(nameLen: nat, valueLen: nat)
    requires nameLen >= 2 && valueLen >= 3
    ensures var ts := [Nested(Bare("a"), "", "", "", "", ""), Flat(Member(Bare("b"), Bare("c"), "", "", "", ""))];
            && ShowItemObject("", "", ts, "") == "{a:{},b:c}" && LegalItems(ts)
            && ItemReply(ts[0], nameLen, valueLen) == Reply(true, "a", "{}")
            && ItemReply(ts[1], nameLen, valueLen) == Reply(true, "b", "c")
  {
    var m := Member(Bare("b"), Bare("c"), "", "", "", "");
    var ts := [Nested(Bare("a"), "", "", "", "", ""), Flat(m)];
    assert ShowItems(ts[1..]) == ShowMember(m) == "b:c";
    assert ShowBracketed(ts[0]) == "a:{}";
    assert Cut("a", nameLen - 1) == "a" && Cut("b", nameLen - 1) == "b";
    assert ['{'] + ("" + ['}']) == "{}";
    assert Cut("{}", valueLen - 1) == "{}" && Cut("c", valueLen - 1) == "c";
  }

  /** A list does not end its call: the two calls report both members. */
  lemma MemberBehindList(nameLen: nat, valueLen: nat)
    requires nameLen >= 2 && valueLen >= 4
    ensures Replies(INITIAL, "{a:[b],c:d}", nameLen, valueLen, 3)
         == [Reply(true, "a", "[b]"), Reply(true, "c", "d"), NO_MORE]
  {
    hide Replies, ShowItemObject, ShowItems;
    var ts := [Listed(Bare("a"), "b", "", "", "", ""), Flat(Member(Bare("c"), Bare("d"), "", "", "", ""))];
    ListAndMember(nameLen, valueLen);
    assert ts[1..][1..] == [];
    assert ItemReplies(ts[1..], nameLen, valueLen) == [ItemReply(ts[1], nameLen, valueLen)];
    NestedRoundTrip(ts, 0, "", "", "", nameLen, valueLen);
  }

  lemma ListAndMember(nameLen: nat, valueLen: nat)
    requires nameLen >= 2 && valueLen >= 4
    ensures var ts := [Listed(Bare("a"), "b", "", "", "", ""), Flat(Member(Bare("c"), Bare("d"), "", "", "", ""))];
            && ShowItemObject("", "", ts, "") == "{a:[b],c:d}" && LegalItems(ts)
            && ItemReply(ts[0], nameLen, valueLen) == Reply(true, "a", "[b]")
            && ItemReply(ts[1], nameLen, valueLen) == Reply(true, "c", "d")
  {
    var m := Member(Bare("c"), Bare("d"), "", "", "", "");
    var ts := [Listed(Bare("a"), "b", "", "", "", ""), Flat(m)];
    assert ShowItems(ts[1..]) == ShowMember(m) == "c:d";
    assert ShowBracketed(ts[0]) == "a:[b]";
    assert Cut("a", nameLen - 1) == "a" && Cut("c", nameLen - 1) == "c";
    assert ['['] + ("b" + [']']) == "[b]";
    assert Cut("[b]", valueLen - 1) == "[b]" && Cut("d", valueLen - 1) == "d";
  }
}
