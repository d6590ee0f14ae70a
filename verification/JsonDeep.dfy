/**
 Text behind two or more open brackets: every character is copied, and only some closing brackets end
 the call.
 */
module JsonDeep {
  import opened Text
  import opened JsonParam
  import opened JsonLaws

  // ---------------------------------------------------------------- open brackets

  /** The brackets that are open behind one more character. */
  function Next(l: Levels, c: char): Levels {
    if c == '{' then l.(curly := l.curly + 1)
    else if c == '}' && l.curly > 0 then l.(curly := l.curly - 1)
    else if c == '[' then l.(square := l.square + 1)
    else if c == ']' && l.square > 0 then l.(square := l.square - 1)
    else l
  }

  function NextAll(l: Levels, w: string): Levels
    decreases |w|
  {
    if |w| == 0 then l else NextAll(Next(l, w[0]), w[1..])
  }

  /** At least two are open, and no more than a byte can count. */
  predicate IsOpen(l: Levels) {
    2 <= l.curly + l.square <= 255
  }

  /** A closing bracket that ends the call, or that the first bracket of the text or none at all matches. */
  predicate Acts(l: Levels, c: char) {
    || (c == '}' && l.curly <= 2)
    || (c == ']' && (l.square == 0 || l.square == 2 || (l.square == 1 && l.base == '[')))
  }

  /** A text all along which two brackets stay open and none of those acts. */
  predicate IsDeep(l: Levels, w: string)
    decreases |w|
  {
    IsOpen(l) && (|w| == 0 || (!Acts(l, w[0]) && IsDeep(Next(l, w[0]), w[1..])))
  }

  lemma DeepStep(s: Scan, c: char, nameLen: nat, valueLen: nat)
    requires IsOpen(s.levels) && !Acts(s.levels, c) && IsOpen(Next(s.levels, c))
    ensures Step(s, c, nameLen, valueLen) == Go(Store(s, c, nameLen, valueLen).(levels := Next(s.levels, c)))
  {
    hide Store, IsSpace;
  }

  lemma DeepUnfolds(l: Levels, w: string)
    requires IsDeep(l, w)
    ensures IsOpen(l)
    ensures |w| == 0 ==> NextAll(l, w) == l
    ensures |w| > 0 ==>
              && !Acts(l, w[0]) && IsOpen(Next(l, w[0])) && IsDeep(Next(l, w[0]), w[1..])
              && NextAll(l, w) == NextAll(Next(l, w[0]), w[1..])
  {}

  /** All of it is copied: brackets, quotes, commas, colons and space. */
  lemma {:induction false} RunDeep(s: Scan, w: string, rest: string, nameLen: nat, valueLen: nat)
    requires IsDeep(s.levels, w) && |s.name| < nameLen && |s.value| < valueLen
    ensures Run(s, w + rest, nameLen, valueLen)
         == Run(StoreAll(s, w, nameLen, valueLen).(levels := NextAll(s.levels, w)), rest, nameLen, valueLen)
    decreases |w|
  {
    hide Step, IsDeep, IsOpen, Acts, Next, NextAll;
    DeepUnfolds(s.levels, w);
    if |w| == 0 {
      assert w + rest == rest && s.name + w == s.name && s.value + w == s.value;
    } else {
      DeepStep(s, w[0], nameLen, valueLen);
      assert (w + rest)[1..] == w[1..] + rest;
      StoreAllStep(s, w, nameLen, valueLen);
      var t := Store(s, w[0], nameLen, valueLen).(levels := Next(s.levels, w[0]));
      RunDeep(t, w[1..], rest, nameLen, valueLen);
    }
  }

  /**
   What the closing brackets do there.  A brace is copied, and ends the call when one brace at most is left, but the
   last one of an object is put back.  A square bracket is copied, and ends the call when just one is left, but the
   last one of an array is dropped and ends it.
   */
  lemma ClosersAct(s: Scan, nameLen: nat, valueLen: nat)
    requires IsOpen(s.levels)
    ensures var l, t := s.levels, Store(s, '}', nameLen, valueLen);
            var next := Step(s, '}', nameLen, valueLen);
            && (l.curly > 2 ==> next == Go(t.(levels := l.(curly := l.curly - 1))))
            && (l.curly == 2 ==> next == Stop(t.(levels := l.(curly := 1))))
            && (l.curly == 1 && l.base != '{' ==> next == Stop(t.(levels := l.(curly := 0))))
            && (l.curly == 1 && l.base == '{' ==> next == StopAndPush(s.(levels := l.(curly := 0))))
    ensures var l, t := s.levels, Store(s, ']', nameLen, valueLen);
            var next := Step(s, ']', nameLen, valueLen);
            && (l.square > 2 ==> next == Go(t.(levels := l.(square := l.square - 1))))
            && (l.square == 2 ==> next == Stop(t.(levels := l.(square := 1))))
            && (l.square == 1 && l.base != '[' ==> next == Go(t.(levels := l.(square := 0))))
            && (l.square == 1 && l.base == '[' ==> next == Stop(s.(levels := l.(square := 0))))
  {}

  /** So a call ends behind such a text at the first brace or square bracket that leaves one of its kind. */
  lemma CopiedUpTo(s: Scan, w: string, c: char, rest: string, nameLen: nat, valueLen: nat)
    requires IsDeep(s.levels, w) && |s.name| < nameLen && |s.value| < valueLen && nameLen >= 1 && valueLen >= 1
    requires var l := NextAll(s.levels, w);
             || (c == '}' && (l.curly == 2 || (l.curly == 1 && l.base == '['))) || (c == ']' && l.square == 2)
    ensures Run(s, w + ([c] + rest), nameLen, valueLen)
         == (StoreAll(s, w + [c], nameLen, valueLen).(levels := Next(NextAll(s.levels, w), c)), rest)
  {
    hide Step, IsDeep, Run, NextAll;
    var t := StoreAll(s, w, nameLen, valueLen).(levels := NextAll(s.levels, w));
    RunDeep(s, w, [c] + rest, nameLen, valueLen);
    EndIsOpen(s.levels, w);
    ClosersAct(t, nameLen, valueLen);
    RunStep(t, c, rest, nameLen, valueLen);
    StoreOneMore(s, w, c, nameLen, valueLen);
  }

  lemma {:induction false} EndIsOpen(l: Levels, w: string)
    requires IsDeep(l, w)
    ensures IsOpen(NextAll(l, w)) && NextAll(l, w).base == l.base && NextAll(l, w).counter == l.counter
    decreases |w|
  {
    if |w| > 0 {
      EndIsOpen(Next(l, w[0]), w[1..]);
    }
  }

  lemma StoreOneMore(s: Scan, w: string, c: char, nameLen: nat, valueLen: nat)
    requires |s.name| < nameLen && |s.value| < valueLen
    ensures Store(StoreAll(s, w, nameLen, valueLen), c, nameLen, valueLen) == StoreAll(s, w + [c], nameLen, valueLen)
  {
    assert s.value + (w + [c]) == s.value + w + [c] && s.name + (w + [c]) == s.name + w + [c];
  }

  // ---------------------------------------------------------------- what may stand between two brackets

  /** A text that leaves the brackets as they were. */
  predicate IsInner(l: Levels, w: string) {
    IsDeep(l, w) && NextAll(l, w) == l
  }

  /** Any text without brackets is one. */
  lemma {:induction false} PlainIsInner(l: Levels, w: string)
    requires IsOpen(l) && forall i | 0 <= i < |w| :: !IsBracket(w[i])
    ensures IsInner(l, w)
  {
    if |w| > 0 {
      PlainIsInner(l, w[1..]);
    }
  }

  /** How many elements were counted makes no difference. */
  lemma {:induction false} CounterIsNotSeen(l: Levels, w: string, counter: nat)
    ensures IsDeep(l.(counter := counter), w) <==> IsDeep(l, w)
    ensures NextAll(l.(counter := counter), w) == NextAll(l, w).(counter := counter)
    decreases |w|
  {
    if |w| > 0 {
      CounterIsNotSeen(Next(l, w[0]), w[1..], counter);
    }
  }

  // ---------------------------------------------------------------- text outside all brackets

  /** Outside, quotes come in pairs, space between them is dropped, and the first bracket is the base. */
  lemma OutsideStep(s: Scan, c: char, nameLen: nat, valueLen: nat)
    requires s.levels.curly == 0 && s.levels.square == 0
    ensures var next, l := Step(s, c, nameLen, valueLen), s.levels;
            if IsSpace(c) && !s.single && !s.double then next == Go(s)
            else if c == '\'' && !s.double then next == Go(s.(single := !s.single))
            else if c == '"' && !s.single then next == Go(s.(double := !s.double))
            else if c == '{' then
              next == Go(s.(levels := Levels(1, 0, if l.base == NUL then c else l.base, l.counter)))
            else if c == '[' then
              next == Go(s.(levels := Levels(0, 1, if l.base == NUL then c else l.base, l.counter)))
            else if c == '}' && s.levels.base == '{' then next == StopAndPush(s.(levels := s.levels.(curly := 255)))
            else if c == '}' then next == Go(Store(s, c, nameLen, valueLen).(levels := s.levels.(curly := 255)))
            else if c == ']' then next == Go(Store(s, c, nameLen, valueLen).(levels := s.levels.(square := 255)))
            else next == Go(Store(s, c, nameLen, valueLen))
  {}

  /** The brackets that do not fit the one that is open: a closing one is copied, and its count wraps. */
  lemma StrayClosers(s: Scan, nameLen: nat, valueLen: nat)
    ensures s.levels == InObject(s.levels.counter) ==>
              Step(s, ']', nameLen, valueLen)
                == Go(Store(s, ']', nameLen, valueLen).(levels := s.levels.(square := 255)))
    ensures s.levels == InArray(s.levels.counter) ==>
              Step(s, '}', nameLen, valueLen)
                == Go(Store(s, '}', nameLen, valueLen).(levels := s.levels.(curly := 255)))
  {}

  /** Neither a bracket, nor a quote, nor space. */
  predicate IsLoose(w: string) {
    forall i | 0 <= i < |w| :: !IsBracket(w[i]) && w[i] != '\'' && w[i] != '"' && !IsSpace(w[i])
  }

  lemma {:induction false} RunLoose(s: Scan, w: string, nameLen: nat, valueLen: nat)
    requires s.levels.curly == 0 && s.levels.square == 0 && !s.single && !s.double && IsLoose(w)
    requires |s.name| < nameLen && |s.value| < valueLen
    ensures Run(s, w, nameLen, valueLen) == (StoreAll(s, w, nameLen, valueLen), "")
    decreases |w|
  {
    if |w| == 0 {
      assert s.name + w == s.name && s.value + w == s.value;
    } else {
      StoreAllStep(s, w, nameLen, valueLen);
      RunLoose(Store(s, w[0], nameLen, valueLen), w[1..], nameLen, valueLen);
    }
  }

  lemma RunReplies(l: Levels, text: string, nameLen: nat, valueLen: nat)
    requires nameLen >= 1
    ensures Replies(l, text, nameLen, valueLen, 1)
         == [ReplyOf(Run(Begin(l), text, nameLen, valueLen).0, nameLen, valueLen)]
  {}

  /** A body without brackets is one element, with its commas and colons. */
  lemma LooseTextIsElement(w: string, nameLen: nat, valueLen: nat)
    requires IsLoose(w) && |w| > 0 && 2 <= nameLen <= valueLen
    ensures Replies(INITIAL, w, nameLen, valueLen, 1) == [Reply(true, "0", Cut(w, nameLen - 1))]
  {
    hide Run, IsLoose;
    RunLoose(Begin(INITIAL), w, nameLen, valueLen);
    var name := Cut(w, nameLen - 1);
    assert "" + w == w && Decimal(0) == "0" && Cut("0", nameLen - 1) == "0" && Cut(name, valueLen) == name;
    RunReplies(INITIAL, w, nameLen, valueLen);
  }
}
