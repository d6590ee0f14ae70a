/** Which sizes and which texts keep the form parser's NULs inside the buffers, and when a call reports the end. */
module FormLimits {
  import opened Text
  import opened FormText
  import opened FormLaws

  // ---------------------------------------------------------------- one pair

  lemma {:induction false} ShowAllSplits(ks: seq<Coded>, n: nat)
    requires n <= |ks|
    ensures ShowAll(ks) == ShowAll(ks[..n]) + ShowAll(ks[n..])
  {
    hide ShowCoded;
    if n == 0 {
      assert ks[0..] == ks;
    } else {
      ShowAllSplits(ks[1..], n - 1);
      assert ks[..n][1..] == ks[1..][..n - 1] && ks[1..][n - 1..] == ks[n..];
    }
  }

  /** A key that is at least as long as its buffer fills it. */
  lemma LongKeyFills(p: Pair, tail: string, nameSize: nat, valueSize: nat)
    requires LegalPair(p) && valueSize > 0 && |p.key| >= nameSize
    ensures |Run(Begin(nameSize, valueSize), ShowPair(p) + tail).0.name| >= nameSize
  {
    hide Run, Legal, ShowAll;
    var s, head := Begin(nameSize, valueSize), p.key[..nameSize];
    var t := ShowAll(p.key[nameSize..]) + (['='] + (ShowAll(p.value) + tail));
    ShowAllSplits(p.key, nameSize);
    assert ShowPair(p) + tail == p.lead + (ShowAll(head) + t);
    AmpsAreSkipped(s, p.lead, ShowAll(head) + t);
    PartIsLegal(p.key, nameSize);
    NameIsStored(s, head, t);
    RunKeeps(s.(name := s.name + Meanings(head), nameLen := 0), t);
  }

  lemma PartIsLegal(ks: seq<Coded>, n: nat)
    requires Legal(ks) && n <= |ks|
    ensures Legal(ks[..n])
  {}

  /** The same for a value, behind a name that is ended. */
  lemma LongValueFills(s: Scan, ks: seq<Coded>, rest: string)
    requires s.nameLen == 0 && Legal(ks) && |ks| >= s.valueLen
    ensures |Run(s, ShowAll(ks) + rest).0.value| >= |s.value| + s.valueLen
  {
    hide Run, Legal, ShowAll;
    var head, t := ks[..s.valueLen], ShowAll(ks[s.valueLen..]) + rest;
    ShowAllSplits(ks, s.valueLen);
    assert ShowAll(ks) + rest == ShowAll(head) + t;
    PartIsLegal(ks, s.valueLen);
    ValueIsStored(s, head, t);
    RunKeeps(s.(value := s.value + Meanings(head), valueLen := 0), t);
  }

  /**
   With arrays of the given sizes, the NULs behind a pair stay inside exactly when both of its
   texts are shorter than their sizes.
   */
  lemma PairHasRoom(p: Pair, tail: string, nameSize: nat, valueSize: nat)
    requires LegalPair(p) && EndsPair(tail) && valueSize > 0 && (|p.key| > 0 || |tail| == 0 || tail[0] == NUL)
    ensures HasRoom(ShowPair(p) + tail, nameSize, valueSize, nameSize, valueSize)
       <==> |p.key| < nameSize && |p.value| < valueSize
  {
    hide Run, Legal, ShowAll, EndsPair;
    if |p.key| >= nameSize {
      LongKeyFills(p, tail, nameSize, valueSize);
    } else if |p.value| >= valueSize {
      var s := Begin(nameSize, valueSize);
      var t := ['='] + (ShowAll(p.value) + tail);
      var s1 := s.(name := s.name + Meanings(p.key), nameLen := nameSize - |p.key|);
      assert ShowPair(p) + tail == p.lead + (ShowAll(p.key) + t);
      AmpsAreSkipped(s, p.lead, ShowAll(p.key) + t);
      NameIsStored(s, p.key, t);
      RunStep(s1, '=', ShowAll(p.value) + tail);
      LongValueFills(s1.(nameLen := 0), p.value, tail);
    } else {
      PairIsRead(p, tail, nameSize, valueSize);
    }
  }

  /** Texts that fill a buffer exactly: the name in the first, the value in the second. */
  lemma FullTextsNeedAByte()
    ensures !HasRoom("ab=c", 2, 8, 2, 8) && !HasRoom("a=bc", 8, 2, 8, 2)
  {
    hide HasRoom;
    var p, q := Pair("", [Plain('a'), Plain('b')], [Plain('c')]), Pair("", [Plain('a')], [Plain('b'), Plain('c')]);
    ShowTwo('a', 'b');
    ShowTwo('b', 'c');
    ShowOne('a');
    ShowOne('c');
    assert ShowPair(p) + "" == "ab=c" && ShowPair(q) + "" == "a=bc";
    PairHasRoom(p, "", 2, 8);
    PairHasRoom(q, "", 8, 2);
  }

  lemma ShowOne(a: char)
    ensures ShowAll([Plain(a)]) == [a]
  {
    assert ShowAll([Plain(a)][1..]) == "";
  }

  lemma ShowTwo(a: char, b: char)
    ensures ShowAll([Plain(a), Plain(b)]) == [a, b]
  {
    ShowOne(b);
    assert [Plain(a), Plain(b)][1..] == [Plain(b)];
  }

  // ---------------------------------------------------------------- the sizes

  function Letters(n: nat): seq<Coded> {
    seq(n, _ => Plain('a'))
  }

  lemma LettersAreLegal(n: nat)
    ensures Legal(Letters(n))
  {}

  /**
   Every text of a body leaves the NULs inside exactly when either array has a byte more than
   its given size.
   */
  lemma SizesDecideRoom(nameSize: nat, valueSize: nat, nameBytes: nat, valueBytes: nat)
    requires valueSize > 0
    ensures (forall body: string :: HasRoom(Strip(body), nameSize, valueSize, nameBytes, valueBytes))
       <==> nameSize < nameBytes && valueSize < valueBytes
    ensures (forall text: string :: HasRoom(text, nameSize, valueSize, nameBytes, valueBytes))
       <==> nameSize < nameBytes && valueSize < valueBytes
  {
    hide Run;
    var s := Begin(nameSize, valueSize);
    if nameSize < nameBytes && valueSize < valueBytes {
      forall text: string ensures HasRoom(text, nameSize, valueSize, nameBytes, valueBytes) {
        RunFits(s, text, nameSize, valueSize);
      }
    } else if nameSize >= nameBytes {
      var p := Pair("", Letters(nameSize + 1), []);
      LettersAreLegal(nameSize + 1);
      PairsAreKept([p]);
      assert ShowPair(p) + "" == ShowPair(p);
      LongKeyFills(p, "", nameSize, valueSize);
      assert !HasRoom(Strip(ShowPair(p)), nameSize, valueSize, nameBytes, valueBytes);
    } else {
      var text := ['='] + (ShowAll(Letters(valueSize)) + "");
      LettersAreLegal(valueSize);
      EqualsIsKept(Letters(valueSize));
      RunStep(s, '=', ShowAll(Letters(valueSize)) + "");
      LongValueFills(s.(nameLen := 0), Letters(valueSize), "");
      assert !HasRoom(Strip(text), nameSize, valueSize, nameBytes, valueBytes);
    }
  }

  lemma EqualsIsKept(ks: seq<Coded>)
    requires Legal(ks)
    ensures Strip(['='] + (ShowAll(ks) + "")) == ['='] + (ShowAll(ks) + "")
  {
    hide Strip, ShowAll, Legal;
    PunctuationIsKept();
    CodesAreKept(ks);
    assert ShowAll(ks) + "" == ShowAll(ks);
    StripConcat("=", ShowAll(ks));
  }

  // ---------------------------------------------------------------- where the end is reported

  /** Nothing but separators up to a NUL or the end. */
  predicate IsAtEnd(t: string) {
    |t| == 0 || t[0] == NUL || (IsSeparator(t[0]) && IsAtEnd(t[1..]))
  }

  /** A name goes on, with room for `room` more characters, and ends without a divider. */
  predicate IsUndivided(t: string, room: nat)
    decreases |t|
  {
    && room > 0
    && (|t| == 0 || t[0] == NUL || IsSeparator(t[0])
        || (t[0] != '=' && IsUndivided(if t[0] == '%' then AfterCode(t) else t[1..], room - 1)))
  }

  /** The same as the end, for a caller: a name that starts with a coded NUL and has no value. */
  predicate LooksLikeEnd(t: string, nameSize: nat) {
    if |t| == 0 || t[0] == NUL then true
    else if IsSeparator(t[0]) then LooksLikeEnd(t[1..], nameSize)
    else t[0] == '%' && Decode(t[1..]) == NUL && nameSize > 0 && IsUndivided(AfterCode(t), nameSize - 1)
  }

  /** Without codes there is only the real end. */
  lemma {:induction false} OnlyCodesLookLikeEnd(t: string, nameSize: nat)
    requires '%' !in t
    ensures LooksLikeEnd(t, nameSize) <==> IsAtEnd(t)
  {
    hide IsUndivided, Decode;
    if |t| > 0 && IsSeparator(t[0]) {
      OnlyCodesLookLikeEnd(t[1..], nameSize);
    }
  }

  lemma {:induction false} UndividedRun(s: Scan, t: string)
    requires s.valueLen > 0 && |s.name| > 0
    ensures var r := Run(s, t).0;
            && (r.nameLen > 0 <==> IsUndivided(t, s.nameLen)) && (r.nameLen > 0 ==> r.value == s.value)
    decreases |t|
  {
    hide Decode;
    if s.nameLen == 0 {
      RunKeeps(s, t);
    } else if |t| > 0 {
      var c, rest := t[0], t[1..];
      if c == '=' {
        RunKeeps(s.(nameLen := 0), rest);
      } else if c == '%' {
        UndividedRun(Store(s, Decode(rest)), AfterCode(t));
      } else if c != NUL && !IsSeparator(c) {
        UndividedRun(Store(s, c), rest);
      }
    }
  }

  lemma FirstIsNul(w: string)
    requires |w| > 0
    ensures CString(w) == "" <==> w[0] == NUL
  {}

  /** The next call reports the end exactly when what is left looks like it. */
  lemma EndIsReported(t: string, nameSize: nat, valueSize: nat)
    requires nameSize > 0 && valueSize > 0
    ensures Replies(t, nameSize, valueSize, 1) == [NO_MORE] <==> LooksLikeEnd(t, nameSize)
  {
    hide Run, ReplyOf, LooksLikeEnd;
    var first := Run(Begin(nameSize, valueSize), t);
    assert Replies(t, nameSize, valueSize, 1) == [ReplyOf(first.0)] + Replies(first.1, nameSize, valueSize, 0);
    assert Replies(t, nameSize, valueSize, 1)[0] == ReplyOf(first.0);
    EndOfRun(t, nameSize, valueSize);
  }

  lemma {:induction false} EndOfRun(t: string, nameSize: nat, valueSize: nat)
    requires nameSize > 0 && valueSize > 0
    ensures ReplyOf(Run(Begin(nameSize, valueSize), t).0) == NO_MORE <==> LooksLikeEnd(t, nameSize)
    decreases |t|
  {
    hide Decode, Run, IsUndivided;
    var s := Begin(nameSize, valueSize);
    if |t| == 0 {
      RunEnds(s, t);
    } else {
      var c, rest := t[0], t[1..];
      assert t == [c] + rest;
      RunStep(s, c, rest);
      if c == '=' {
        RunKeeps(s.(nameLen := 0), rest);
      } else if c != NUL && IsSeparator(c) {
        EndOfRun(rest, nameSize, valueSize);
      } else if c != NUL {
        var d, more := if c == '%' then Decode(rest) else c, if c == '%' then AfterCode(t) else rest;
        UndividedRun(Store(s, d), more);
        RunKeeps(Store(s, d), more);
        var r := Run(Store(s, d), more).0;
        assert r.name[0] == d;
        FirstIsNul(r.name);
      }
    }
  }

  // ---------------------------------------------------------------- the pairs of a target

  /**
   Nothing is left to report behind the pairs: there is none, or the last value filled its buffer, or the old bytes
   look like the end.
   */
  predicate IsFollowedByEnd(ps: seq<Pair>, after: string, nameSize: nat, valueSize: nat) {
    |ps| == 0 || |ps[|ps| - 1].value| == valueSize || LooksLikeEnd(after, nameSize)
  }

  /**
   The same for any keys.  A pair that the ampersand does not end takes all that follows, so only bare pairs may
   follow, and the old bytes must make up for them.
   */
  predicate EndsBehind(ps: seq<Pair>, after: string, nameSize: nat, valueSize: nat)
    decreases |ps|
  {
    if |ps| <= 1 then IsFollowedByEnd(ps, after, nameSize, valueSize)
    else if IsEndedByAmp(ps[0], valueSize) then EndsBehind(ps[1..], after, nameSize, valueSize)
    else AllBare(ps[1..]) && Replies(after, nameSize, valueSize, |ps|) == BareReplies(|ps| - 1) + [NO_MORE]
  }

  function BareReplies(n: nat): seq<Reply> {
    seq(n, _ => Reply(true, "", ""))
  }

  /** When every pair is ended, and so whenever no key is empty, only the end is left to look for. */
  lemma {:induction false} SeparableEnds(ps: seq<Pair>, after: string, nameSize: nat, valueSize: nat)
    requires IsSeparable(ps, valueSize)
    ensures EndsBehind(ps, after, nameSize, valueSize) <==> IsFollowedByEnd(ps, after, nameSize, valueSize)
    decreases |ps|
  {
    hide IsEndedByAmp, LooksLikeEnd;
    if |ps| > 1 {
      SeparableOneByOne(ps, valueSize);
      SeparableEnds(ps[1..], after, nameSize, valueSize);
    }
  }

  lemma {:induction false} BarePairs(ps: seq<Pair>, nameSize: nat, valueSize: nat)
    requires LegalPairs(ps) && AllBare(ps)
    ensures PairReplies(ps) == BareReplies(|ps|) && PairsFit(ps, nameSize, valueSize)
  {
    hide LegalPair;
    if |ps| > 0 {
      assert LegalPair(ps[0]) && IsBare(ps[0]);
      BarePairs(ps[1..], nameSize, valueSize);
      assert PairReply(ps[0]) == Reply(true, "", "");
      assert BareReplies(|ps|) == [Reply(true, "", "")] + BareReplies(|ps| - 1);
    }
  }

  /** Behind a pair that is not ended, bare ones are lost: the calls read on behind the NUL. */
  lemma BareAreLost(ps: seq<Pair>, after: string, nameSize: nat, valueSize: nat, n: nat)
    requires |ps| > 1 && LegalPairs(ps) && AllBare(ps[1..]) && nameSize > 0 && valueSize > 0
    requires PairFits(ps[0], nameSize, valueSize) && !IsEndedByAmp(ps[0], valueSize)
    ensures LegalPair(ps[0])
    ensures Replies(ShowPairs(ps) + ([NUL] + after), nameSize, valueSize, n + 1)
         == [PairReply(ps[0])] + Replies(after, nameSize, valueSize, n)
  {
    hide Run, ShowPair, Legal, AllBare, Replies, Meanings;
    var p, more := ps[0], ['&'] + (ShowPairs(ps[1..]) + ([NUL] + after));
    var s := PairScan(p, valueSize);
    assert LegalPair(p);
    assert ShowPairs(ps) + ([NUL] + after) == ShowPair(p) + more;
    PairIsStored(p, more, nameSize, valueSize);
    PairsAreSwallowed(s, ps[1..], [NUL] + after);
    RunStep(s, NUL, after);
    RunReplies(ShowPair(p) + more, nameSize, valueSize, n);
  }

  /**
   On GET the calls report exactly the pairs, and then the end, if and only if all pairs fit and nothing is left to
   report behind them.
   */
  lemma {:induction false} TargetComesBack(ps: seq<Pair>, after: string, nameSize: nat, valueSize: nat)
    requires LegalPairs(ps) && nameSize > 0 && valueSize > 0
    ensures Replies(ShowPairs(ps) + ([NUL] + after), nameSize, valueSize, |ps| + 1) == PairReplies(ps) + [NO_MORE]
       <==> PairsFit(ps, nameSize, valueSize) && EndsBehind(ps, after, nameSize, valueSize)
    decreases |ps|
  {
    hide Replies, LegalPair, PairFits, ShowPair, PairReply, IsEndedByAmp, IsFollowedByEnd;
    var n, tail := |ps|, [NUL] + after;
    if n <= 1 {
      OnePairEnds(ps, after, nameSize, valueSize);
    } else {
      assert LegalPair(ps[0]);
      FitsOneByOne(ps, nameSize, valueSize);
      if !PairFits(ps[0], nameSize, valueSize) {
        FirstIsCut(ps, tail, nameSize, valueSize);
      } else if IsEndedByAmp(ps[0], valueSize) {
        FirstIsRead(ps, tail, nameSize, valueSize, n);
        TargetComesBack(ps[1..], after, nameSize, valueSize);
        SameTail(PairReply(ps[0]), Replies(ShowPairs(ps[1..]) + tail, nameSize, valueSize, n), PairReplies(ps[1..]));
      } else if AllBare(ps[1..]) {
        BarePairs(ps[1..], nameSize, valueSize);
        BareAreLost(ps, after, nameSize, valueSize, n);
        SameTail(PairReply(ps[0]), Replies(after, nameSize, valueSize, n), PairReplies(ps[1..]));
      } else {
        EmptyKeySwallows(ps, tail, nameSize, valueSize);
        assert (PairReplies(ps) + [NO_MORE])[..2] == PairReplies(ps)[..2];
      }
    }
  }

  lemma OnePairEnds(ps: seq<Pair>, after: string, nameSize: nat, valueSize: nat)
    requires |ps| <= 1 && LegalPairs(ps) && nameSize > 0 && valueSize > 0
    ensures Replies(ShowPairs(ps) + ([NUL] + after), nameSize, valueSize, |ps| + 1) == PairReplies(ps) + [NO_MORE]
       <==> PairsFit(ps, nameSize, valueSize) && IsFollowedByEnd(ps, after, nameSize, valueSize)
  {
    hide Replies, ShowPairs, LegalPairs, PairReplies, PairsFit;
    if PairsFit(ps, nameSize, valueSize) {
      var left := Behind(ps, after, valueSize);
      TargetRoundTrip(ps, after, nameSize, valueSize, 1);
      EndIsReported(left, nameSize, valueSize);
      var a, b := PairReplies(ps), Replies(left, nameSize, valueSize, 1);
      assert (a + b)[|a|..] == b && (a + [NO_MORE])[|a|..] == [NO_MORE];
    } else {
      NoneFits(ps, nameSize, valueSize);
      FirstIsCut(ps, [NUL] + after, nameSize, valueSize);
    }
  }

  lemma NoneFits(ps: seq<Pair>, nameSize: nat, valueSize: nat)
    requires |ps| <= 1 && !PairsFit(ps, nameSize, valueSize)
    ensures |ps| == 1 && !PairFits(ps[0], nameSize, valueSize)
  {}

  /** A pair with an empty key takes the next one into its value. */
  lemma EmptyKeyTakesNext()
    ensures Replies("=v&k=w", 8, 8, 2) == [Reply(true, "", "vkw"), NO_MORE]
  {
    hide Run, Store;
    var s := Begin(8, 8);
    assert "=v&k=w" == ['='] + "v&k=w" && "v&k=w" == ['v'] + "&k=w" && "&k=w" == ['&'] + "k=w";
    assert "k=w" == ['k'] + "=w" && "=w" == ['='] + "w" && "w" == ['w'] + "";
    RunStep(s, '=', "v&k=w");
    ToValue("", 8, 'v', "&k=w");
    RunStep(Scan("", "v", 0, 7), '&', "k=w");
    ToValue("v", 7, 'k', "=w");
    RunStep(Scan("", "vk", 0, 6), '=', "w");
    ToValue("vk", 6, 'w', "");
    RunEnds(Scan("", "vkw", 0, 5), "");
    assert "" + ['v'] == "v" && "v" + ['k'] == "vk" && "vk" + ['w'] == "vkw";
    OneReply("=v&k=w", 8, 8, Scan("", "vkw", 0, 5), "");
  }

  lemma OneReply(text: string, nameSize: nat, valueSize: nat, s: Scan, rest: string)
    requires Run(Begin(nameSize, valueSize), text) == (s, rest) && AllAmps(rest) && nameSize > 0 && valueSize > 0
    requires IsText(s.name) && IsText(s.value)
    ensures Replies(text, nameSize, valueSize, 2) == [Reply(s.nameLen == 0, s.name, s.value), NO_MORE]
  {
    hide Run, AllAmps, IsText;
    TextIsString(s.name);
    TextIsString(s.value);
    NothingIsLeft(rest, nameSize, valueSize);
  }

  lemma ToValue(v: string, room: nat, c: char, rest: string)
    requires room > 0 && IsLiteral(c)
    ensures Run(Scan("", v, 0, room), [c] + rest) == Run(Scan("", v + [c], 0, room - 1), rest)
  {
    RunStep(Scan("", v, 0, room), c, rest);
  }
}
