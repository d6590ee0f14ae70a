/** The route of a request: its path is cut at the slashes, in place, into commands and ids. */
module Route {
  import opened Text
  import opened RequestText
  import opened Request

  const API_LEVELS := 3

  predicate IsSlash(c: char) {
    c == '/'
  }

  // ---------------------------------------------------------------- what the path says

  /** The positions of the slashes in `p` that something follows, when the URL has `len` characters. */
  function Slashes(p: string, len: nat): (s: seq<nat>)
    ensures forall j | 0 <= j < |s| :: s[j] < |p|
  {
    if |p| == 0 then []
    else Slashes(p[..|p| - 1], len) + (if IsSlash(p[|p| - 1]) && |p| < len then [|p| - 1] else [])
  }

  /** The text from `i` up to the next slash. */
  function Segment(p: string, i: nat): string
    requires i <= |p|
  {
    p[i..][..Find(p[i..], IsSlash)]
  }

  /** How many of `m` slashes start a command, and how many an id. */
  function CommandLevel(m: nat): nat {
    Min(API_LEVELS, (m + 1) / 2)
  }

  function IdLevel(m: nat): nat {
    Min(API_LEVELS, m / 2)
  }

  /** The segments behind the first, third and fifth slash. */
  function Commands(p: string, len: nat): seq<string> {
    var s := Slashes(p, len);
    seq(CommandLevel(|s|), k requires 0 <= k < CommandLevel(|s|) => Segment(p, s[2 * k] + 1))
  }

  /** The segments behind the second, fourth and sixth slash. */
  function Ids(p: string, len: nat): seq<string> {
    var s := Slashes(p, len);
    seq(IdLevel(|s|), k requires 0 <= k < IdLevel(|s|) => Segment(p, s[2 * k + 1] + 1))
  }

  /** Every slash ends a string. */
  function CutSlashes(p: string): (r: string)
    ensures |r| == |p|
  {
    seq(|p|, i requires 0 <= i < |p| => if IsSlash(p[i]) then NUL else p[i])
  }

  lemma {:induction false} SegmentIsString(p: string, i: nat, rest: string)
    requires i <= |p| && NUL !in p
    ensures CString((CutSlashes(p) + [NUL] + rest)[i..]) == Segment(p, i)
    decreases |p| - i
  {
    var b := CutSlashes(p) + [NUL] + rest;
    if i < |p| && !IsSlash(p[i]) {
      assert b[i..][1..] == b[i + 1..] && p[i..][1..] == p[i + 1..];
      SegmentIsString(p, i + 1, rest);
      assert Segment(p, i) == [p[i]] + Segment(p, i + 1);
    }
  }

  lemma {:induction false} CStringIsText(b: string)
    ensures NUL !in CString(b) && CString(b) == b[..|CString(b)|]
    ensures |CString(b)| < |b| ==> b[|CString(b)|] == NUL
  {
    if |b| > 0 && b[0] != NUL {
      CStringIsText(b[1..]);
    }
  }

  lemma SlashesStep(p: string, len: nat, i: nat)
    requires i < |p|
    ensures Slashes(p[..i + 1], len)
         == Slashes(p[..i], len) + (if IsSlash(p[i]) && i + 1 < len then [i] else [])
  {
    assert p[..i + 1][..i] == p[..i];
  }

  // ---------------------------------------------------------------- the split

  /** The strings that the first `level` pointers point to. */
  ghost predicate PointAt(pointers: seq<int>, level: nat, names: seq<string>, buffer: string) {
    && |pointers| == API_LEVELS && |names| == level <= API_LEVELS
    && (forall k | 0 <= k < level :: 0 <= pointers[k] <= |buffer| && CString(buffer[pointers[k]..]) == names[k])
    && forall k | level <= k < API_LEVELS :: pointers[k] == -1
  }

  /** `level` pointers lead behind every second of the slashes, from number `first` on. */
  ghost predicate Follow(pointers: seq<int>, level: nat, slashes: seq<nat>, first: nat) {
    && |pointers| == API_LEVELS && level <= API_LEVELS && (level > 0 ==> 2 * level - 2 + first < |slashes|)
    && (forall k | 0 <= k < level :: pointers[k] == slashes[2 * k + first] + 1)
    && forall k | level <= k < API_LEVELS :: pointers[k] == -1
  }

  lemma FollowsOn(pointers: seq<int>, level: nat, slashes: seq<nat>, first: nat, next: nat)
    requires Follow(pointers, level, slashes, first)
    ensures |pointers| == API_LEVELS && Follow(pointers, level, slashes + [next], first)
    ensures level < API_LEVELS && |slashes| == 2 * level + first ==>
              Follow(pointers[level := next + 1], level + 1, slashes + [next], first)
  {}

  /** The levels and the pointers after the first `at` characters of the path. */
  ghost predicate Found(path: string, len: nat, at: nat, command: seq<int>, cmdlvl: nat, id: seq<int>, idlvl: nat)
    requires at <= |path|
  {
    var s := Slashes(path[..at], len);
    && cmdlvl == CommandLevel(|s|) && idlvl == IdLevel(|s|)
    && Follow(command, cmdlvl, s, 0) && Follow(id, idlvl, s, 1)
  }

  lemma FoundNothing(path: string, len: nat, pointers: seq<int>)
    requires |pointers| == API_LEVELS && forall k | 0 <= k < API_LEVELS :: pointers[k] == -1
    ensures Found(path, len, 0, pointers, 0, pointers, 0)
  {
    assert path[..0] == "";
  }

  /** A slash that something follows starts a command when the levels are even, and else an id. */
  lemma FoundStep(path: string, len: nat, at: nat, command: seq<int>, cmdlvl: nat, id: seq<int>, idlvl: nat)
    requires at < |path| && Found(path, len, at, command, cmdlvl, id, idlvl)
    ensures if !IsSlash(path[at]) || at + 1 >= len then
              Found(path, len, at + 1, command, cmdlvl, id, idlvl)
            else if cmdlvl == idlvl && cmdlvl < API_LEVELS then
              |command| == API_LEVELS && Found(path, len, at + 1, command[cmdlvl := at + 1], cmdlvl + 1, id, idlvl)
            else if cmdlvl > idlvl && idlvl < API_LEVELS then
              |id| == API_LEVELS && Found(path, len, at + 1, command, cmdlvl, id[idlvl := at + 1], idlvl + 1)
            else
              Found(path, len, at + 1, command, cmdlvl, id, idlvl)
  {
    hide Slashes, IsSlash, Follow;
    SlashesStep(path, len, at);
    var s := Slashes(path[..at], len);
    assert s + [] == s;
    FollowsOn(command, cmdlvl, s, 0, at);
    FollowsOn(id, idlvl, s, 1, at);
    LevelsStep(|s|);
  }

  lemma LevelsStep(m: nat)
    ensures CommandLevel(m + 1)
         == if CommandLevel(m) == IdLevel(m) && CommandLevel(m) < API_LEVELS then CommandLevel(m) + 1 else CommandLevel(m)
    ensures IdLevel(m + 1)
         == if CommandLevel(m) > IdLevel(m) && IdLevel(m) < API_LEVELS then IdLevel(m) + 1 else IdLevel(m)
    ensures CommandLevel(m) == IdLevel(m) && CommandLevel(m) < API_LEVELS ==> m == 2 * CommandLevel(m)
    ensures CommandLevel(m) > IdLevel(m) && IdLevel(m) < API_LEVELS ==> m == 2 * IdLevel(m) + 1
  {}

  lemma LevelsAreClose(path: string, len: nat, at: nat, command: seq<int>, cmdlvl: nat, id: seq<int>, idlvl: nat)
    requires at <= |path| && Found(path, len, at, command, cmdlvl, id, idlvl)
    ensures idlvl <= cmdlvl <= idlvl + 1 && |command| == |id| == API_LEVELS
  {}

  /** The strings behind the slashes are the segments of the path. */
  ghost predicate AreStrings(path: string, slashes: seq<nat>, buffer: string) {
    forall j | 0 <= j < |slashes| ::
      && slashes[j] < |path| && slashes[j] < |buffer|
      && CString(buffer[slashes[j] + 1..]) == Segment(path, slashes[j] + 1)
  }

  lemma FollowPoints(path: string, pointers: seq<int>, level: nat, slashes: seq<nat>, first: nat,
                     names: seq<string>, buffer: string)
    requires Follow(pointers, level, slashes, first) && AreStrings(path, slashes, buffer) && |names| == level
    requires forall k | 0 <= k < level :: names[k] == Segment(path, slashes[2 * k + first] + 1)
    ensures PointAt(pointers, level, names, buffer)
  {
    hide CString, Segment;
  }

  lemma SlashesOfNothing(len: nat)
    ensures Slashes("", len) == []
  {}

  /** So it is once the path was cut at its slashes. */
  lemma SegmentsAreStrings(path: string, len: nat, buffer: string)
    requires NUL !in path && |path| < |buffer| && (|path| > 0 ==> buffer[|path|] == NUL)
    requires buffer[..|path|] == CutSlashes(path)
    ensures AreStrings(path, Slashes(path, len), buffer)
  {
    hide CString, Segment, Slashes, CutSlashes;
    SlashesOfNothing(len);
    var s := Slashes(path, len);
    if |path| > 0 {
      assert buffer == CutSlashes(path) + [NUL] + buffer[|path| + 1..];
      forall j | 0 <= j < |s| ensures CString(buffer[s[j] + 1..]) == Segment(path, s[j] + 1) {
        SegmentIsString(path, s[j] + 1, buffer[|path| + 1..]);
      }
    } else {
      assert path == "";
    }
  }

  lemma FoundNames(path: string, len: nat, command: seq<int>, cmdlvl: nat, id: seq<int>, idlvl: nat, buffer: string)
    requires Found(path, len, |path|, command, cmdlvl, id, idlvl)
    requires NUL !in path && |path| < |buffer| && (|path| > 0 ==> buffer[|path|] == NUL)
    requires buffer[..|path|] == CutSlashes(path)
    ensures PointAt(command, cmdlvl, Commands(path, len), buffer) && PointAt(id, idlvl, Ids(path, len), buffer)
  {
    hide CString, Segment, Follow, PointAt, Slashes, CutSlashes, AreStrings;
    assert path[..|path|] == path;
    var s := Slashes(path, len);
    SegmentsAreStrings(path, len, buffer);
    FollowPoints(path, command, cmdlvl, s, 0, Commands(path, len), buffer);
    FollowPoints(path, id, idlvl, s, 1, Ids(path, len), buffer);
  }

  /** The buffer when the slashes among the first `at` characters are cut. */
  function CutUpTo(path: string, b: string, at: nat): (r: string)
    requires at <= |path| <= |b|
    ensures |r| == |b|
  {
    CutSlashes(path[..at]) + b[at..]
  }

  lemma CutStep(path: string, b: string, at: nat)
    requires at < |path| <= |b| && path == b[..|path|]
    ensures CutUpTo(path, b, at)[at] == path[at] == b[at]
    ensures CutUpTo(path, b, at + 1)
         == if IsSlash(path[at]) then CutUpTo(path, b, at)[at := NUL] else CutUpTo(path, b, at)
  {
  }

  /** A cut replaces nothing by anything but NUL. */
  lemma CutEnds(path: string, b: string)
    requires |path| <= |b| && path == b[..|path|]
    ensures CutUpTo(path, b, 0) == b
    ensures CutUpTo(path, b, |path|)[..|path|] == CutSlashes(path)
    ensures CutUpTo(path, b, |path|) == CutSlashes(path) + b[|path|..]
  {
    assert path[..|path|] == path;
  }

  /** The path ends before the parameters start. */
  lemma PathIsBefore(b: string, len: nat, k: nat)
    requires len <= |b| && k <= |b| && NUL in b[..k]
    ensures |CString(b[..len])| <= k
  {
    hide CString;
    CStringIsText(b[..len]);
    var c := CString(b[..len]);
    assert forall i | 0 <= i < |c| :: b[i] == c[i] != NUL;
    var j :| 0 <= j < k && b[..k][j] == NUL;
    assert b[j] == NUL;
  }

  /** Cuts the path, and finds where the commands and the ids start; -1 is the null pointer. */
  method SplitRoute(p: Parser) returns (command: array<int>, id: array<int>, cmdlvl: nat, idlvl: nat)
    requires p.Valid()
    modifies p.url
    ensures p.Valid() && fresh(command) && fresh(id)
    ensures var b := old(p.url[..]);
            var path, len := CString(b[..p.urlLen]), p.urlLen;
            && p.url[..] == CutSlashes(path) + b[|path|..]
            && PointAt(command[..], cmdlvl, Commands(path, len), p.url[..])
            && PointAt(id[..], idlvl, Ids(path, len), p.url[..])
  {
    hide CString, Found, Commands, Ids, PointAt, CutSlashes, CutUpTo;
    command, id := new int[API_LEVELS](_ => -1), new int[API_LEVELS](_ => -1);
    ghost var b: string, len := p.url[..], p.urlLen;
    ghost var path := CString(b[..len]);
    CStringIsText(b[..len]);
    CutEnds(path, b);
    var at, ctr := 0, p.urlLen;
    cmdlvl, idlvl := 0, 0;
    FoundNothing(path, len, command[..]);
    assert id[..] == command[..];
    while p.url[at] != NUL && ctr > 0
      invariant p.Valid() && at <= |path| && ctr == len - at
      invariant Found(path, len, at, command[..], cmdlvl, id[..], idlvl)
      invariant p.url[..] == CutUpTo(path, b, at)
      invariant at == |path| && |path| < len ==> p.url[at] == NUL
      decreases ctr
    {
      if at < |path| {
        CutStep(path, b, at);
        LevelsAreClose(path, len, at, command[..], cmdlvl, id[..], idlvl);
        FoundStep(path, len, at, command[..], cmdlvl, id[..], idlvl);
      }
      if p.url[at] == '/' {
        if cmdlvl == idlvl && cmdlvl < API_LEVELS {
          if ctr > 1 {
            command[cmdlvl] := at + 1;
            cmdlvl := cmdlvl + 1;
          }
        } else if cmdlvl > idlvl && idlvl < API_LEVELS {
          if ctr > 1 {
            id[idlvl] := at + 1;
            idlvl := idlvl + 1;
          }
        }
        p.url[at] := NUL;
      }
      at := at + 1;
      ctr := ctr - 1;
    }
    if at < |path| {
      CutStep(path, b, at);
      assert false;
    }
    FoundNames(path, len, command[..], cmdlvl, id[..], idlvl, p.url[..]);
  }
}
