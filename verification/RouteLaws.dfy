/** A path that is printed from its segments gives them back, in turn as commands and ids. */
module RouteLaws {
  import opened Text
  import opened Route

  /** The text before the first slash, and a slash before every segment. */
  function ShowPath(head: string, segments: seq<string>): string {
    if |segments| == 0 then head
    else ShowPath(head, segments[..|segments| - 1]) + (['/'] + segments[|segments| - 1])
  }

  predicate NoSlash(w: string) {
    forall i | 0 <= i < |w| :: !IsSlash(w[i])
  }

  predicate NoSlashes(segments: seq<string>) {
    forall i | 0 <= i < |segments| :: NoSlash(segments[i])
  }

  /** The segments that count: an empty one at the very end of the URL does not. */
  function Counted(head: string, segments: seq<string>, len: nat): (n: nat)
    ensures n <= |segments|
  {
    if |segments| > 0 && segments[|segments| - 1] == "" && len == |ShowPath(head, segments)| then |segments| - 1
    else |segments|
  }

  lemma {:induction false} SlashesSkip(p: string, w: string, len: nat)
    requires NoSlash(w)
    ensures Slashes(p + w, len) == Slashes(p, len)
  {
    hide IsSlash;
    if |w| == 0 {
      assert p + w == p;
    } else {
      var v := w[..|w| - 1];
      assert (p + w)[..|p + w| - 1] == p + v;
      assert (p + w)[|p + w| - 1] == w[|w| - 1];
      SlashesSkip(p, v, len);
    }
  }

  /** What comes behind a slash does not change a segment before it. */
  lemma SegmentStays(p: string, w: string, i: nat)
    requires i <= |p|
    ensures Segment(p + (['/'] + w), i) == Segment(p, i)
  {
    hide Find;
    var k := Find(p[i..], IsSlash);
    var q := p + (['/'] + w);
    assert q[i..] == p[i..] + (['/'] + w);
    FindStops(p[i..], IsSlash);
    FindIs(q[i..], IsSlash, k);
  }

  lemma LastSegment(p: string, w: string)
    requires NoSlash(w)
    ensures Segment(p + (['/'] + w), |p| + 1) == w
  {
    assert (p + (['/'] + w))[|p| + 1..] == w;
    FindIs(w, IsSlash, |w|);
  }

  /** The slashes of a printed path stand before its segments. */
  lemma {:induction false} SlashesOfPath(head: string, segments: seq<string>, len: nat)
    requires NoSlash(head) && NoSlashes(segments) && |ShowPath(head, segments)| <= len
    ensures var p, s := ShowPath(head, segments), Slashes(ShowPath(head, segments), len);
            && |s| == Counted(head, segments, len)
            && forall j | 0 <= j < |s| :: Segment(p, s[j] + 1) == segments[j]
    decreases |segments|
  {
    hide Segment, NoSlash, IsSlash, Slashes;
    if |segments| == 0 {
      assert "" + head == head;
      SlashesSkip("", head, len);
      SlashesOfNothing(len);
    } else {
      var init, last := segments[..|segments| - 1], segments[|segments| - 1];
      var p, q := ShowPath(head, segments), ShowPath(head, init);
      assert NoSlash(last);
      assert p == (q + ['/']) + last;
      SlashesSkip(q + ['/'], last, len);
      SlashAdds(q, len);
      SlashesOfPath(head, init, len);
      LastSegment(q, last);
      var s0, s := Slashes(q, len), Slashes(p, len);
      forall j | 0 <= j < |s| ensures Segment(p, s[j] + 1) == segments[j] {
        if j < |s0| {
          SegmentStays(q, last, s[j] + 1);
        }
      }
    }
  }

  lemma SlashAdds(q: string, len: nat)
    ensures Slashes(q + ['/'], len) == Slashes(q, len) + (if |q| + 1 < len then [|q|] else [])
  {
    assert (q + ['/'])[..|q|] == q;
  }

  /**
   The first six segments that count are in turn commands and ids: command `k` is segment `2k`
   and id `k` is segment `2k + 1`.
   */
  lemma RouteRoundTrip(head: string, segments: seq<string>, len: nat)
    requires NoSlash(head) && NoSlashes(segments) && |ShowPath(head, segments)| <= len
    ensures var p, m := ShowPath(head, segments), Counted(head, segments, len);
            && |Commands(p, len)| == Min(API_LEVELS, (m + 1) / 2) && |Ids(p, len)| == Min(API_LEVELS, m / 2)
            && (forall k | 0 <= k < |Commands(p, len)| :: Commands(p, len)[k] == segments[2 * k])
            && (forall k | 0 <= k < |Ids(p, len)| :: Ids(p, len)[k] == segments[2 * k + 1])
  {
    hide Slashes, Segment, ShowPath, Counted;
    SlashesOfPath(head, segments, len);
  }

  /** Every path is printed from some segments. */
  lemma {:induction false} EveryPathIsPrinted(p: string) returns (head: string, segments: seq<string>)
    ensures NoSlash(head) && NoSlashes(segments) && ShowPath(head, segments) == p
  {
    hide NoSlash, NoSlashes, ShowPath, IsSlash;
    NothingIsPrinted();
    head, segments := "", [];
    if |p| > 0 {
      var c := p[|p| - 1];
      head, segments := EveryPathIsPrinted(p[..|p| - 1]);
      assert p == p[..|p| - 1] + [c];
      if IsSlash(c) {
        SlashStartsSegment(head, segments);
        segments := segments + [""];
        assert IsSlash(c) ==> c == '/' by { OnlySlash(c); }
      } else if |segments| == 0 {
        HeadGrows(head, c);
        assert segments == [];
        head := head + [c];
      } else {
        SegmentGrows(head, segments, c);
        segments := segments[|segments| - 1 := segments[|segments| - 1] + [c]];
      }
    }
  }

  lemma OnlySlash(c: char)
    ensures IsSlash(c) <==> c == '/'
  {}

  lemma NothingIsPrinted()
    ensures NoSlash("") && NoSlashes([]) && ShowPath("", []) == ""
  {}

  lemma SlashStartsSegment(head: string, segments: seq<string>)
    requires NoSlashes(segments)
    ensures NoSlashes(segments + [""]) && ShowPath(head, segments + [""]) == ShowPath(head, segments) + ['/']
  {
    hide NoSlash;
    assert (segments + [""])[..|segments|] == segments;
    assert NoSlash("") by { NothingIsPrinted(); }
    assert ['/'] + "" == ['/'];
  }

  lemma HeadGrows(head: string, c: char)
    requires NoSlash(head) && !IsSlash(c)
    ensures NoSlash(head + [c]) && ShowPath(head + [c], []) == ShowPath(head, []) + [c]
  {}

  lemma SegmentGrows(head: string, segments: seq<string>, c: char)
    requires NoSlashes(segments) && |segments| > 0 && !IsSlash(c)
    ensures var more := segments[|segments| - 1 := segments[|segments| - 1] + [c]];
            NoSlashes(more) && ShowPath(head, more) == ShowPath(head, segments) + [c]
  {
    hide NoSlash, IsSlash;
    var n := |segments| - 1;
    var last := segments[n];
    var more := segments[n := last + [c]];
    assert NoSlash(last + [c]) by { HeadGrows(last, c); }
    assert more[..n] == segments[..n];
    assert ['/'] + (last + [c]) == (['/'] + last) + [c];
  }
}
