/** Characters and strings as the C library sees them. */
module Text {
  const NUL: char := '\0'

  /** The contents of a byte of memory. */
  type Byte = c: char | c < 256 as char

  /** isblank */
  predicate IsBlank(c: char) {
    c == ' ' || c == '\t'
  }

  /** isspace */
  predicate IsSpace(c: char) {
    c == ' ' || '\t' <= c <= '\r'
  }

  /** The characters of both classes in the C locale. */
  lemma SpacesAre(c: char)
    ensures IsBlank(c) <==> c as int in {9, 32}
    ensures IsSpace(c) <==> c as int in {9, 10, 11, 12, 13, 32}
  {}

  /** Every character is a byte and none ends a string. */
  ghost predicate IsText(s: string) {
    forall i | 0 <= i < |s| :: NUL < s[i] < 256 as char
  }

  predicate AllSpace(s: string) {
    forall i | 0 <= i < |s| :: IsSpace(s[i])
  }

  predicate AllBlank(s: string) {
    forall i | 0 <= i < |s| :: IsBlank(s[i])
  }

  function Min(a: nat, b: nat): nat {
    if a < b then a else b
  }

  /** The first `n` characters, or all of them. */
  function Cut(s: string, n: nat): string {
    s[..Min(|s|, n)]
  }

  /** The string that a buffer holds: everything before its first NUL. */
  function CString(buffer: string): (s: string)
    ensures |s| <= |buffer|
  {
    if |buffer| == 0 || buffer[0] == NUL then "" else [buffer[0]] + CString(buffer[1..])
  }

  lemma {:induction false} CStringEnds(w: string, rest: string)
    requires IsText(w)
    ensures CString(w + [NUL] + rest) == w
  {
    var b := w + [NUL] + rest;
    if |w| > 0 {
      assert b[1..] == w[1..] + [NUL] + rest;
      CStringEnds(w[1..], rest);
    }
  }

  /** A buffer after `w` and its NUL were written at the front. */
  function Over(buffer: string, w: string): string
    requires |w| < |buffer|
  {
    w + [NUL] + buffer[|w| + 1..]
  }

  /** `w` has been written at the front of a buffer, and nothing else. */
  ghost predicate Holds(buffer: string, w: string, before: string) {
    |w| <= |before| && buffer == w + before[|w|..]
  }

  lemma HoldsNothing(buffer: string)
    ensures Holds(buffer, "", buffer)
  {}

  lemma HoldsFits(buffer: string, w: string, before: string)
    requires Holds(buffer, w, before)
    ensures |buffer| == |before|
  {}

  lemma HoldsOneMore(buffer: string, w: string, before: string, c: char)
    requires Holds(buffer, w, before) && |w| < |before|
    ensures Holds(buffer[|w| := c], w + [c], before)
  {}

  lemma HoldsTerminated(buffer: string, w: string, before: string)
    requires Holds(buffer, w, before) && |w| < |before|
    ensures buffer[|w| := NUL] == Over(before, w)
  {}

  /** What a caller of a parameter parser sees: the return value and the strings in the two buffers. */
  datatype Reply = Reply(ret: bool, name: string, value: string)

  const NO_MORE := Reply(false, "", "")

  /** A buffer holds the string that was written, as far as that has no NUL of its own. */
  lemma {:induction false} OverIsString(buffer: string, w: string)
    requires |w| < |buffer|
    ensures CString(Over(buffer, w)) == CString(w)
  {
    if |w| > 0 && w[0] != NUL {
      assert Over(buffer, w)[1..] == Over(buffer[1..], w[1..]);
      OverIsString(buffer[1..], w[1..]);
    }
  }

  lemma {:induction false} TextIsString(w: string)
    requires IsText(w)
    ensures CString(w) == w
  {
    if |w| > 0 {
      TextIsString(w[1..]);
    }
  }

  /** What `%d` prints for a number that is not negative. */
  function Decimal(n: nat): (s: string)
    ensures |s| > 0
  {
    var digit := ['0', '1', '2', '3', '4', '5', '6', '7', '8', '9'][n % 10];
    if n < 10 then [digit] else Decimal(n / 10) + [digit]
  }

  // ---------------------------------------------------------------- searching

  /** The position of the first character that `p` accepts, or the length. */
  function Find(s: string, p: char -> bool): (i: nat)
    ensures i <= |s|
  {
    if |s| == 0 || p(s[0]) then 0 else 1 + Find(s[1..], p)
  }

  lemma {:induction false} FindStops(s: string, p: char -> bool)
    ensures Find(s, p) < |s| ==> p(s[Find(s, p)])
    ensures forall k | 0 <= k < Find(s, p) :: !p(s[k])
  {
    if |s| > 0 && !p(s[0]) {
      FindStops(s[1..], p);
      assert forall k | 1 <= k < Find(s, p) :: s[k] == s[1..][k - 1];
    }
  }

  lemma {:induction false} FindIs(s: string, p: char -> bool, i: nat)
    requires i <= |s| && (i < |s| ==> p(s[i])) && forall k | 0 <= k < i :: !p(s[k])
    ensures Find(s, p) == i
  {
    FindStops(s, p);
  }

  lemma FindShift(s: string, p: char -> bool, n: nat)
    requires n <= Find(s, p)
    ensures Find(s[n..], p) == Find(s, p) - n
  {
    FindStops(s, p);
    FindIs(s[n..], p, Find(s, p) - n);
  }

  /** `w` and then a character that ends it. */
  lemma {:induction false} FindAfter(w: string, s: string, p: char -> bool)
    requires (forall k | 0 <= k < |w| :: !p(w[k])) && |s| > 0 && p(s[0])
    ensures Find(w + s, p) == |w|
  {
    FindIs(w + s, p, |w|);
  }
}
