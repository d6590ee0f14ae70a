/**
 The input of one connection: bytes that arrive in order, and one slot for a character
 that was read but not used.
 */
module Stream {
  import opened Text

  class Reader {
    const input: string
    var position: nat
    /** The pushed-back character, or a number that is not positive when there is none. */
    var extra: int

    ghost predicate Valid()
      reads this
    {
      IsText(input) && position <= |input| && -1 <= extra < 256
    }

    /** Everything that is still to be read, the pushed-back character first. */
    ghost function Rest(): (s: string)
      requires Valid()
      reads this
      ensures IsText(s)
    {
      (if extra > 0 then [extra as char] else []) + input[position..]
    }

    /** What has not arrived yet. */
    ghost function Unread(): (s: string)
      requires Valid()
      reads this
      ensures IsText(s)
    {
      input[position..]
    }

    /** Empties the slot. */
    method Clear()
      requires Valid()
      modifies `extra
      ensures Valid() && extra <= 0 && Rest() == old(Unread())
    {
      extra := -1;
    }

    constructor (input: string)
      requires IsText(input)
      ensures Valid() && Rest() == input && extra <= 0
    {
      this.input := input;
      position := 0;
      extra := -1;
    }

    /** Fetches a byte; at the end of the input it stores NUL and returns 0. */
    method GetByte() returns (ret: int, c: Byte)
      requires Valid()
      modifies `position
      ensures Valid()
      ensures if old(position) == |input| then ret == 0 && c == NUL && position == old(position)
              else ret == 1 && c == input[old(position)] && position == old(position) + 1
    {
      if position == |input| {
        return 0, NUL;
      }
      ret, c := 1, input[position];
      position := position + 1;
    }

    /** Reads the next character, and leaves the slot empty. */
    method ReadC() returns (ret: int, c: Byte)
      requires Valid()
      modifies `position, `extra
      ensures Valid() && extra <= 0
      ensures if |old(Rest())| == 0 then ret == 0 && c == NUL && Rest() == []
              else ret == 1 && NUL < c < 256 as char && old(Rest()) == [c] + Rest()
    {
      if extra > 0 {
        ret, c := 1, extra as char;
        extra := -1;
      } else {
        ret, c := GetByte();
      }
    }

    /** Puts one character back; NUL leaves the slot empty. */
    method PushC(c: Byte)
      requires Valid() && extra <= 0
      modifies `extra
      ensures Valid()
      ensures Rest() == (if c == NUL then [] else [c]) + old(Rest())
    {
      extra := c as int;
    }

    /** Skips blanks; the first other character is put back. */
    method ParseSpace() returns (ret: int)
      requires Valid()
      modifies `position, `extra
      ensures Valid() && Rest() == SkipBlanks(old(Rest()))
      ensures ret == if |Rest()| == 0 then 0 else 1
    {
      ghost var before := Rest();
      var c: Byte;
      ret, c := ReadC();
      while IsBlank(c) && ret > 0
        invariant Valid() && extra <= 0 && c < 256 as char
        invariant if ret == 0 then c == NUL && Rest() == [] && SkipBlanks(before) == []
                  else ret == 1 && c != NUL && SkipBlanks(before) == SkipBlanks([c] + Rest())
        decreases |Rest()|, ret
      {
        SkipBlanksStep(c, Rest());
        ret, c := ReadC();
      }
      if ret > 0 {
        SkipBlanksStep(c, Rest());
      }
      PushC(c);
    }

    /**
     The loop that all parsers of words share: reads into `buffer` until a character that
     `stop` accepts, which is stored too, or until `limit` characters were stored, or until the
     input ends, which is stored as a NUL and counted.
     */
    method ReadWord(buffer: array<Byte>, limit: nat, stop: char -> bool) returns (ret: int, count: nat)
      requires Valid() && 0 < limit <= buffer.Length && !stop(NUL)
      modifies `position, `extra, buffer
      ensures Valid() && extra <= 0
      ensures var t := old(Rest());
              && count == WordCount(t, limit, stop) && ret == (if count <= |t| then 1 else 0)
              && Rest() == AfterWord(t, limit, stop)
              && buffer[..] == WordBuffer(old(buffer[..]), t, limit, stop)
    {
      hide Valid, Rest, Filled, Find;
      ghost var t, before := Rest(), buffer[..];
      FindStops(t, stop);
      var c: Byte;
      ret, c := ReadC();
      buffer[0] := c;
      FilledStarts(before, t, c);
      assert buffer[..] == before[0 := c];
      count := 0;
      while !stop(c)
        invariant Valid() && extra <= 0 && count < limit && count <= |t|
        invariant if count < |t| then ret == 1 && c == t[count] && Rest() == t[count + 1..]
                  else ret == 0 && c == NUL && Rest() == ""
        invariant Filled(buffer[..], t, count, c, before)
        invariant count <= Find(t, stop)
        decreases limit - count
      {
        assert count < |t| ==> count != Find(t, stop);
        count := count + 1;
        if !(ret > 0 && count < limit) {
          FilledEnds(buffer[..], t, count - 1, c, before);
          return;
        }
        ghost var r, b := Rest(), buffer[..];
        ret, c := ReadC();
        assert |r| > 0 ==> r[0] == c && r[1..] == Rest();
        buffer[count] := c;
        FilledStep(b, t, count - 1, c, before);
        assert buffer[..] == b[count := c];
      }
      assert Find(t, stop) == count;
      FilledEnds(buffer[..], t, count, c, before);
    }

    /** Reads on until a character that `stop` accepts, or the end of the input. */
    method SkipTo(stop: char -> bool, ret0: int, c0: Byte) returns (ret: int, c: Byte)
      requires Valid() && extra <= 0 && !stop(NUL) && (ret0 == 0 || ret0 == 1)
      modifies `position, `extra
      ensures Valid() && extra <= 0
      ensures var r := old(Rest());
              if ret0 == 0 || stop(c0) then ret == ret0 && c == c0 && Rest() == r
              else if Find(r, stop) < |r| then ret == 1 && c == r[Find(r, stop)] && Rest() == r[Find(r, stop) + 1..]
              else ret == 0 && c == NUL && Rest() == ""
    {
      hide Valid, Rest, Find;
      ret, c := ret0, c0;
      ghost var r, n := Rest(), 0;
      FindStops(r, stop);
      while ret != 0 && !stop(c)
        invariant Valid() && extra <= 0 && (ret0 == 0 || stop(c0) ==> ret == ret0 && c == c0 && Rest() == r)
        invariant ret0 == 1 && !stop(c0) ==>
                    && n <= Find(r, stop) && n <= |r|
                    && if ret == 0 then c == NUL && Rest() == "" && n == |r|
                       else ret == 1 && if !stop(c) then Rest() == r[n..]
                       else n < |r| && c == r[n] && Rest() == r[n + 1..]
        decreases |Rest()|, ret
      {
        ret, c := ReadC();
        if n < |r| && !stop(c) {
          n := n + 1;
        }
      }
    }
  }

  /** How far `ReadWord` counts on the input `t`. */
  function WordCount(t: string, limit: nat, stop: char -> bool): (n: nat)
    requires limit > 0
    ensures n <= limit
  {
    var b := Find(t, stop);
    if b < limit && b < |t| then b else if limit <= |t| then limit else |t| + 1
  }

  /** What it leaves: the character that stopped it is consumed. */
  function AfterWord(t: string, limit: nat, stop: char -> bool): (r: string)
    requires limit > 0
    ensures |r| <= |t| && (WordCount(t, limit, stop) < limit && |t| > 0 ==> |r| < |t|)
  {
    var b := Find(t, stop);
    if b < limit && b < |t| then t[b + 1..] else if limit <= |t| then t[limit..] else ""
  }

  /** What it stores over `before`. */
  function WordBuffer(before: string, t: string, limit: nat, stop: char -> bool): (r: string)
    requires 0 < limit <= |before|
    ensures |r| == |before|
  {
    var b := Find(t, stop);
    if b < limit && b < |t| then t[..b + 1] + before[b + 1..]
    else if limit <= |t| then t[..limit] + before[limit..]
    else t + [NUL] + before[|t| + 1..]
  }

  /** A buffer after the first `count` characters of `t`, and `c` behind them, were stored in it. */
  ghost predicate Filled(buffer: seq<Byte>, t: string, count: nat, c: Byte, before: seq<Byte>) {
    && |buffer| == |before| && count < |buffer| && count <= |t|
    && buffer == t[..count] + [c] + before[count + 1..]
  }

  lemma FilledStarts(before: seq<Byte>, t: string, c: Byte)
    requires |before| > 0
    ensures Filled(before[0 := c], t, 0, c, before)
  {}

  lemma FilledStep(buffer: seq<Byte>, t: string, count: nat, c: Byte, before: seq<Byte>)
    requires count < |t| && t[count] < 256 as char && Filled(buffer, t, count, t[count], before) && count + 1 < |buffer|
    ensures Filled(buffer[count + 1 := c], t, count + 1, c, before)
  {
    TakeOne(t, count);
  }

  lemma FilledEnds(buffer: seq<Byte>, t: string, count: nat, c: Byte, before: seq<Byte>)
    requires Filled(buffer, t, count, c, before)
    ensures count < |t| && t[count] == c ==> buffer == t[..count + 1] + before[count + 1..]
    ensures count == |t| ==> buffer == t + [c] + before[count + 1..]
  {
    if count < |t| {
      TakeOne(t, count);
    } else {
      TakeAll(t);
    }
  }

  /** A word that is ended in time. */
  lemma WordIsFound(t: string, before: string, limit: nat, stop: char -> bool)
    requires Find(t, stop) < limit <= |before| && Find(t, stop) < |t|
    ensures var k, b := Find(t, stop), WordBuffer(before, t, limit, stop);
            && WordCount(t, limit, stop) == k && b[..k] == t[..k] && b[k] == t[k]
            && [t[k]] + AfterWord(t, limit, stop) == t[k..]
  {
    hide Find;
    var k, b := Find(t, stop), WordBuffer(before, t, limit, stop);
    DropOne(t, k);
    assert b[..k] == t[..k + 1][..k];
  }

  lemma DropOne<T>(a: seq<T>, i: nat)
    requires i < |a|
    ensures [a[i]] + a[i + 1..] == a[i..]
  {}

  lemma TakeOne<T>(a: seq<T>, i: nat)
    requires i < |a|
    ensures a[..i + 1] == a[..i] + [a[i]]
  {}

  lemma TakeAll<T>(a: seq<T>)
    ensures a[..|a|] == a
  {}

  /** `s` from its first character that is not blank. */
  function SkipBlanks(s: string): (r: string)
    ensures |r| <= |s|
    ensures |r| > 0 ==> !IsBlank(r[0])
  {
    if |s| > 0 && IsBlank(s[0]) then SkipBlanks(s[1..]) else s
  }

  lemma SkipBlanksStep(c: char, s: string)
    ensures SkipBlanks([c] + s) == if IsBlank(c) then SkipBlanks(s) else [c] + s
  {
    assert ([c] + s)[1..] == s;
  }

  lemma {:induction false} SkipBlanksDrops(w: string, s: string)
    requires AllBlank(w) && (|s| > 0 ==> !IsBlank(s[0]))
    ensures SkipBlanks(w + s) == s
  {
    if |w| == 0 {
      assert w + s == s;
    } else {
      assert (w + s)[1..] == w[1..] + s;
      SkipBlanksDrops(w[1..], s);
    }
  }
}
