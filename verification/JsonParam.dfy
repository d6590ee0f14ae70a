/**
 The resumable JSON parser: each call reads one member of a flat object, or one element
 of a flat array, and the nesting levels, the pushed-back character and the element
 counter carry over to the next call.
 */
module JsonParam {
  import opened Text
  import opened Stream

  // ---------------------------------------------------------------- the state that persists

  /** The parser's globals.  `base` is the bracket the text opened with, or NUL. */
  datatype Levels = Levels(curly: nat, square: nat, base: char, counter: nat)

  const INITIAL := Levels(0, 0, NUL, 0)

  /** Increment and decrement of a uint8_t. */
  function Inc(n: nat): (r: nat)
    ensures r < 256
  {
    (n + 1) % 256
  }

  function Dec(n: nat): (r: nat)
    ensures r < 256
  {
    (n + 255) % 256
  }

  // ---------------------------------------------------------------- one call

  /** One call in progress: the quote flags, which side of the divider it is on, and what it has stored. */
  datatype Scan = Scan(levels: Levels, single: bool, double: bool, inValue: bool, name: string, value: string)

  datatype Next = Go(scan: Scan) | Stop(scan: Scan) | StopAndPush(scan: Scan)

  function Begin(levels: Levels): Scan {
    Scan(levels, false, false, false, "", "")
  }

  /** Stores a character where there is room for it and for the NUL after it. */
  function Store(s: Scan, c: char, nameLen: nat, valueLen: nat): Scan {
    if s.inValue then
      if |s.value| + 1 < valueLen then s.(value := s.value + [c]) else s
    else
      if |s.name| + 1 < nameLen then s.(name := s.name + [c]) else s
  }

  /** A bracket that is stored still counts; also whether it ends the call. */
  function Nest(l: Levels, c: char): (Levels, bool) {
    if c == '{' then (l.(curly := Inc(l.curly)), false)
    else if c == '}' then (l.(curly := Dec(l.curly)), Dec(l.curly) <= 1)
    else if c == '[' then (l.(square := Inc(l.square)), false)
    else if c == ']' then (l.(square := Dec(l.square)), Dec(l.square) == 1)
    else (l, false)
  }

  function Open(base: char, c: char): char {
    if base == NUL then c else base
  }

  /** What a character does that is not a divider, skipped space, a separator or a quote. */
  function StepBracket(s: Scan, c: char, nameLen: nat, valueLen: nat): Next {
    var l := s.levels;
    var level := (l.curly + l.square) % 256;
    if c == '{' && level == 0 then Go(s.(levels := l.(curly := Inc(l.curly), base := Open(l.base, c))))
    else if c == '}' && l.curly <= 1 && l.base == '{' then StopAndPush(s.(levels := l.(curly := Dec(l.curly))))
    else if c == '[' && level == 0 then Go(s.(levels := l.(square := Inc(l.square), base := Open(l.base, c))))
    else if c == ']' && l.square == 1 && l.base == '[' then Stop(s.(levels := l.(square := Dec(l.square))))
    else
      var (nested, ends) := Nest(l, c);
      var t := Store(s, c, nameLen, valueLen).(levels := nested);
      if ends then Stop(t) else Go(t)
  }

  /** What one character does. */
  function Step(s: Scan, c: char, nameLen: nat, valueLen: nat): Next {
    var l := s.levels;
    var level := (l.curly + l.square) % 256;
    if c == ':' && l.curly == 1 && l.square == 0 && !s.single && !s.double then Go(s.(inValue := true))
    else if IsSpace(c) && !s.single && !s.double && level <= 1 then Go(s)
    else if c == ',' && level == 1 then Stop(s)
    else if c == '\'' && level <= 1 && !s.double then Go(s.(single := !s.single))
    else if c == '"' && level <= 1 && !s.single then Go(s.(double := !s.double))
    else StepBracket(s, c, nameLen, valueLen)
  }

  /** Reads characters until one stops the call or the input ends; also what is left of the input. */
  function Run(s: Scan, text: string, nameLen: nat, valueLen: nat): (r: (Scan, string))
    ensures |r.1| <= |text|
    decreases |text|
  {
    if |text| == 0 then (s, text)
    else
      match Step(s, text[0], nameLen, valueLen)
      case Go(t) => Run(t, text[1..], nameLen, valueLen)
      case Stop(t) => (t, text[1..])
      case StopAndPush(t) => (t, text)
  }

  /** An element without a divider: the text read as a name becomes the value, and the name is its number. */
  predicate IsElement(s: Scan) {
    !s.inValue && |s.name| > 0
  }

  function LevelsAfter(s: Scan): Levels {
    if IsElement(s) then s.levels.(counter := Inc(s.levels.counter)) else s.levels
  }

  function Zeros(n: nat): string {
    seq(n, _ => NUL)
  }

  /** A buffer after strncpy(buffer, w, n). */
  function Copied(buffer: string, w: string, n: nat): string
    requires n <= |buffer|
  {
    Cut(w, n) + Zeros(n - Min(|w|, n)) + buffer[n..]
  }

  /** The name buffer after a call. */
  function NameAfter(buffer: string, s: Scan, nameLen: nat): string
    requires |s.name| < nameLen <= |buffer|
  {
    var b := Over(buffer, s.name);
    if IsElement(s) then Over(b, Cut(Decimal(s.levels.counter), nameLen - 1)) else b
  }

  /** The value buffer after a call. */
  function ValueAfter(buffer: string, s: Scan, valueLen: nat): string
    requires |s.value| < valueLen <= |buffer|
  {
    var b := Over(buffer, s.value);
    if IsElement(s) then Copied(b, s.name, valueLen) else b
  }

  // ---------------------------------------------------------------- what is stored fits

  ghost predicate Fits(s: Scan, nameLen: nat, valueLen: nat) {
    && |s.name| < nameLen && |s.value| < valueLen
    && s.levels.curly < 256 && s.levels.square < 256 && s.levels.counter < 256
    && (!s.inValue ==> s.value == "")
  }

  lemma StepFits(s: Scan, c: char, nameLen: nat, valueLen: nat)
    requires Fits(s, nameLen, valueLen)
    ensures Fits(Step(s, c, nameLen, valueLen).scan, nameLen, valueLen)
  {
  }

  lemma {:induction false} RunFits(s: Scan, text: string, nameLen: nat, valueLen: nat)
    requires Fits(s, nameLen, valueLen)
    ensures Fits(Run(s, text, nameLen, valueLen).0, nameLen, valueLen)
    decreases |text|
  {
    if |text| > 0 {
      hide Step;
      StepFits(s, text[0], nameLen, valueLen);
      var next := Step(s, text[0], nameLen, valueLen);
      if next.Go? {
        RunFits(next.scan, text[1..], nameLen, valueLen);
      }
    }
  }

  /** The text of an element is copied to the value buffer; one as long as that would leave it without a NUL. */
  ghost predicate ElementIsEnded(levels: Levels, text: string, nameLen: nat, valueLen: nat) {
    var scan := Run(Begin(levels), text, nameLen, valueLen).0;
    IsElement(scan) ==> |scan.name| < valueLen
  }

  // ---------------------------------------------------------------- the parser

  /** The local variables of a call; `n` and `v` are the two write positions. */
  datatype Locals = Locals(n: nat, nameLen: nat, v: nat, valueLen: nat, single: bool, double: bool, divider: char)

  /** The local variables are those of the scan, and leave room for both NULs. */
  ghost predicate Tracks(scan: Scan, q: Locals, nameSize: nat, valueSize: nat) {
    && q.n < nameSize && q.v < valueSize
    && scan.single == q.single && scan.double == q.double && scan.inValue == (q.divider != NUL)
    && |scan.name| == q.n && |scan.value| == q.v
    && q.nameLen == (if q.divider != NUL then 0 else nameSize - q.n)
    && q.valueLen == valueSize - q.v
  }

  class Parser {
    const reader: Reader
    var curly: nat
    var square: nat
    var base: char
    var counter: nat

    ghost function State(): Levels
      reads this
    {
      Levels(curly, square, base, counter)
    }

    ghost predicate Valid()
      reads this, reader
    {
      reader.Valid() && curly < 256 && square < 256 && counter < 256
    }

    constructor (reader: Reader)
      requires reader.Valid()
      ensures Valid() && State() == INITIAL && this.reader == reader
    {
      this.reader := reader;
      curly, square, base, counter := 0, 0, NUL, 0;
    }

    /** The start of a new connection. */
    method Reset()
      modifies `curly, `square, `base, `counter
      ensures State() == INITIAL
    {
      curly, square, base, counter := 0, 0, NUL, 0;
    }

    /**
     One call.  It touches nothing outside the two buffers, and nothing in them past the
     given sizes.
     */
    method ParseParam(name: array<char>, nameSize: nat, value: array<char>, valueSize: nat) returns (ret: bool)
      requires Valid() && name != value
      requires 1 <= nameSize <= name.Length && 1 <= valueSize <= value.Length
      modifies this, reader, name, value
      ensures Valid()
      ensures var (scan, rest) := Run(Begin(old(State())), old(reader.Rest()), nameSize, valueSize);
              && Fits(scan, nameSize, valueSize)
              && State() == LevelsAfter(scan) && reader.Rest() == rest
              && name[..] == NameAfter(old(name[..]), scan, nameSize)
              && value[..] == ValueAfter(old(value[..]), scan, valueSize)
              && (ret <==> scan.inValue || |scan.name| > 0)
    {
      ghost var name0, value0 := name[..], value[..];
      ghost var scan := Begin(State());
      ghost var result := Run(scan, reader.Rest(), nameSize, valueSize);
      RunFits(scan, reader.Rest(), nameSize, valueSize);
      var q := Locals(0, nameSize, 0, valueSize, false, false, NUL);
      var stop := false;
      while !stop
        invariant Valid()
        invariant Fits(scan, nameSize, valueSize)
        invariant Tracks(scan, q, nameSize, valueSize) && scan.levels == State()
        invariant Holds(name[..], scan.name, name0) && Holds(value[..], scan.value, value0)
        invariant result == if stop then (scan, reader.Rest()) else Run(scan, reader.Rest(), nameSize, valueSize)
        decreases !stop, |reader.Rest()|
      {
        hide Step, Tracks, Holds;
        var r, c := reader.ReadC();
        assert r > 0 ==> ([c] + reader.Rest())[1..] == reader.Rest();
        if r > 0 && c != NUL {
          ghost var next := Step(scan, c, nameSize, valueSize);
          StepFits(scan, c, nameSize, valueSize);
          q, stop := Accept(c, name, nameSize, value, valueSize, q, name0, value0, scan);
          scan := next.scan;
        } else {
          stop := true;
        }
        if !stop && !(q.valueLen > 0 && r > 0) {
          stop := true;
        }
      }
      ret := Finish(name, nameSize, q.n, value, valueSize, q.v, q.nameLen, q.divider, name0, value0, scan);
    }

    /** The loop's body for one character. */
    method Accept(c: char, name: array<char>, nameSize: nat, value: array<char>, valueSize: nat, q0: Locals,
                  ghost name0: string, ghost value0: string, ghost scan: Scan)
      returns (q: Locals, stop: bool)
      requires Valid() && reader.extra <= 0 && NUL < c < 256 as char && name != value
      requires nameSize <= name.Length && valueSize <= value.Length
      requires Tracks(scan, q0, nameSize, valueSize) && scan.levels == State()
      requires Holds(name[..], scan.name, name0) && Holds(value[..], scan.value, value0)
      modifies `curly, `square, `base, reader`extra, name, value
      ensures Valid()
      ensures var next := Step(scan, c, nameSize, valueSize);
              && Tracks(next.scan, q, nameSize, valueSize)
              && Holds(name[..], next.scan.name, name0) && Holds(value[..], next.scan.value, value0)
              && next.scan.levels == State() && (stop <==> !next.Go?)
              && reader.Rest() == (if next.StopAndPush? then [c] else []) + old(reader.Rest())
      ensures q.valueLen > 0
    {
      hide StepBracket, Holds, IsSpace;
      q, stop := q0, false;
      var level := (curly + square) % 256;
      if c == ':' && curly == 1 && square == 0 && !q.single && !q.double {
        q := q.(nameLen := 0, divider := c);
      } else if IsSpace(c) && !q.single && !q.double && level <= 1 {
      } else if c == ',' && level == 1 {
        stop := true;
      } else if c == '\'' && level <= 1 && !q.double {
        q := q.(single := !q.single);
      } else if c == '"' && level <= 1 && !q.single {
        q := q.(double := !q.double);
      } else {
        q, stop := AcceptBracket(c, name, nameSize, value, valueSize, q, name0, value0, scan);
      }
    }

    /** The part of the loop's body that deals with brackets and with characters to store. */
    method AcceptBracket(c: char, name: array<char>, nameSize: nat, value: array<char>, valueSize: nat, q0: Locals,
                         ghost name0: string, ghost value0: string, ghost scan: Scan)
      returns (q: Locals, stop: bool)
      requires Valid() && reader.extra <= 0 && NUL < c < 256 as char && name != value
      requires nameSize <= name.Length && valueSize <= value.Length
      requires Tracks(scan, q0, nameSize, valueSize) && scan.levels == State()
      requires Holds(name[..], scan.name, name0) && Holds(value[..], scan.value, value0)
      modifies `curly, `square, `base, reader`extra, name, value
      ensures Valid()
      ensures var next := StepBracket(scan, c, nameSize, valueSize);
              && Tracks(next.scan, q, nameSize, valueSize)
              && Holds(name[..], next.scan.name, name0) && Holds(value[..], next.scan.value, value0)
              && next.scan.levels == State() && (stop <==> !next.Go?)
              && reader.Rest() == (if next.StopAndPush? then [c] else []) + old(reader.Rest())
      ensures q.valueLen > 0
    {
      hide Store, Nest, Holds, Inc, Dec;
      q, stop := q0, false;
      var level := (curly + square) % 256;
      if c == '{' && level == 0 {
        curly := Inc(curly);
        if base == NUL { base := c; }
      } else if c == '}' && curly <= 1 && base == '{' {
        curly := Dec(curly);
        reader.PushC(c);
        stop := true;
      } else if c == '[' && level == 0 {
        square := Inc(square);
        if base == NUL { base := c; }
      } else if c == ']' && square == 1 && base == '[' {
        square := Dec(square);
        stop := true;
      } else {
        q := StoreChar(c, name, nameSize, value, valueSize, q, name0, value0, scan);
        stop := CountBracket(c);
      }
    }

    method CountBracket(c: char) returns (stop: bool)
      requires curly < 256 && square < 256
      modifies `curly, `square
      ensures curly < 256 && square < 256
      ensures (State(), stop) == Nest(old(State()), c)
    {
      stop := false;
      if c == '{' {
        curly := Inc(curly);
      }
      if c == '}' {
        curly := Dec(curly);
        if curly <= 1 {
          return true;
        }
      }
      if c == '[' {
        square := Inc(square);
      }
      if c == ']' {
        square := Dec(square);
        if square == 1 {
          return true;
        }
      }
    }

    /** The end of a call: both NULs, and the number of an element that has no name. */
    method Finish(name: array<char>, nameSize: nat, n: nat, value: array<char>, valueSize: nat, v: nat,
                  nameRoom: nat, divider: char, ghost name0: string, ghost value0: string, ghost scan: Scan)
      returns (ret: bool)
      requires name != value && n < nameSize <= name.Length && v < valueSize <= value.Length
      requires Holds(name[..], scan.name, name0) && |scan.name| == n
      requires Holds(value[..], scan.value, value0) && |scan.value| == v
      requires scan.levels == State() && scan.inValue == (divider != NUL) && counter < 256
      requires nameRoom == if divider != NUL then 0 else nameSize - n
      modifies `counter, name, value
      ensures State() == LevelsAfter(scan)
      ensures name[..] == NameAfter(name0, scan, nameSize) && value[..] == ValueAfter(value0, scan, valueSize)
      ensures ret <==> scan.inValue || |scan.name| > 0
    {
      var nameLen := nameRoom;
      value[v] := NUL;
      name[n] := NUL;
      assert name[..] == Over(name0, scan.name) && value[..] == Over(value0, scan.value);
      if divider == NUL && n != 0 {
        assert name[..n] == scan.name;
        StrNCpy(value, name, n, valueSize);
        PrintDecimal(name, nameSize, counter);
        counter := Inc(counter);
        nameLen := 0;
      }
      ret := nameLen == 0;
    }
  }

  /** Stores one character, unless its buffer has room for nothing but the NUL. */
  method StoreChar(c: char, name: array<char>, nameSize: nat, value: array<char>, valueSize: nat, q0: Locals,
                   ghost name0: string, ghost value0: string, ghost scan: Scan) returns (q: Locals)
    requires name != value && nameSize <= name.Length && valueSize <= value.Length
    requires Tracks(scan, q0, nameSize, valueSize)
    requires Holds(name[..], scan.name, name0) && Holds(value[..], scan.value, value0)
    modifies name, value
    ensures var t := Store(scan, c, nameSize, valueSize);
            && Tracks(t, q, nameSize, valueSize)
            && Holds(name[..], t.name, name0) && Holds(value[..], t.value, value0)
  {
    hide Holds;
    q := q0;
    HoldsFits(name[..], scan.name, name0);
    HoldsFits(value[..], scan.value, value0);
    if q.nameLen > 0 {
      if q.nameLen > 1 {
        HoldsOneMore(name[..], scan.name, name0, c);
        name[q.n] := c;
        q := q.(n := q.n + 1, nameLen := q.nameLen - 1);
      }
    } else {
      if q.valueLen > 1 {
        HoldsOneMore(value[..], scan.value, value0, c);
        value[q.v] := c;
        q := q.(v := q.v + 1, valueLen := q.valueLen - 1);
      }
    }
  }

  /** A buffer after the first `i` of the characters `full` were written at its front. */
  function Overlaid(full: string, before: string, i: nat): (r: string)
    requires i <= |full| <= |before|
    ensures |r| == |before|
  {
    full[..i] + before[i..]
  }

  lemma OverlaidStep(full: string, before: string, i: nat)
    requires i < |full| <= |before|
    ensures Overlaid(full, before, i)[i := full[i]] == Overlaid(full, before, i + 1)
  {}

  /** What strncpy writes: the string, cut to the size, and NULs up to the size. */
  function Padded(w: string, size: nat): (r: string)
    ensures |r| == size
    ensures forall i | 0 <= i < size :: r[i] == if i < |w| then w[i] else NUL
  {
    Cut(w, size) + Zeros(size - Min(|w|, size))
  }

  lemma OverlaidEnds(w: string, before: string, size: nat)
    requires size <= |before|
    ensures Overlaid(Padded(w, size), before, 0) == before
    ensures Overlaid(Padded(w, size), before, size) == Copied(before, w, size)
  {
    assert Padded(w, size)[..size] == Padded(w, size);
  }

  /** strncpy(to, from, size) for a string of `length` characters. */
  method StrNCpy(to: array<char>, from: array<char>, length: nat, size: nat)
    requires to != from && size <= to.Length && length < from.Length
    modifies to
    ensures to[..] == Copied(old(to[..]), from[..length], size)
  {
    hide Overlaid, Padded, Copied;
    ghost var w: string, before: string := from[..length], to[..];
    ghost var full := Padded(w, size);
    OverlaidEnds(w, before, size);
    var i := 0;
    while i < size && i < length
      invariant i <= size && i <= length && to[..] == Overlaid(full, before, i)
    {
      OverlaidStep(full, before, i);
      assert from[i] == w[i];
      to[i] := from[i];
      i := i + 1;
    }
    while i < size
      invariant Min(length, size) <= i <= size && to[..] == Overlaid(full, before, i)
    {
      OverlaidStep(full, before, i);
      to[i] := NUL;
      i := i + 1;
    }
  }

  /** snprintf(to, size, "%d", number). */
  method PrintDecimal(to: array<char>, size: nat, number: nat)
    requires 1 <= size <= to.Length
    modifies to
    ensures to[..] == Over(old(to[..]), Cut(Decimal(number), size - 1))
  {
    var text := Cut(Decimal(number), size - 1);
    forall i | 0 <= i < |text| {
      to[i] := text[i];
    }
    to[|text|] := NUL;
  }
}
