/**
 The form-urlencoded parser as functions on the characters that reach it: percent codes,
 one call, and the characters that the body path drops.
 */
module FormText {
  import opened Text

  // ---------------------------------------------------------------- what reaches the parser

  /** Space and question marks in a body are dropped, wherever they stand. */
  predicate IsDropped(c: char) {
    IsSpace(c) || c == '?'
  }

  function Strip(s: string): (r: string)
    ensures |r| <= |s|
    ensures |r| > 0 ==> !IsDropped(r[0]) && r[0] in s
  {
    if |s| == 0 then "" else if IsDropped(s[0]) then Strip(s[1..]) else [s[0]] + Strip(s[1..])
  }

  lemma StripStep(c: char, s: string)
    ensures Strip([c] + s) == if IsDropped(c) then Strip(s) else [c] + Strip(s)
  {
    assert ([c] + s)[1..] == s;
  }

  // ---------------------------------------------------------------- strtol, base 16

  function HexDigit(c: char): (d: int)
    ensures -1 <= d < 16
  {
    if '0' <= c <= '9' then c as int - '0' as int
    else if 'a' <= c <= 'f' then c as int - 'a' as int + 10
    else if 'A' <= c <= 'F' then c as int - 'A' as int + 10
    else -1
  }

  function SkipSpace(s: string): (r: string)
    ensures |r| <= |s|
  {
    if |s| > 0 && IsSpace(s[0]) then SkipSpace(s[1..]) else s
  }

  function Digits(s: string, value: int): int {
    if |s| > 0 && HexDigit(s[0]) >= 0 then Digits(s[1..], 16 * value + HexDigit(s[0])) else value
  }

  /** strtol(s, NULL, 16) for strings too short for the prefix 0x and a digit. */
  function StrToL(s: string): int {
    var t := SkipSpace(s);
    if |t| > 0 && t[0] == '-' then -Digits(t[1..], 0)
    else if |t| > 0 && t[0] == '+' then Digits(t[1..], 0)
    else Digits(t, 0)
  }

  /** The conversion of a long to a char. */
  function ToChar(n: int): Byte {
    (n % 256) as char
  }

  /** The character coded by the two behind a percent sign; a missing one counts as NUL. */
  function Decode(s: string): Byte {
    ToChar(StrToL(CString(s[..if |s| < 2 then |s| else 2])))
  }

  // ---------------------------------------------------------------- one call

  /** What a call has stored, and the room that is left in each buffer. */
  datatype Scan = Scan(name: string, value: string, nameLen: nat, valueLen: nat)

  function Begin(nameSize: nat, valueSize: nat): Scan {
    Scan("", "", nameSize, valueSize)
  }

  /** Stores a character; when the name buffer is full it goes to the value. */
  function Store(s: Scan, c: char): Scan
    requires s.valueLen > 0
  {
    if s.nameLen > 0 then s.(name := s.name + [c], nameLen := s.nameLen - 1)
    else s.(value := s.value + [c], valueLen := s.valueLen - 1)
  }

  predicate IsSeparator(c: char) {
    c == '&' || IsSpace(c)
  }

  /** What separates pairs, and what a body drops. */
  lemma SeparatorsAre(c: char)
    ensures IsSeparator(c) <==> c as int in {9, 10, 11, 12, 13, 32, 38}
    ensures IsDropped(c) <==> c as int in {9, 10, 11, 12, 13, 32, 63}
  {}

  /** Reads until a pair ends; also what is left. */
  function Run(s: Scan, text: string): (r: (Scan, string))
    ensures |r.1| <= |text|
    decreases |text|
  {
    if s.valueLen == 0 || |text| == 0 then (s, text)
    else
      var c, rest := text[0], text[1..];
      if c == NUL then (s, rest)
      else if c == '=' then Run(s.(nameLen := 0), rest)
      else if IsSeparator(c) then (if |s.name| > 0 then (s, rest) else Run(s, rest))
      else if c == '%' then Run(Store(s, Decode(rest)), rest[if |rest| < 2 then |rest| else 2..])
      else Run(Store(s, c), rest)
  }

  /** What the first character does. */
  lemma RunStep(s: Scan, c: char, rest: string)
    requires s.valueLen > 0
    ensures Run(s, [c] + rest)
         == if c == NUL then (s, rest)
            else if c == '=' then Run(s.(nameLen := 0), rest)
            else if IsSeparator(c) then (if |s.name| > 0 then (s, rest) else Run(s, rest))
            else if c == '%' then Run(Store(s, Decode(rest)), rest[if |rest| < 2 then |rest| else 2..])
            else Run(Store(s, c), rest)
  {
    hide Decode;
    assert ([c] + rest)[1..] == rest;
  }

  lemma RunEnds(s: Scan, text: string)
    requires s.valueLen == 0 || |text| == 0
    ensures Run(s, text) == (s, text)
  {}

  /** The lengths add up, and both NULs stay within one byte behind the buffers. */
  ghost predicate Fits(s: Scan, nameSize: nat, valueSize: nat) {
    |s.name| + s.nameLen <= nameSize && |s.value| + s.valueLen == valueSize
  }

  lemma {:induction false} RunFits(s: Scan, text: string, nameSize: nat, valueSize: nat)
    requires Fits(s, nameSize, valueSize)
    ensures Fits(Run(s, text).0, nameSize, valueSize)
    decreases |text|
  {
    if s.valueLen > 0 && |text| > 0 {
      hide Decode;
      var c, rest := text[0], text[1..];
      if c == NUL {
      } else if c == '=' {
        RunFits(s.(nameLen := 0), rest, nameSize, valueSize);
      } else if IsSeparator(c) {
        RunFits(s, rest, nameSize, valueSize);
      } else if c == '%' {
        RunFits(Store(s, Decode(rest)), rest[if |rest| < 2 then |rest| else 2..], nameSize, valueSize);
      } else {
        RunFits(Store(s, c), rest, nameSize, valueSize);
      }
    }
  }

  /** A text that fills its buffer is followed by a NUL behind the given size; there must be a byte for it. */
  ghost predicate HasRoom(text: string, nameSize: nat, valueSize: nat, nameBytes: nat, valueBytes: nat) {
    var s := Run(Begin(nameSize, valueSize), text).0;
    |s.name| < nameBytes && |s.value| < valueBytes
  }
}
