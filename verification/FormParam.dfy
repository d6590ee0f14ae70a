/**
 The resumable parser of form-urlencoded parameters.  For GET the characters come from the
 URL buffer, otherwise from the body.
 */
module FormParam {
  import opened Text
  import opened Stream
  import opened RequestText
  import opened Request
  import opened FormText

  /** The characters that are still to come. */
  ghost function Source(p: Parser): string
    requires p.Valid() && p.reader.Valid()
    reads p`verb, p`urlLen, p`params, p`paramsStart, p.url, p.reader
  {
    if p.verb == Get then (if p.paramsStart < URL_SIZE then p.url[p.paramsStart..] else "")
    else Strip(p.reader.Rest())
  }

  /** Fetches the next character; `c0` is what the caller's variable held before. */
  method ParamChar(p: Parser, c0: Byte) returns (ret: int, c: Byte)
    requires p.Valid() && p.reader.Valid()
    modifies p`params, p`paramsStart, p.reader
    ensures p.Valid() && p.reader.Valid()
    ensures var t := old(Source(p));
            if |t| == 0 then ret == 0 && Source(p) == "" && c == (if p.verb == Get then c0 else NUL)
            else ret == 1 && c == t[0] && Source(p) == t[1..]
  {
    hide IsText;
    if p.verb == Get {
      ret, c := 0, c0;
      var start := p.paramsStart;
      p.paramsStart := start + 1;
      if start < URL_SIZE {
        c := p.url[p.params];
        p.params := p.params + 1;
        ret := 1;
        assert c == p.url[start];
      }
    } else {
      ret, c := BodyChar(p.reader);
    }
  }

  /** Skips what a body may be interspersed with. */
  method BodyChar(reader: Reader) returns (ret: int, c: Byte)
    requires reader.Valid()
    modifies reader
    ensures reader.Valid()
    ensures var t := Strip(old(reader.Rest()));
            if |t| == 0 then ret == 0 && c == NUL && Strip(reader.Rest()) == ""
            else ret == 1 && c == t[0] && Strip(reader.Rest()) == t[1..]
  {
    hide IsText, Strip, IsDropped;
    ghost var t := Strip(reader.Rest());
    ghost var r := reader.Rest();
    StripOfNothing();
    ret, c := reader.ReadC();
    if ret == 1 {
      StripStep(c, reader.Rest());
    }
    while ret == 1 && (IsSpace(c) || c == '?')
      invariant reader.Valid() && reader.extra <= 0
      invariant if ret == 0 then c == NUL && reader.Rest() == "" && t == ""
                else ret == 1 && t == if IsDropped(c) then Strip(reader.Rest()) else [c] + Strip(reader.Rest())
      decreases |reader.Rest()|, ret
    {
      DroppedChar(c);
      ret, c := reader.ReadC();
      if ret == 1 {
        StripStep(c, reader.Rest());
      }
    }
    DroppedChar(c);
  }

  lemma StripOfNothing()
    ensures Strip("") == ""
  {}

  lemma DroppedChar(c: char)
    ensures IsDropped(c) <==> IsSpace(c) || c == '?'
  {}

  /** The two characters behind a percent sign, as strtol reads them. */
  method DecodePercent(p: Parser) returns (c: Byte)
    requires p.Valid() && p.reader.Valid() && (p.verb == Get ==> |Source(p)| > 0)
    modifies p`params, p`paramsStart, p.reader
    ensures p.Valid() && p.reader.Valid()
    ensures var t := old(Source(p)); c == Decode(t) && Source(p) == t[if |t| < 2 then |t| else 2..]
  {
    hide StrToL, Source;
    ghost var t := Source(p);
    SourceEnds(p);
    var decode := new Byte[3];
    var got, digit := ParamChar(p, decode[0]);
    decode[0] := digit;
    got, digit := ParamChar(p, decode[1]);
    decode[1] := digit;
    decode[2] := NUL;
    c := ToChar(StrToL(CString(decode[..])));
    TwoDigits(decode[..], t);
  }

  /** A GET source ends with a NUL, so a missing digit is not looked at. */
  lemma SourceEnds(p: Parser)
    requires p.Valid() && p.reader.Valid()
    ensures p.verb == Get && |Source(p)| > 0 ==> Source(p)[|Source(p)| - 1] == NUL
  {}

  lemma TwoDigits(decode: string, t: string)
    requires |decode| == 3 && decode[2] == NUL
    requires |t| > 0 ==> decode[0] == t[0]
    requires |t| > 1 ==> decode[1] == t[1]
    requires |t| == 0 ==> decode[0] == NUL
    requires |t| == 1 ==> decode[1] == NUL || t[0] == NUL
    ensures CString(decode) == CString(t[..if |t| < 2 then |t| else 2])
  {
    assert CString(decode[2..]) == "";
    assert decode[1..][1..] == decode[2..];
    var u := t[..if |t| < 2 then |t| else 2];
    assert CString(decode[1..]) == if decode[1] == NUL then "" else [decode[1]];
    if |u| > 0 {
      assert CString(u[1..]) == if |u| < 2 || u[1] == NUL then "" else [u[1]] by {
        if |u| == 2 { assert CString(u[1..][1..]) == ""; }
      }
    }
  }

  /** The write positions and what is left of the buffers; `n` also counts the characters of the name. */
  datatype Locals = Locals(n: nat, nameLen: nat, v: nat, valueLen: nat)

  /** The buffers hold what the scan has stored, and nothing else was changed. */
  ghost predicate Stored(s: Scan, q: Locals, name: string, value: string, name0: string, value0: string) {
    && s.nameLen == q.nameLen && s.valueLen == q.valueLen && |s.name| == q.n && |s.value| == q.v
    && Holds(name, s.name, name0) && Holds(value, s.value, value0)
  }

  method StoreChar(c: char, name: array<char>, value: array<char>, q0: Locals, ghost s: Scan, ghost name0: string,
                   ghost value0: string) returns (q: Locals)
    requires name != value && q0.valueLen > 0
    requires q0.n + q0.nameLen <= name.Length && q0.v + q0.valueLen <= value.Length
    requires Stored(s, q0, name[..], value[..], name0, value0)
    modifies name, value
    ensures Stored(Store(s, c), q, name[..], value[..], name0, value0)
  {
    q := q0;
    if q.nameLen > 0 {
      HoldsOneMore(name[..], s.name, name0, c);
      name[q.n] := c;
      q := q.(n := q.n + 1, nameLen := q.nameLen - 1);
    } else {
      HoldsOneMore(value[..], s.value, value0, c);
      value[q.v] := c;
      q := q.(v := q.v + 1, valueLen := q.valueLen - 1);
    }
  }

  /** One call. */
  method ParseURLParam(p: Parser, name: array<char>, nameSize: nat, value: array<char>, valueSize: nat) returns (ret: bool)
    requires p.Valid() && p.reader.Valid() && name != value
    requires nameSize <= name.Length && 1 <= valueSize <= value.Length
    requires HasRoom(Source(p), nameSize, valueSize, name.Length, value.Length)
    modifies p`params, p`paramsStart, p.reader, name, value
    ensures p.Valid() && p.reader.Valid()
    ensures var (scan, rest) := Run(Begin(nameSize, valueSize), old(Source(p)));
            && Fits(scan, nameSize, valueSize)
            && Source(p) == rest
            && name[..] == Over(old(name[..]), scan.name) && value[..] == Over(old(value[..]), scan.value)
            && (ret <==> scan.nameLen == 0)
  {
    hide Source, Decode, Holds, IsSpace, Run, Store;
    ghost var name0: string, value0: string := name[..], value[..];
    ghost var scan := Begin(nameSize, valueSize);
    ghost var result := Run(scan, Source(p));
    RunFits(scan, Source(p), nameSize, valueSize);
    HoldsNothing(name0);
    HoldsNothing(value0);
    var q := Locals(0, nameSize, 0, valueSize);
    var c: Byte, stop := *, false;
    while !stop
      invariant p.Valid() && p.reader.Valid()
      invariant Stored(scan, q, name[..], value[..], name0, value0) && Fits(scan, nameSize, valueSize)
      invariant result == if stop then (scan, Source(p)) else Run(scan, Source(p))
      invariant !stop ==> q.valueLen > 0
      decreases !stop, |Source(p)|
    {
      ghost var t := Source(p);
      SourceEnds(p);
      var got;
      got, c := ParamChar(p, c);
      if got > 0 {
        assert t == [c] + Source(p);
        RunStep(scan, c, Source(p));
      } else {
        RunEnds(scan, t);
      }
      if got > 0 && c != NUL {
        if c == '=' {
          q := q.(nameLen := 0);
          scan := scan.(nameLen := 0);
        } else if c == '&' || IsSpace(c) {
          if q.n > 0 {
            stop := true;
          }
        } else {
          if c == '%' {
            c := DecodePercent(p);
          }
          q := StoreChar(c, name, value, q, scan, name0, value0);
          StoreFits(scan, c, nameSize, valueSize);
          scan := Store(scan, c);
        }
      } else {
        stop := true;
      }
      if !(q.valueLen > 0 && got > 0) {
        if !stop {
          RunEnds(scan, Source(p));
        }
        stop := true;
      }
    }
    HoldsTerminated(name[..], scan.name, name0);
    HoldsTerminated(value[..], scan.value, value0);
    value[q.v] := NUL;
    name[q.n] := NUL;
    ret := q.nameLen == 0;
  }

  lemma StoreFits(s: Scan, c: char, nameSize: nat, valueSize: nat)
    requires Fits(s, nameSize, valueSize) && s.valueLen > 0
    ensures Fits(Store(s, c), nameSize, valueSize)
  {}
}
