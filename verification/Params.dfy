/**
 The parameters of a request, one at a time: the method and the content type choose the
 parser.  All the state lives in the request, its reader and the JSON parser.
 */
module Params {
  import opened Text
  import opened Stream
  import opened RequestText
  import opened HeaderEffects
  import Request
  import Json = JsonParam
  import JsonLaws
  import Form = FormParam
  import FormText
  import FormLaws
  import FormLimits
  import JsonLimits

  /** The parsers that a request may be handed to. */
  datatype Kind = UrlEncoded | JsonText | NoParameters

  function KindOf(verb: Verb, contentType: nat): Kind {
    if verb == NotSupported then NoParameters
    else if verb == Get || contentType == XWWWFORM then UrlEncoded
    else JsonText
  }

  /** GET reads the URL; the other methods read the body, as a form for the form type and else as JSON. */
  lemma KindsAre(verb: Verb, contentType: nat)
    ensures KindOf(Get, contentType) == UrlEncoded && KindOf(NotSupported, contentType) == NoParameters
    ensures verb in {Post, Put, Delete, Patch} ==>
              KindOf(verb, contentType) == if contentType == 5 then UrlEncoded else JsonText
  {}

  /** Everything the replies depend on. */
  datatype Ahead = Ahead(kind: Kind, form: string, levels: Json.Levels, rest: string)

  /** The replies to `n` calls in a row. */
  function Upcoming(s: Ahead, nameSize: nat, valueSize: nat, n: nat): (r: seq<Reply>)
    requires nameSize >= 1
    ensures |r| == n
  {
    match s.kind
    case UrlEncoded => FormLaws.Replies(s.form, nameSize, valueSize, n)
    case JsonText => JsonLaws.Replies(s.levels, s.rest, nameSize, valueSize, n)
    case NoParameters => seq(n, _ => NO_MORE)
  }

  /** The next call leaves both strings ended inside their buffers. */
  ghost predicate EndInside(s: Ahead, nameSize: nat, valueSize: nat, nameBytes: nat, valueBytes: nat) {
    && (s.kind == UrlEncoded ==> FormText.HasRoom(s.form, nameSize, valueSize, nameBytes, valueBytes))
    && (s.kind == JsonText ==> Json.ElementIsEnded(s.levels, s.rest, nameSize, valueSize))
  }

  class Parameters {
    const request: Request.Parser
    const json: Json.Parser

    ghost predicate Valid()
      reads request`urlLen, request`params, request`paramsStart, request.url, request.reader, json, json.reader
    {
      request.Valid() && json.Valid() && json.reader == request.reader
    }

    constructor (request: Request.Parser, json: Json.Parser)
      requires request.Valid() && json.Valid() && json.reader == request.reader
      ensures Valid() && this.request == request && this.json == json
    {
      this.request, this.json := request, json;
    }

    ghost function Kind(): Kind
      reads request`verb, request`contentType
    {
      KindOf(request.verb, request.contentType)
    }

    ghost function State(): (s: Ahead)
      requires Valid()
      ensures s.levels.curly < 256 && s.levels.square < 256 && s.levels.counter < 256
      reads request`verb, request`contentType, request`urlLen, request`params, request`paramsStart, request.url,
            request.reader, json, json.reader
    {
      Ahead(Kind(), Form.Source(request), json.State(), request.reader.Rest())
    }

    /** What the next `n` calls report. */
    ghost function Coming(nameSize: nat, valueSize: nat, n: nat): (r: seq<Reply>)
      requires Valid() && nameSize >= 1
      reads request`verb, request`contentType, request`urlLen, request`params, request`paramsStart, request.url,
            request.reader, json, json.reader
      ensures |r| == n
    {
      Upcoming(State(), nameSize, valueSize, n)
    }

    /** The next parameter. */
    method ParseParam(name: array<char>, nameSize: nat, value: array<char>, valueSize: nat) returns (ret: bool)
      requires Valid() && name != value && 1 <= nameSize <= name.Length && 1 <= valueSize <= value.Length
      requires EndInside(State(), nameSize, valueSize, name.Length, value.Length)
      modifies request`params, request`paramsStart, request.reader, json, name, value
      ensures Valid()
      ensures var r := Reply(ret, CString(name[..]), CString(value[..]));
              forall n: nat ::
                Upcoming(old(State()), nameSize, valueSize, n + 1) == [r] + Upcoming(State(), nameSize, valueSize, n)
    {
      hide Form.Source, FormText.Run, FormText.Fits, FormLaws.Replies, Over, CString, IsText;
      hide Json.Run, Json.Fits, Json.LevelsAfter, Json.NameAfter, Json.ValueAfter, JsonLaws.Replies, KindOf;
      ghost var s := State();
      ret := false;
      name[0] := NUL;
      value[0] := NUL;
      ghost var name0: string, value0: string := name[..], value[..];
      assert State() == s;
      var kind := KindOf(request.verb, request.contentType);
      if kind == UrlEncoded {
        ret := Form.ParseURLParam(request, name, nameSize, value, valueSize);
        FormReply(s.form, nameSize, valueSize, name0, value0);
      } else if kind == JsonText {
        ret := json.ParseParam(name, nameSize, value, valueSize);
        JsonReply(s.levels, s.rest, nameSize, valueSize, name0, value0);
      } else {
        EmptyStrings(name0, value0);
        NoReplies(s, State(), nameSize, valueSize);
      }
    }

    /** Reads `n` parameters, as the callbacks do. */
    method ReadParams(nameSize: nat, valueSize: nat, n: nat) returns (replies: seq<Reply>)
      requires Valid() && 1 <= nameSize <= valueSize
      modifies request`params, request`paramsStart, request.reader, json
      ensures Valid() && replies == old(Coming(nameSize, valueSize, n))
    {
      hide Valid, State, Upcoming, EndInside, CString, KindOf, Form.Source;
      ghost var all := Coming(nameSize, valueSize, n);
      var name, value := new char[nameSize + 1], new char[valueSize + 1];
      replies := [];
      while |replies| < n
        invariant Valid() && |replies| <= n
        invariant all == replies + Coming(nameSize, valueSize, n - |replies|)
      {
        SpareBytes(State(), nameSize, valueSize, name.Length, value.Length);
        ghost var m: nat := n - |replies| - 1;
        ghost var before := State();
        var ret := ParseParam(name, nameSize, value, valueSize);
        var reply := Reply(ret, CString(name[..]), CString(value[..]));
        assert Upcoming(before, nameSize, valueSize, m + 1) == [reply] + Upcoming(State(), nameSize, valueSize, m);
        OneMoreReply(replies, reply, Upcoming(State(), nameSize, valueSize, m));
        replies := replies + [reply];
      }
    }
  }

  lemma OneMoreReply(before: seq<Reply>, reply: Reply, after: seq<Reply>)
    ensures before + ([reply] + after) == (before + [reply]) + after
  {}

  lemma NoReplies(s: Ahead, t: Ahead, nameSize: nat, valueSize: nat)
    requires s.kind == t.kind == NoParameters && nameSize >= 1
    ensures forall n: nat :: Upcoming(s, nameSize, valueSize, n + 1) == [NO_MORE] + Upcoming(t, nameSize, valueSize, n)
  {}

  lemma EmptyStrings(name: string, value: string)
    requires |name| > 0 && |value| > 0 && name[0] == NUL && value[0] == NUL
    ensures CString(name) == "" && CString(value) == ""
  {}

  /** With a byte to spare, and an element's text no longer than a value may be, every call's strings end inside. */
  lemma SpareBytes(s: Ahead, nameSize: nat, valueSize: nat, nameBytes: nat, valueBytes: nat)
    requires 1 <= nameSize <= valueSize && nameSize < nameBytes && valueSize < valueBytes
    requires s.levels.curly < 256 && s.levels.square < 256 && s.levels.counter < 256
    ensures EndInside(s, nameSize, valueSize, nameBytes, valueBytes)
  {
    FormText.RunFits(FormText.Begin(nameSize, valueSize), s.form, nameSize, valueSize);
    Json.RunFits(Json.Begin(s.levels), s.rest, nameSize, valueSize);
  }

  /** Every call on every state ends its strings inside exactly when the sizes are as the spare bytes have them. */
  lemma SizesDecide(nameSize: nat, valueSize: nat, nameBytes: nat, valueBytes: nat)
    requires nameSize >= 1 && valueSize >= 1
    ensures (forall s: Ahead | JsonLimits.IsState(s.levels) :: EndInside(s, nameSize, valueSize, nameBytes, valueBytes))
       <==> nameSize <= valueSize && nameSize < nameBytes && valueSize < valueBytes
  {
    hide FormText.HasRoom, Json.ElementIsEnded;
    FormLimits.SizesDecideRoom(nameSize, valueSize, nameBytes, valueBytes);
    JsonLimits.SizesDecideElements(nameSize, valueSize);
    if nameSize <= valueSize && nameSize < nameBytes && valueSize < valueBytes {
      assert forall s: Ahead | JsonLimits.IsState(s.levels) :: EndInside(s, nameSize, valueSize, nameBytes, valueBytes);
    } else if !(nameSize < nameBytes && valueSize < valueBytes) {
      var text :| !FormText.HasRoom(text, nameSize, valueSize, nameBytes, valueBytes);
      assert !EndInside(Ahead(UrlEncoded, text, Json.INITIAL, ""), nameSize, valueSize, nameBytes, valueBytes);
    } else {
      var l, text :| JsonLimits.IsState(l) && !Json.ElementIsEnded(l, text, nameSize, valueSize);
      assert !EndInside(Ahead(JsonText, "", l, text), nameSize, valueSize, nameBytes, valueBytes);
    }
  }

  lemma FormReply(text: string, nameSize: nat, valueSize: nat, name: string, value: string)
    requires FormText.HasRoom(text, nameSize, valueSize, |name|, |value|)
    ensures var (scan, rest) := FormText.Run(FormText.Begin(nameSize, valueSize), text);
            var r := Reply(scan.nameLen == 0, CString(Over(name, scan.name)), CString(Over(value, scan.value)));
            forall n: nat :: FormLaws.Replies(text, nameSize, valueSize, n + 1)
                               == [r] + FormLaws.Replies(rest, nameSize, valueSize, n)
  {
    hide FormText.Run, CString, Over;
    var s := FormText.Begin(nameSize, valueSize);
    var scan := FormText.Run(s, text).0;
    OverIsString(name, scan.name);
    OverIsString(value, scan.value);
  }

  lemma JsonReply(levels: Json.Levels, text: string, nameSize: nat, valueSize: nat, name: string, value: string)
    requires IsText(text) && levels.curly < 256 && levels.square < 256 && levels.counter < 256
    requires 1 <= nameSize <= |name| && 1 <= valueSize <= |value|
    requires Json.ElementIsEnded(levels, text, nameSize, valueSize)
    ensures var (scan, rest) := Json.Run(Json.Begin(levels), text, nameSize, valueSize);
            && Json.Fits(scan, nameSize, valueSize)
            && var r := Reply(scan.inValue || |scan.name| > 0, CString(Json.NameAfter(name, scan, nameSize)),
                              CString(Json.ValueAfter(value, scan, valueSize)));
               forall n: nat :: JsonLaws.Replies(levels, text, nameSize, valueSize, n + 1)
                                  == [r] + JsonLaws.Replies(Json.LevelsAfter(scan), rest, nameSize, valueSize, n)
  {
    hide Json.Run, CString, Json.NameAfter, Json.ValueAfter, IsText, Json.LevelsAfter;
    var s := Json.Begin(levels);
    EmptyIsText();
    var scan := Json.Run(s, text, nameSize, valueSize).0;
    Json.RunFits(s, text, nameSize, valueSize);
    JsonLaws.RunStoresText(s, text, nameSize, valueSize);
    JsonLaws.NameHoldsReply(name, scan, nameSize, valueSize);
    JsonLaws.ValueHoldsReply(value, scan, nameSize, valueSize);
  }

  lemma EmptyIsText()
    ensures IsText("")
  {}
}
