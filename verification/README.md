# attoHTTP: the request path, the parameter parsers, the answers, Base64 and MD5

attoHTTP is a web server in one C file for small devices. It reads a connection one byte at a time,
with one slot to put a byte back, stores what it keeps in small fixed buffers, and answers with a
page, an event stream or the return code of a user's callback. The callback reads the parameters of
the request one pair at a time. Two builds ask for credentials; one of them carries a Base64 codec
and the other an MD5.

This project models that code in Dafny and proves what it promises. The parts, from the bottom up:

* `Rfc1321`, `Md5Steps`, `Md5Facts`, `Md5`, `Md5Vectors`, `WordNumbers`, `Casts`: RFC 1321 as a
  plain definition (section 3), the macros and the 64 unrolled lines of `src/md5.c`, and the
  streaming context with its split counter. The main result is `Md5.DigestOfChunks`: whatever way a
  message is cut into pieces, the context computes the digest that the standard defines on the whole
  message. The 64 unrolled lines are themselves proved equal to the indexed loop of section 3.4, and
  the definition gives two of the digests that section A.5 prints.
* `Base64`, `Base64Laws`: both loops, with 16-bit indices and truncation to the caller's buffer, and
  section 6.8 of RFC 2045 as a definition on 24-bit groups. The encoder reads its input as signed
  bytes and its right shifts copy the sign, so the encoding law and the round trip hold for exactly
  those inputs in which every negative byte that is not the first of its group follows a byte whose
  carried-over bits are all ones (`Clean`). Inputs below 128 are among them.
* `Text`, `Stream`: C strings, and the reader with its slot. `Rest()` is the logical input: the byte
  in the slot and then what has not arrived.
* `RequestText`, `HeaderEffects`, `RequestFacts`, `Request`, `RequestLaws`, `HeaderLaws`: the
  request line and the header block. The functions say what is read out of any input; the class does
  it in the source's buffers; the laws print a request and read it back.
* `JsonParam`, `JsonLaws`, `JsonDeep`, `JsonNested`, `JsonParts`, `JsonLimits`, `FormText`, `FormParam`,
  `FormLaws`, `FormLimits`, `Params`: the two resumable parameter parsers and the dispatch between
  them. The state that survives from call to call (brackets, element counter, slot, URL position) is
  in the model, so the round trips are about sequences of calls.
* `Route`, `RouteLaws`: the path is cut at its slashes, in place, into commands and ids.
* `Response`, `Execute`, `ResponseLaws`, `SiteLaws`: the answer to each request, the methods that
  send it, what a client reads out of it, and who gets one at all. Access safety rests on three
  results: `HeaderEffects.AuthDecides` (what any list of header lines leaves in the flag and the
  code), `Response.Judged` (that these let a client pass exactly when it was granted) and
  `Execute.Server.Execute` (that every run answers as the lines it read decide, and that these are
  lines of its input). `ResponseLaws.OnlyTheGrantedAreServed` only reads the conclusion off the
  definition of the outcome, and `ResponseLaws.HeadersDecide` puts it in terms of the headers.
* `EndToEnd`, `Runs`: from the bytes of a printed request to what the callback is called with and
  reads, and whole runs of the server on such bytes.

The state that the C code keeps in globals is the state of three objects that one server owns:
`Request.Parser` (method, URL buffer, return code, content types, the authentication flag),
`JsonParam.Parser` (the bracket levels, the base bracket and the counter) and `Execute.Server` (the
two "sent" flags, the content length and the output). Characters are Dafny characters below 256.
`MD5_u32plus` is 32 bits and `unsigned long` 64 bits.

Outside the code are: the connection (a finite text without NUL bytes, then end of input, as in
`test/noauth/test.c:59-75`), the user's credential check (any function of the scheme and the
credentials), and the user's callback (it reads any fixed number of parameters and then answers with
any function of its arguments and of what it read; it writes nothing).

## Where the code and its documentation differ

The model follows the code.

* The comment at `src/attohttp.c:1087-1091` assigns a format to each method. The code takes the URL
  for GET, and for the other methods a form when the content type says so and JSON otherwise
  (`Params.KindOf`).
* In JSON a comma ends a value even inside quotes. In either kind of quotes, and wherever the member
  stands, the value is cut at its first comma (`JsonLimits.QuotedIsCut`), so it comes back, as far
  as the buffer holds it, exactly when no comma stands in that part (`JsonLimits.QuotedComesBack`).
  The characters that are stored inside a token are exactly the legal ones
  (`JsonLaws.OnlyLegalCharsAreStored`).
* Behind a nested object that another member follows, a call reports the end too early: after
  `{a:{},b:c}` the four calls report `a`, the end, `b`, the end (`JsonNested.MemberBehindNested`). A
  list does not do that (`JsonNested.MemberBehindList`). The members and then the end are reported
  if and only if no member but the last holds an object (`JsonNested.NestedRoundTrip`), and
  `JsonNested.ObjectIsHeard` lists what is reported otherwise. In an array both objects and lists
  end their calls, so there the condition is that none but the last element is either
  (`JsonParts.PartsRoundTrip`, `JsonParts.ArrayIsHeard`).
* An ampersand ends a pair only if its key is not empty. Otherwise the value goes on: `=v&k=w` is
  one pair with the value `vkw` (`FormLimits.EmptyKeyTakesNext`). Printed pairs come back, with the
  end behind them, if and only if they fit and each that another follows has a key or fills the
  value buffer (`FormLaws.FormRoundTrip`).
* On GET a call behind the last pair reads on in what an earlier request left in the URL buffer. A
  run for `/page?b=2` leaves such a buffer (`Runs.LeaveOldBuffer`), and on it a request for `/?a=1`
  reports `b=2` second (`EndToEnd.OldPairComesBack`). When each pair that another follows has a key
  or fills the value buffer, the end is reported if and only if there is no pair, or the last value
  fills its buffer, so that its NUL is left, or the old bytes look like the end: they are separators
  up to a NUL, or start with a coded NUL in a name that has no divider and does not fill its buffer
  (`FormLimits.EndIsReported`). Otherwise only bare dividers may follow the pair with the empty key,
  and the old bytes must make up for them (`FormLimits.EndsBehind`, `FormLimits.TargetComesBack`,
  `EndToEnd.QueryEnds`).
* Of a target with several question marks the parameters between the first and the last are lost
  (`RequestLaws.PartsOfTarget`).
* A form text that fills its buffer exactly has its NUL put one byte behind the given size, as
  `ab=c` does with a name size of 2 (`FormLimits.FullTextsNeedAByte`). For one pair the NULs stay
  inside the sizes if and only if both texts are shorter than them (`FormLimits.PairHasRoom`); for
  every text they stay inside the arrays if and only if each array is larger than its size
  (`FormLimits.SizesDecideRoom`).
* A JSON array element as long as the value buffer leaves that buffer without a NUL, as `[abcd]`
  does with room for four characters (`JsonLimits.LongElement`). No text does so if and only if the
  name buffer is not larger than the value buffer (`JsonLimits.SizesDecideElements`).
* A header value that ends with its scheme makes the credentials start behind the NUL of the value
  (`src/attohttp.c:519-524`), in bytes that earlier lines left. With 63 characters, such as 58
  others and then `Basic` (`ResponseLaws.PointerLeavesFullLine`), the pointer itself leaves the
  64-byte buffer; and whenever no NUL stands behind the pointer, the source reads past the buffer.
  `ResponseLaws.PointerLeavesBuffer` says that these are exactly the cases. The model ends the
  string where the buffer ends.
* The last resort for an unknown return code at `src/attohttp.c:1337-1339` is never needed (asserted
  in `Execute.Server.Execute`).
* A server-sent-events result returns 1 and prints 200, and a callback's code without a reason of
  its own is printed and returned as 500.

## Model

| member | source | states |
|---|---|---|
| Md5.DigestOfChunks | src/md5.c:207-301 | Init, an Update for each piece, and Final give the RFC 1321 digest of the whole message, for every message and every way of cutting it |
| Md5.Context.Init | src/md5.c:207-216 | the four registers of section 3.3 and a zero counter stand for the empty message |
| Md5.Context.Update | src/md5.c:218-250 | the context that stood for a message stands for that message followed by the data: the counter is its length mod 2^61 split at bit 29, the buffer starts with its unfinished block, and the registers are the compression of its whole blocks |
| Md5.Context.Count | src/md5.c:222-225 | the split counter advances by any 64-bit size, with the wrap of the low 29 bits carried |
| Md5Facts.CounterAdvances | src/md5.c:222-225 | comparing the masked sum with the old low word detects every carry, also when the 64-bit sum itself wraps |
| Md5.Context.Body | src/md5.c:100-205 | the do-while loop compresses every 64-byte block of the data in turn and returns what follows |
| Md5.Context.Final | src/md5.c:252-301 | writes the digest of the message to the first 16 bytes and nothing behind them, and clears the context |
| Md5.Context.FinishFinal | src/md5.c:269-300 | the length bytes taken from the two counter words complete the padding, and the result is the digest |
| Md5.Context.Emit | src/md5.c:283-298 | the 16 result bytes are the registers, low byte first |
| Md5.RoundsAreCompress | src/md5.c:113-194 | adding the saved registers to the state after 64 steps is the compression of section 3.4 |
| Md5Vectors.DigestOfEmpty | src/md5.c:207-301 | the digest of the empty message is d41d8cd98f00b204e9800998ecf8427e, as in section A.5 of RFC 1321 |
| Md5Vectors.DigestOfAbc | src/md5.c:207-301 | the digest of "abc" is 900150983cd24fb0d6963f7d28e17f72, as in section A.5 of RFC 1321 |
| WordNumbers.PlusAdds | src/md5.c:70 | the sum of two words is the sum of their numbers modulo 2^32, for the numbers that their binary digits say |
| WordNumbers.ValueIsInjective | src/md5.c:70 | different words stand for different numbers |
| Md5Vectors.BytesFormWord | src/md5.c:283-298 | the four bytes that are stored of a word, low byte first, form the word again |
| Md5Steps.Round1 | src/md5.c:119-135 | the 16 lines with SET are operations 0 to 15 of the indexed loop, and fill the cache with the block's words |
| Md5Steps.Round2 | src/md5.c:137-153 | the 16 lines with G are operations 16 to 31 |
| Md5Steps.Round3 | src/md5.c:155-171 | the 16 lines that alternate H and H2 are operations 32 to 47 |
| Md5Steps.Round4 | src/md5.c:173-189 | the 16 lines with I are operations 48 to 63 |
| Md5Steps.StepIsOperation | src/md5.c:67-70 | one STEP on rotating register names is one operation of the standard |
| Md5Steps.FastF | src/md5.c:58 | the form without AND-NOT equals the standard's F |
| Md5Steps.FastG | src/md5.c:59 | the form without AND-NOT equals the standard's G |
| Md5Steps.FastH2 | src/md5.c:61 | the regrouped form equals the standard's H |
| Md5Steps.ShiftPairRotates | src/md5.c:69 | two shifts and an OR rotate, for all sixteen amounts in use |
| Md5Steps.Set | src/md5.c:86-91 | four bytes form a little-endian word, which is returned and cached |
| Md5Steps.Get | src/md5.c:92-93 | once all 16 words were read, the cache holds the block's words |
| Md5Facts.PaddingFillsBlocks | src/md5.c:256-269 | the bytes laid into the buffer are the padding of sections 3.1 and 3.2: one block when at most 55 bytes are pending, two otherwise |
| Md5Facts.PaddingIsMinimal | src/md5.c:258-269 | no shorter run of zeros would do, and never a superfluous block |
| Md5Facts.LengthBytesAreCounter | src/md5.c:271-279 | the shifted low word and the high word are the eight bytes of 8N mod 2^64, low byte first |
| Md5Facts.LengthIsNumber | src/md5.c:271-279 | the eight length bytes are the number 8N mod 2^64, low byte first |
| Md5Facts.PadInjective | src/md5.c:252-281 | two messages of any length with the same padded form are the same message |
| Md5Facts.LengthBytesRepeat | src/md5.c:271-279 | the eight length bytes alone tell two lengths apart if and only if these differ modulo 2^61 |
| Base64.Encode | src/attohttp.c:1369-1409 | the output is the first olen-1 characters of the unbounded text, or all of it, then a NUL; nothing else is changed, no index reaches olen, and the 16-bit index does not wrap |
| Base64.Decode | src/attohttp.c:1449-1484 | the same for the decoder's unbounded result |
| Base64Laws.EncodedIsStandard | src/attohttp.c:1374-1403 | the unbounded text is that of section 6.8 of RFC 2045 if and only if the input is clean |
| Base64Laws.LettersAre | src/attohttp.c:1369-1409 | the 64 letters are those of the table in section 6.8 of RFC 2045, one by one |
| Base64Laws.ManIsTWFu | src/attohttp.c:1369-1409 | the standard texts of "Man", "Ma" and "M" are TWFu, TWE= and TQ== |
| Base64Laws.RoundTrip | src/attohttp.c:1369-1484 | decoding gives back what was encoded if and only if it was clean |
| Base64Laws.PlainBytesAreClean | src/attohttp.c:1369-1409 | every input of bytes below 128 is clean |
| Base64Laws.SignIsCopied | src/attohttp.c:1380-1382 | the bytes 0 and 128 are neither encoded as the standard says nor recovered |
| Base64Laws.PaddingIsOptional | src/attohttp.c:1454-1479 | for every text, dropping the trailing padding does not change what it decodes to |
| Base64Laws.DigitsAreLetters | src/attohttp.c:1418-1440 | the characters A to Z, a to z, 0 to 9, + and / are digits, and no others |
| Base64Laws.StrayEnds | src/attohttp.c:1454-1479 | the first character that is no digit ends the text, unless it is the first of a group of four |
| Base64Laws.StrayFirst | src/attohttp.c:1455-1462 | as the first of a group it counts as the letter A if it is the padding, and as B otherwise |
| Base64Laws.CanonicalIsStandard | src/attohttp.c:1454-1479 | a canonical padded text is the standard text of the bytes it decodes to |
| Base64Laws.ReverseTrip | src/attohttp.c:1369-1484 | encoding gives back a canonical text if and only if the bytes it stands for are clean |
| Base64Laws.Recode | src/attohttp.c:1369-1484 | both codecs in turn, in buffers of 65535 bytes, give back every clean input of up to 49149 bytes |
| Stream.Reader.ReadC | src/attohttp.c:214-230 | takes the first character of the logical input and leaves the slot empty; at the end returns 0 and NUL |
| Stream.Reader.PushC | src/attohttp.c:46 | puts a character in front of the logical input; a NUL changes nothing |
| Text.SpacesAre | src/attohttp.c:248-285 | the blanks are space and tab, and the spaces are these and the codes 10 to 13 |
| Stream.Reader.ParseSpace | src/attohttp.c:248-258 | leaves the logical input at its first character that is not blank |
| Stream.Reader.ReadWord | src/attohttp.c:301-308 | what the word loop that the parsers share counts, stores and leaves, for every input and every limit |
| Request.Parser.InitRun | src/attohttp.c:179-205 | every run starts from the same state and an empty slot; the URL buffer keeps its contents |
| Request.Parser.ParseMethod | src/attohttp.c:291-333 | the method is the word before a blank; otherwise the code becomes 501, or 500 without any input |
| RequestLaws.VerbsAre | src/attohttp.c:311-323 | exactly the words GET, POST, PUT, DELETE and PATCH, in capitals, are methods |
| Request.Parser.ParseURL | src/attohttp.c:339-377 | for every input the buffer, the parameter position and the rest; a target ended by a blank is stored up to 63 characters with NULs for question marks, and the rest of it is dropped |
| Request.Parser.SplitURL | src/attohttp.c:354-358 | the parameters start behind the last question mark that was stored |
| Request.Parser.ParseVersion | src/attohttp.c:383-415 | a word of up to eight characters gives the version it is a beginning of |
| RequestLaws.VersionsAre | src/attohttp.c:404-409 | the version is 1.1 for exactly its whole text, and 1.0 for its text and every beginning of it |
| Request.Parser.ParseEOL | src/attohttp.c:267-285 | drops everything through the next newline and then space up to a second newline, which stays and ends the headers |
| Request.Parser.ParseHeader | src/attohttp.c:454-488 | for every input what both buffers hold and where the next line starts; for a line of the right shape that is its name, its value cut at 63 characters, and the line after it |
| Request.Parser.NoteHeader | src/attohttp.c:504-533 | the effect of one line: accepted type, content type, or a check of credentials |
| HeaderLaws.SameWordIsCaseless | src/attohttp.c:504-517 | two names are the same word if and only if they have one length and each two characters are equal or a letter and its other case, 32 apart |
| HeaderLaws.IndexIsFirst | src/attohttp.c:512-521 | a word is found in a value if and only if it stands there, and at the first such place |
| HeaderLaws.FirstMimeIs | src/attohttp.c:511-516 | the content type of a value is the first of the seven literal names that stands in it |
| HeaderLaws.AcceptIs | src/attohttp.c:505-509 | an accepted type sets the bit 1, 2, 4, 8, 16, 32 or 64 of the last name that the value spells |
| HeaderLaws.FormField | src/attohttp.c:510-516 | one printed Content-Type field, in any spelling, with the value application/x-www-form-urlencoded makes the content type that of a form |
| HeaderLaws.SchemeIs | src/attohttp.c:520-527 | the scheme is 0 if Basic stands in the value, and 1 if only Digest does |
| HeaderLaws.BasicHeaderDecides | src/attohttp.c:517-532 | with one Authorization header, in any spelling, with the value Basic, a space and w, access is granted if and only if the check accepts w |
| HeaderLaws.DigestHeaderDecides | src/attohttp.c:517-532 | the same for Digest, if Basic does not stand in the value too |
| Request.Parser.Authenticate | src/attohttp.c:517-532 | the first known scheme in the value is checked with the text behind it; no scheme means 401 |
| Request.Parser.ParseHeaders | src/attohttp.c:494-536 | reads exactly the lines of the input up to the empty one, each acted on in order |
| Request.Parser.ParseRequest | src/attohttp.c:1312-1323 | for every input the method and the effects of the lines; for a request, all its parts and the rest of the input |
| RequestFacts.LinesOfBlock | src/attohttp.c:502-503 | in a well-formed block the lines read are its headers, whatever the buffers held before, and its last newline is left |
| RequestFacts.TypesAreRecorded | src/attohttp.c:504-516 | the content types depend on the headers alone, not on the bytes behind their NULs |
| RequestText.LaterTwice | src/attohttp.c:297-414 | what is left of what is left of an input is an end of it, with at most one byte in front |
| RequestFacts.VersionIsLater | src/attohttp.c:391-401 | also when the version is too long or the input ends in it, and a byte of an unset buffer is put back |
| RequestLaws.RequestRoundTrip | src/attohttp.c:291-415 | a printed request is read back: method, target cut at 63, version, headers, and a newline and the body are left |
| RequestLaws.BlockIsRead | src/attohttp.c:454-500 | every printed list of headers is read back, names whole and values cut at 63 characters |
| RequestLaws.TargetSplits | src/attohttp.c:345-372 | of any target that is kept, with any number of question marks, the buffer holds as one string the path up to the first of them, and as another the parameters behind the last |
| RequestLaws.PartsOfTarget | src/attohttp.c:345-358 | a path, a question mark, anything that ends with one, and a query: the first and the last part are what is held, and the rest is lost |
| RequestLaws.PathIsCut | src/attohttp.c:339-377 | of a target that is too long the path is what the cut leaves of it |
| HeaderEffects.AuthDecides | src/attohttp.c:495-536 | after all lines the code is unknown exactly when every Authorization line was accepted, and then the flag is set exactly when there was one |
| HeaderEffects.NoAuthIgnores | src/attohttp.c:517-532 | in a build without authentication no line changes the code or the flag |
| JsonParam.Parser.ParseParam | src/attohttp.c:868-975 | for every input and nesting state a call ends, writes only inside both sizes, and leaves the buffers, the levels and the input as the scan of its characters says |
| JsonParam.Parser.Accept | src/attohttp.c:882-960 | one character does what the step function says to the levels, the quotes, both buffers and the slot |
| JsonParam.Parser.Finish | src/attohttp.c:965-973 | both strings are ended, and an element without a divider becomes the value with its number as the name |
| JsonParam.RunFits | src/attohttp.c:929-941 | whatever is read, both texts stay below their sizes and the levels below 256 |
| JsonLaws.NameHoldsReply | src/attohttp.c:966-971 | the name buffer ends inside its size and holds the reported name |
| JsonLaws.ValueHoldsReply | src/attohttp.c:966-971 | the value buffer ends inside its size if and only if it is not that of an element too long for it, and then holds the reported value |
| JsonLaws.RunTakesPrefix | src/attohttp.c:879-964 | a call takes characters from the front of the input only |
| JsonLaws.ObjectRoundTrip | src/attohttp.c:868-975 | for every flat object, with any quotes and space, the calls report its members in order, cut to the buffers, and then the end |
| JsonLaws.ArrayRoundTrip | src/attohttp.c:868-975 | for every flat array, the calls report its elements in order, cut to the name buffer, and then the end |
| JsonLaws.ElementNumber | src/attohttp.c:968-971 | the name of element j is the decimal of the counter plus j, modulo 256 |
| JsonLaws.OnlyLegalCharsAreStored | src/attohttp.c:883-941 | inside a token a character is stored, and nothing else happens, if and only if it is legal there |
| JsonLaws.CommaCuts | src/attohttp.c:889-890 | a comma ends the call inside quotes too, and the rest of the text is left for the next call |
| JsonLaws.AfterObject | src/attohttp.c:912-916 | the call behind an object stops at once at the brace that was put back, and the level wraps |
| JsonLaws.BytesWrap | src/attohttp.c:914-957 | the levels and the counter step up and down by one, from 255 to 0 and back |
| JsonDeep.RunDeep | src/attohttp.c:883-960 | while two brackets or more are open and none of the closing ones acts, every character is copied: brackets, quotes, commas, colons and space |
| JsonDeep.ClosersAct | src/attohttp.c:906-958 | what each closing bracket does there: a brace is copied and ends the call if one brace at most is left, but the last of an object is put back; a square bracket is copied and ends the call if just one is left, but the last of an array is dropped and ends it |
| JsonDeep.CopiedUpTo | src/attohttp.c:883-960 | so a call copies such a text up to the first brace or square bracket that leaves one of its kind, and ends there |
| JsonDeep.PlainIsInner | src/attohttp.c:929-941 | any text without brackets may stand between two |
| JsonDeep.OutsideStep | src/attohttp.c:883-960 | what every character does outside of all brackets |
| JsonDeep.StrayClosers | src/attohttp.c:945-957 | a closing bracket of the wrong kind is copied, and its count goes to 255 |
| JsonDeep.LooseTextIsElement | src/attohttp.c:929-972 | a body without brackets, quotes and space is one element, commas and colons included |
| JsonNested.NestedValueIsCopied | src/attohttp.c:929-950 | a nested object is its member's value as it stands, and its closing brace ends the call, if none before it does |
| JsonNested.ListIsCopied | src/attohttp.c:929-958 | a list is its member's value as it stands, and the call goes on behind it, if no bracket in it ends the call |
| JsonNested.ItemsAreHeard | src/attohttp.c:868-975 | the replies of all the calls on members that hold a token, a list or an object, with one early end behind each object that another member follows |
| JsonNested.ObjectIsHeard | src/attohttp.c:868-975 | the same for the whole printed object, from the first call on |
| JsonNested.NestedRoundTrip | src/attohttp.c:868-975 | one call for each member and one more report the members and the end if and only if no member but the last holds an object |
| JsonNested.MemberBehindNested | src/attohttp.c:868-975 | the object {a:{},b:c} reports a, the end, b, the end |
| JsonNested.MemberBehindList | src/attohttp.c:868-975 | the object {a:[b],c:d} reports both members and then the end |
| JsonParts.PartIsCopied | src/attohttp.c:929-958 | an object or a list in an array is its element as it stands, and its closing bracket ends the call |
| JsonParts.EndBehindPart | src/attohttp.c:889-928 | the call behind it reports the end, and takes the comma or the closing bracket |
| JsonParts.ArrayIsHeard | src/attohttp.c:868-975 | the replies of all the calls on an array of tokens, objects and lists, numbered, with one early end behind each object or list that another element follows |
| JsonParts.PartsRoundTrip | src/attohttp.c:868-975 | one call for each element and one more report the elements and the end if and only if none but the last is an object or a list |
| JsonLimits.QuotedIsCut | src/attohttp.c:889-904 | in either kind of quotes, and wherever the member stands in its object, the value that is reported is cut at its first comma |
| JsonLimits.QuotedComesBack | src/attohttp.c:889-904 | it comes back, as far as the buffer holds it, if and only if no comma stands in that part |
| JsonLimits.ElementNeedsRoom | src/attohttp.c:965-972 | a printed element is ended in the value buffer if and only if it is shorter than that buffer or the name buffer is not larger |
| JsonLimits.SizesDecideElements | src/attohttp.c:965-972 | no text leaves the value buffer without a NUL if and only if the name buffer is not larger |
| JsonLimits.LongElement | src/attohttp.c:965-972 | the array [abcd] with room for eight and for four characters does |
| FormParam.ParamChar | src/attohttp.c:675-693 | takes the first character of what is to come, from the URL buffer for GET and otherwise from the body without space and question marks |
| FormParam.DecodePercent | src/attohttp.c:1055-1061 | two characters are fetched and read as strtol reads them in base 16; a missing one counts as NUL |
| FormLaws.HexDigitsAre | src/attohttp.c:1060 | the sixteen digits of either case have their values, and no other character has one |
| FormLaws.CodeDecodes | src/attohttp.c:1056-1060 | the two digits of every number from 1 to 255, in either case, are decoded to it |
| FormLaws.OddCodes | src/attohttp.c:1056-1060 | what is no code is read as strtol reads it: a sign and space are taken, and the digits end it |
| FormParam.ParseURLParam | src/attohttp.c:1038-1080 | for every input a call leaves the buffers, the input and the result as the run over its characters says |
| FormText.RunFits | src/attohttp.c:1062-1069 | whatever is read, neither text exceeds its size |
| FormText.SeparatorsAre | src/attohttp.c:687-689 | pairs are separated by ampersands and the six spaces, and a body drops these spaces and question marks |
| FormLaws.FormRoundTrip | src/attohttp.c:1038-1080 | the calls report the printed pairs in order, and then the end, if and only if every key and value fits its size and each pair that another follows has a key or fills the value buffer |
| FormLaws.EmptyKeySwallows | src/attohttp.c:1045-1074 | a pair that has neither takes what the next ones hold into its value, or if these are bare dividers up to the end, leaves nothing of them |
| FormLimits.EmptyKeyTakesNext | src/attohttp.c:1045-1074 | the text =v&k=w is one pair with the value vkw, and then the end |
| FormLaws.EscapeKeepsMeaning | src/attohttp.c:1055-1061 | every text without NUL can be printed with percent codes of either case and keeps its meaning |
| FormLaws.DecodeHex | src/attohttp.c:1056-1060 | the decoder undoes a percent code with digits of either case (section 2.1 of RFC 3986) |
| FormLaws.InsertedIsDropped | src/attohttp.c:687-689 | space and question marks put anywhere into a body, even inside a code, change no reply |
| FormLaws.PrintedBody | src/attohttp.c:687-689 | nothing that is printed is dropped, so a body without insertions is covered as well |
| FormLaws.TargetRoundTrip | src/attohttp.c:679-685 | on GET the calls report the printed pairs, and the calls after them what stands behind the NUL in the buffer, or the NUL itself if the last value filled its buffer |
| FormLimits.PairHasRoom | src/attohttp.c:1062-1077 | the NULs behind a printed pair that is over stay inside the sizes if and only if both texts are shorter than them |
| FormLimits.SizesDecideRoom | src/attohttp.c:1062-1077 | they stay inside the arrays for every text, or for every body, if and only if both arrays are larger than the sizes |
| FormLimits.FullTextsNeedAByte | src/attohttp.c:1062-1077 | the texts ab=c and a=bc, with a size of 2 for the part of two letters, put a NUL behind it |
| FormLimits.EndIsReported | src/attohttp.c:1045-1078 | a call reports the end if and only if what is left is separators up to a NUL or the end, or a name that starts with a coded NUL, has no divider and does not fill its buffer |
| FormLimits.OnlyCodesLookLikeEnd | src/attohttp.c:1045-1078 | in a text without codes it is the first of the two |
| FormLimits.TargetComesBack | src/attohttp.c:1038-1080 | on GET the calls report the printed pairs and then the end if and only if all pairs fit and nothing is left to report, for all pairs, all old bytes and all sizes |
| FormLimits.SeparableEnds | src/attohttp.c:1038-1080 | when each pair that another follows has a key or fills the value buffer, nothing is left if and only if there is no pair, or the last value fills its buffer, or the old bytes look like the end |
| Params.Parameters.ParseParam | src/attohttp.c:1100-1124 | the method and the content type choose the parser, and one call takes the first of the replies to come |
| Params.KindsAre | src/attohttp.c:1100-1124 | GET reads the URL, and POST, PUT, DELETE and PATCH the body, as a form for type 5 and as JSON for the others |
| Params.Parameters.ReadParams | src/attohttp.c:1100-1124 | n calls in a row give the n replies to come, in order |
| Params.SpareBytes | src/attohttp.c:1075-1077 | with one spare byte in each buffer, and sizes in order, the strings of every call end inside |
| Params.SizesDecide | src/attohttp.c:1100-1124 | every call on every state ends its strings inside if and only if the name size is at most the value size and both arrays have a byte more |
| Route.SplitRoute | src/attohttp.c:559-587 | the slashes become NULs, and the pointers lead to the commands and ids of the path, the others staying null |
| Route.FoundStep | src/attohttp.c:569-584 | a slash that something follows starts a command when the levels are even and an id otherwise, up to three of each |
| Route.LevelsAreClose | src/attohttp.c:570-582 | the id level is the command level or one less |
| RouteLaws.RouteRoundTrip | src/attohttp.c:568-587 | for every path, command k is segment 2k and id k segment 2k+1, min(3, (m+1)/2) and min(3, m/2) of them, an empty last segment of the URL not counting |
| RouteLaws.EveryPathIsPrinted | src/attohttp.c:568-587 | every path is printed from some head and segments, so the round trip covers all |
| Execute.Server.FirstLine | src/attohttp.c:822-857 | at most one status line is sent; a code without a reason is sent and kept as 500 |
| SiteLaws.ReasonsAre | src/attohttp.c:825-853 | exactly the codes 200, 202, 400, 401, 404 and 501 are reported as themselves, and all others as 500 |
| SiteLaws.GoodLines | src/attohttp.c:825-855 | the status lines of 200 and 202, character by character |
| SiteLaws.ClientLines | src/attohttp.c:825-855 | those of 400, 401 and 404 |
| SiteLaws.ServerLines | src/attohttp.c:825-855 | those of 500 and 501 |
| SiteLaws.CallbackCodesAre | src/attohttp.c:1331-1347 | the code 510 of a callback is answered as 200, 1 as 200 but returned as 1, 401 with the message, the codes with a reason as themselves, and all others as 500 |
| Execute.Server.SendHeaders | src/attohttp.c:1213-1232 | what is sent and kept in every state: the status line of the return code, and the type, the length if positive, the encoding and an empty line, each unless it was sent |
| Execute.Server.SendEventHeaders | src/attohttp.c:601-612 | the header of an event stream is sent, behind the status line 200 unless one was sent, and the code becomes 1 |
| SiteLaws.EventText | src/attohttp.c:601-612 | the whole head of an event stream, line by line |
| SiteLaws.RefusalIs | src/attohttp.c:701-726 | the whole 401 message, line by line |
| SiteLaws.BasicChallenge | src/attohttp.c:709-711 | the challenge of the Basic build, character by character |
| SiteLaws.DigestChallenge | src/attohttp.c:712-717 | the challenge of the Digest build |
| SiteLaws.HeadersAre | src/attohttp.c:1213-1232 | the headers of a page of five bytes of HTML, character by character |
| Execute.Server.SendAuthMessage | src/attohttp.c:701-726 | in every state the 401 status line and the message of the build, each unless it was sent |
| Execute.Server.FindSlot | src/attohttp.c:627-636 | the default page comes first, then the first page at the URL |
| SiteLaws.PageIsFound | src/attohttp.c:44-47 | a page is found if and only if it is the default page and that is for the URL, or it is the first listed page for it; a page is for the URLs that agree with its own on 32 characters, and the default page also for the URL / alone; none is found if and only if there is none |
| SiteLaws.DefaultStandsAtRoot | src/attohttp.c:627-628 | the default page is the one for the URL /, whatever is listed |
| SiteLaws.ListedStandsAtItsUrl | src/attohttp.c:629-636 | a listed page is the one for its own URL, unless the default page or an earlier one is for that |
| Execute.Server.FindPage | src/attohttp.c:621-664 | what is sent, returned and called for a page, an event stream or the callback |
| Execute.Server.FindCallback | src/attohttp.c:548-595 | the callback is called once if the path has a command, with the commands, the ids and the parameters as they were before the path was cut |
| Execute.SameParams | src/attohttp.c:568-587 | cutting the path leaves the parameters in the buffer alone |
| Execute.Server.Admit | src/attohttp.c:1312-1326 | the code after the headers: 401 for everyone who is not let in, 501 or 500 for an unsupported method, unknown otherwise |
| Execute.Server.Execute | src/attohttp.c:1305-1354 | for every input the returned code, everything that is sent and every call are the outcome of the request as it was read, its lines come from the input, and the URL buffer is left as the request filled it, with the path cut at its slashes if the callback was reached |
| Response.Judged | src/attohttp.c:1324-1326 | the flag and the code let a client pass if and only if no credentials are asked for or they were granted |
| ResponseLaws.OnlyTheGrantedAreServed | src/attohttp.c:1305-1354 | with authentication the answer is the 401 message if and only if the method is unsupported, or no Authorization line came, or one was not accepted; no callback is reached otherwise |
| ResponseLaws.NoHeaderNoAccess | src/attohttp.c:1324-1342 | a request without an Authorization header gets the 401 message, whatever it asks for |
| ResponseLaws.CredentialsAreInValue | src/attohttp.c:519-527 | credentials inside the value are read from it alone; only a value that ends with its scheme lets older bytes be read |
| ResponseLaws.PointerLeavesBuffer | src/attohttp.c:519-524 | the pointer to the credentials leaves the buffer if and only if the value fills it and ends with the scheme; the string there runs past the buffer if and only if no NUL stands behind the pointer, which takes a value that ends with its scheme |
| ResponseLaws.PointerLeavesFullLine | src/attohttp.c:519-524 | 58 other characters and then Basic is such a value |
| ResponseLaws.HeadersDecide | src/attohttp.c:495-536 | when every Authorization header holds its scheme and one more character, access is granted if and only if there is one and the check accepts what stands behind each scheme |
| ResponseLaws.OneStatusLine | src/attohttp.c:1305-1354 | a client reads one status line, the first line of every answer, with the returned code, or 200 for an event stream |
| ResponseLaws.ServedReadsBack | src/attohttp.c:638-644 | a client reads a page back: its type, a Content-Length if and only if the body is not empty, equal to its size, and the body |
| EndToEnd.CalledWithSegments | src/attohttp.c:548-595 | whatever its target, a printed request reaches the callback with its method and the segments of its path, as far as the buffer keeps it |
| EndToEnd.UrlArrives | src/attohttp.c:345-372 | for every target the buffer holds the path of the 63 characters that are kept, and on GET the parameters come from behind the last question mark of these and from the old bytes behind them |
| EndToEnd.FormArrives | src/attohttp.c:1038-1080 | a form printed in a body reaches the callback pair by pair, and then the end, if and only if all pairs fit and each that another follows has a key or fills the value buffer |
| EndToEnd.ObjectArrives | src/attohttp.c:868-975 | an object printed in a body reaches it member by member, and then the end |
| EndToEnd.NestedArrives | src/attohttp.c:868-975 | an object with lists and objects reaches it member by member, and then the end, if and only if none but the last holds an object |
| EndToEnd.ArrayArrives | src/attohttp.c:868-975 | an array printed in a body reaches it element by element, numbered from 0, and then the end |
| EndToEnd.PartsArrive | src/attohttp.c:868-975 | an array with objects and lists reaches it element by element, and then the end, if and only if none but the last is in brackets |
| EndToEnd.QueryArrives | src/attohttp.c:679-685 | pairs printed in the part of a target that is kept reach it pair by pair |
| EndToEnd.QueryEnds | src/attohttp.c:679-685 | for every target the pairs and then the end are reported if and only if all pairs fit and nothing is left to report behind them |
| EndToEnd.OldPairComesBack | src/attohttp.c:679-685 | on the buffer that /page?b=2 leaves, a request for /?a=1 reports the old pair second, but the end if the value has just one byte |
| EndToEnd.OneCall | src/attohttp.c:655-661 | a request that is let in and meets no page and no event stream makes one call, if its path has a command |
| EndToEnd.ContentArrives | src/attohttp.c:1087-1124 | a form, a query, an object or an array, flat or with brackets inside: the calls report what was printed, and then the end, exactly under the condition for its kind |
| EndToEnd.CallbackSeesContent | src/attohttp.c:1305-1354 | the whole way: the one call of a request reads what it carries, and the end, exactly then |
| Runs.RoutedOutcome | src/attohttp.c:1305-1354 | a printed request for a path of segments makes the call that says what was printed if it is let in, and gets the 401 message otherwise |
| Runs.NobodyAnswers | src/attohttp.c:1328-1346 | a request that is let in, for a path at which nothing stands, is answered 404 without a callback, and 500 if its path has no command for the callback |
| Runs.FieldsDecide | src/attohttp.c:1305-1354 | who is let in is told from the printed fields, and in a build without authentication everyone is |
| Runs.BasicFieldDecides | src/attohttp.c:1305-1354 | a request with one Authorization field, in any spelling, with the value Basic, a space and w is let in if and only if the check accepts w, as far as 63 characters hold it |
| Runs.ServeRequest | src/attohttp.c:1305-1354 | a whole run on the bytes of any printed request: the request that was parsed is the printed one, its fields decide who is let in, the answer is the one it gets, and what is left in the URL buffer is known |
| Runs.ServeContent | src/attohttp.c:1305-1354 | a whole run with a form, a query, an object or an array: if the printed fields grant access the callback is called once, with the segments of the path, and reads exactly what was printed and the end, exactly when that comes back; otherwise only the 401 message is sent |
| Runs.PageOutcome | src/attohttp.c:621-664 | a printed request for the page that stands at its path gets it on GET, 501 otherwise, or the 401 message, and leaves the URL buffer as it filled it |
| Runs.ServePage | src/attohttp.c:1305-1354 | a whole run for the page that stands at the path: a client that the printed fields let in reads the status, the type, the length and the page, and the callback is not called |
| Runs.ServeRoot | src/attohttp.c:627-644 | a whole run for the target / serves the default page, whatever is listed |
| Runs.ServeListed | src/attohttp.c:629-644 | a whole run for the URL of a listed page serves it, unless the default page or an earlier one is for that URL |
| Runs.ServeEvents | src/attohttp.c:655-658 | a whole run for the URL of the event stream, at which no page stands, sends the head of the stream and returns 1, whatever the method |
| Runs.LeaveOldBuffer | src/attohttp.c:179-205 | a run for /page?b=2 on an empty URL buffer, with a page at /page, leaves the buffer from which the old pair comes back |

## Left out

- The socket, Particle, ESP8266 and Windows wrappers: input, output and foreign calls. The connection is a text, and a write never fails.
- The formatting of attoHTTPvprintf and its 128-byte buffer: every line the model sends is shorter, for the default realm.
- NUL bytes in the input: the reader of the tests ends there.
- Page registration, attoHTTPSendEvent, attoHTTPRESTSendHeaders, attoHTTPGetRawParamChar and the callback's own output: each would only add easy members. A callback that writes may send a status line first.
- The digest scheme's use of MD5 and the basic scheme's use of Base64: the credential check is the user's.
- The sine that the MD5 table comes from: the table of the standard is taken as data.
- The x86 form of SET and GET, which reads words in place: the portable form with the cache is modelled.
- The aliasing of page contents and other caller memory: pages are values.
- Page sizes of 2^31 and more, which the format %d would print as negative.
- JSON values in which a bracket ends the call before the value does, as a list in a list does inside an object: JsonDeep says what the call copies and where it ends, but no law says what the calls behind it report.
- Request.Parser.ParseVersion: says nothing of the version for words of nine and more characters or an input that ends in the word, and of the rest only that it is an end of the input with at most one byte in front, because the code then puts back a byte of an unset buffer.
- Request.Parser.ParseURL: an input that ends inside the target leaves a byte of the old URL buffer in the slot; the contract says so, but no later law covers such a request.
- FormParam.ParamChar: does not model the wrap of the 16-bit start position after 65536 calls.
- Base64.Encode: requires room for the NUL (olen at least 1), as the code does.
- Request.Parser.Authenticate: where the source reads past the value buffer, because the value ends with its scheme and no NUL stands behind the pointer, the contract ends the string where the buffer ends.
- FormParam.ParseURLParam: requires that the NULs of the call fall inside the two arrays, as a write outside them has no model; FormLimits says when they do.
- Params.Parameters.ParseParam: requires that the strings of the call end inside their arrays, and says exactly when they do, because the code writes the NUL of a full form text one byte behind the given size.
- Runs.ServeContent: requires, as Runs.ServePage does, that in a build with authentication no Authorization value ends with its scheme, because who is let in then depends on bytes that earlier lines left; Runs.ServeRequest covers these runs as well.
- EndToEnd.ArrayArrives: requires a name size of at least 4, so that every element number has room, and a value size that is not smaller.
