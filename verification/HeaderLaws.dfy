/** What the header functions find, told without them: spellings, words in a value, types and schemes. */
module HeaderLaws {
  import opened Text
  import opened RequestText
  import opened RequestFacts
  import opened RequestLaws
  import opened HeaderEffects
  import opened ResponseLaws

  // ---------------------------------------------------------------- spellings

  /** A letter and its other case, 32 apart. */
  predicate IsOtherCase(a: char, b: char) {
    || ('A' <= a <= 'Z' && b as int == a as int + 32)
    || ('A' <= b <= 'Z' && a as int == b as int + 32)
  }

  /** The same word in any spelling. */
  predicate SameSpelling(a: string, b: string) {
    |a| == |b| && forall i | 0 <= i < |a| :: a[i] == b[i] || IsOtherCase(a[i], b[i])
  }

  lemma SameWordIsCaseless(a: string, b: string)
    ensures SameWord(a, b) <==> SameSpelling(a, b)
  {
    hide LowerChar, IsOtherCase;
    forall i | 0 <= i < |a| && i < |b|
      ensures LowerChar(a[i]) == LowerChar(b[i]) <==> a[i] == b[i] || IsOtherCase(a[i], b[i])
    {
      LowerIsCaseless(a[i], b[i]);
    }
  }

  lemma LowerIsCaseless(a: char, b: char)
    ensures LowerChar(a) == LowerChar(b) <==> a == b || IsOtherCase(a, b)
  {}

  // ---------------------------------------------------------------- words in a value

  predicate OccursAt(s: string, word: string, k: nat) {
    k + |word| <= |s| && s[k..k + |word|] == word
  }

  ghost predicate Occurs(s: string, word: string) {
    exists k: nat :: OccursAt(s, word, k)
  }

  /** The search finds the first place where the word stands, if there is one. */
  lemma {:induction false} IndexIsFirst(s: string, word: string)
    ensures IndexOf(s, word) >= 0 <==> Occurs(s, word)
    ensures var i := IndexOf(s, word); i >= 0 ==> OccursAt(s, word, i) && forall k: nat | k < i :: !OccursAt(s, word, k)
  {
    hide IndexOf, OccursAt;
    IndexUnfolds(s, word);
    if word <= s {
      assert OccursAt(s, word, 0) by { AtStart(s, word); }
    } else if |s| == 0 {
      forall k: nat ensures !OccursAt(s, word, k) {
        NotInNothing(word, k);
      }
    } else {
      IndexIsFirst(s[1..], word);
      forall k: nat ensures OccursAt(s, word, k) <==> k > 0 && OccursAt(s[1..], word, k - 1) {
        AtStart(s, word);
        if k > 0 {
          OneFurther(s, word, k);
        }
      }
      assert forall k: nat | OccursAt(s[1..], word, k) :: OccursAt(s, word, k + 1);
    }
  }

  lemma IndexUnfolds(s: string, word: string)
    ensures IndexOf(s, word) == if word <= s then 0
                                else if |s| == 0 then -1
                                else if IndexOf(s[1..], word) < 0 then -1
                                else IndexOf(s[1..], word) + 1
  {}

  lemma AtStart(s: string, word: string)
    ensures OccursAt(s, word, 0) <==> word <= s
  {}

  lemma NotInNothing(word: string, k: nat)
    requires !(word <= "")
    ensures !OccursAt("", word, k)
  {}

  lemma OneFurther(s: string, word: string, k: nat)
    requires |s| > 0 && k > 0
    ensures OccursAt(s, word, k) <==> OccursAt(s[1..], word, k - 1)
  {
    assert k + |word| <= |s| ==> s[1..][k - 1..k - 1 + |word|] == s[k..k + |word|];
  }

  // ---------------------------------------------------------------- content types

  const JSON_TEXT := "application/json"
  const FORM_TEXT := "application/x-www-form-urlencoded"

  /** The types by their numbers. */
  function TypeNames(): seq<string> {
    [JSON_TEXT, "text/html", "text/plain", "text/css", "application/javascript", FORM_TEXT, "image/png"]
  }

  lemma NamesAreTypes(i: nat)
    requires i < 7
    ensures MimeType(i) == TypeNames()[i] && MIME_TYPES == |TypeNames()| == 7 && XWWWFORM == 5 && TEXT_HTML == 1
  {}

  /** The type of a value is the first one whose name occurs in it. */
  lemma {:induction false} FirstMimeIs(value: string, i: nat)
    requires i <= 7
    ensures var r := FirstMime(value, i);
            && i <= r <= 7 && (r < 7 ==> Occurs(value, TypeNames()[r]))
            && forall j | i <= j < r :: !Occurs(value, TypeNames()[j])
    decreases 7 - i
  {
    hide IndexOf, Occurs, MimeType, TypeNames;
    NamesAreTypes(0);
    if i < 7 {
      NamesAreTypes(i);
      IndexIsFirst(value, MimeType(i));
      FirstMimeIs(value, i + 1);
    }
  }

  predicate IsNamed(h: Header, name: string) {
    SameSpelling(h.name, name)
  }

  /** Only header `k` has this name, in any spelling. */
  ghost predicate IsOnly(hs: seq<Header>, k: nat, name: string) {
    k < |hs| && IsNamed(hs[k], name) && forall j | 0 <= j < |hs| && j != k :: !IsNamed(hs[j], name)
  }

  lemma {:induction false} OneContentType(hs: seq<Header>, k: nat)
    requires IsOnly(hs, k, "content-type")
    ensures ContentTypeOf(hs) == if FirstMime(hs[k].value, 0) < 7 then FirstMime(hs[k].value, 0) else 1
    decreases |hs|
  {
    hide SameWord, SameSpelling, FirstMime;
    var n := |hs| - 1;
    SameWordIsCaseless(hs[n].name, "content-type");
    if k < n {
      assert IsOnly(hs[..n], k, "content-type");
      OneContentType(hs[..n], k);
    } else {
      NoContentType(hs[..n]);
    }
  }

  lemma {:induction false} NoContentType(hs: seq<Header>)
    requires forall j | 0 <= j < |hs| :: !IsNamed(hs[j], "content-type")
    ensures ContentTypeOf(hs) == 1
  {
    hide SameWord, SameSpelling, FirstMime;
    if |hs| > 0 {
      SameWordIsCaseless(hs[|hs| - 1].name, "content-type");
      NoContentType(hs[..|hs| - 1]);
    }
  }

  lemma LetterAt(s: string, word: string, k: nat, i: nat)
    requires OccursAt(s, word, k) && i < |word|
    ensures k + i < |s| && s[k + i] == word[i]
  {
    assert s[k..k + |word|][i] == s[k + i];
  }

  /** A letter that is not in a text keeps out every word that has it. */
  lemma LetterIsMissing(s: string, word: string, i: nat)
    requires i < |word| && word[i] !in s
    ensures !Occurs(s, word)
  {
    hide OccursAt;
    forall k: nat ensures !OccursAt(s, word, k) {
      if OccursAt(s, word, k) {
        LetterAt(s, word, k, i);
      }
    }
  }

  lemma JsonIsNotForm()
    ensures !Occurs(FORM_TEXT, "application/json")
  {
    hide Occurs;
    LetterIsMissing(FORM_TEXT, "application/json", 12);
  }

  lemma HtmlIsNotForm()
    ensures !Occurs(FORM_TEXT, "text/html")
  {
    hide Occurs;
    LetterIsMissing(FORM_TEXT, "text/html", 5);
  }

  lemma PlainIsNotForm()
    ensures !Occurs(FORM_TEXT, "text/plain")
  {
    hide OccursAt;
    forall k: nat ensures !OccursAt(FORM_TEXT, "text/plain", k) {
      if OccursAt(FORM_TEXT, "text/plain", k) {
        LetterAt(FORM_TEXT, "text/plain", k, 0);
        LetterAt(FORM_TEXT, "text/plain", k, 1);
      }
    }
  }

  lemma CssIsNotForm()
    ensures !Occurs(FORM_TEXT, "text/css")
  {
    hide Occurs;
    LetterIsMissing(FORM_TEXT, "text/css", 6);
  }

  lemma ScriptIsNotForm()
    ensures !Occurs(FORM_TEXT, "application/javascript")
  {
    hide Occurs;
    LetterIsMissing(FORM_TEXT, "application/javascript", 12);
  }

  lemma FormIsFirst(i: nat)
    requires i <= 5
    ensures Occurs(FORM_TEXT, TypeNames()[i]) <==> i == 5
  {
    hide Occurs;
    JsonIsNotForm();
    HtmlIsNotForm();
    PlainIsNotForm();
    CssIsNotForm();
    ScriptIsNotForm();
    ItIsItself(FORM_TEXT);
  }

  /** The name of the form type is found as itself. */
  lemma FormIsForm()
    ensures FirstMime(FORM_TEXT, 0) == 5
  {
    hide FirstMime, Occurs, TypeNames, FORM_TEXT;
    FirstMimeIs(FORM_TEXT, 0);
    var r := FirstMime(FORM_TEXT, 0);
    FormIsFirst(5);
    if r < 5 {
      FormIsFirst(r);
    }
  }

  lemma ItIsItself(s: string)
    ensures Occurs(s, s)
  {
    assert OccursAt(s, s, 0);
  }

  lemma {:induction false} KeptAt(fs: seq<Field>, k: nat)
    requires k < |fs|
    ensures |KeptOf(fs)| == |fs| && KeptOf(fs)[k] == Kept(fs[k])
  {
    hide Kept;
    KeptLength(fs);
    if k > 0 {
      KeptAt(fs[1..], k - 1);
    }
  }

  lemma {:induction false} KeptLength(fs: seq<Field>)
    ensures |KeptOf(fs)| == |fs|
  {
    hide Kept;
    if |fs| > 0 {
      KeptLength(fs[1..]);
    }
  }

  /** A printed Content-Type field, in any spelling, hands the body to the form parser. */
  lemma FormField(fs: seq<Field>, k: nat)
    requires IsOnly(KeptOf(fs), k, "content-type") && k < |fs| && fs[k].value == FORM_TEXT
    ensures ContentTypeOf(KeptOf(fs)) == XWWWFORM
  {
    hide FirstMime, SameSpelling, KeptOf, ContentTypeOf;
    KeptAt(fs, k);
    assert Cut(FORM_TEXT, 63) == FORM_TEXT;
    FormIsForm();
    OneContentType(KeptOf(fs), k);
    NamesAreTypes(0);
  }

  // ---------------------------------------------------------------- credentials

  lemma SchemeIs(value: string)
    ensures Scheme(value) == 0 <==> Occurs(value, "Basic")
    ensures Scheme(value) == 1 <==> !Occurs(value, "Basic") && Occurs(value, "Digest")
  {
    hide IndexOf, Occurs;
    IndexIsFirst(value, "Basic");
    IndexIsFirst(value, "Digest");
  }

  /** The credentials behind a scheme at the start of a value and a space. */
  lemma CredentialsBehind(scheme: string, w: string)
    ensures IndexOf(scheme + (" " + w), scheme) == 0
    ensures (scheme + (" " + w))[|scheme| + 1..] == w
  {
    assert scheme <= scheme + (" " + w);
  }

  /** With one Authorization header, in any spelling, for the Basic scheme, the check of what follows decides. */
  lemma BasicHeaderDecides(check: (nat, string) -> int, hs: seq<Header>, k: nat, w: string)
    requires IsOnly(hs, k, "authorization") && hs[k].value == "Basic " + w
    ensures AllHoldCredentials(hs) && (GrantedBy(check, hs) <==> check(0, w) != 0)
  {
    hide IndexOf, SameWord, SameSpelling;
    assert "Basic " + w == "Basic" + (" " + w);
    CredentialsBehind("Basic", w);
    forall j | 0 <= j < |hs| ensures IsAuthorizationHeader(hs[j]) <==> j == k {
      SameWordIsCaseless(hs[j].name, "authorization");
      assert IsNamed(hs[j], "authorization") <==> j == k;
    }
  }

  /** The same for the Digest scheme, if the value does not name the other one as well. */
  lemma DigestHeaderDecides(check: (nat, string) -> int, hs: seq<Header>, k: nat, w: string)
    requires IsOnly(hs, k, "authorization") && hs[k].value == "Digest " + w && !Occurs(hs[k].value, "Basic")
    ensures AllHoldCredentials(hs) && (GrantedBy(check, hs) <==> check(1, w) != 0)
  {
    hide IndexOf, SameWord, SameSpelling, Occurs;
    assert "Digest " + w == "Digest" + (" " + w);
    CredentialsBehind("Digest", w);
    IndexIsFirst(hs[k].value, "Basic");
    forall j | 0 <= j < |hs| ensures IsAuthorizationHeader(hs[j]) <==> j == k {
      SameWordIsCaseless(hs[j].name, "authorization");
      assert IsNamed(hs[j], "authorization") <==> j == k;
    }
  }

  // ---------------------------------------------------------------- accepted types

  /** The bits of the types. */
  function TypeBits(): seq<nat> {
    [1, 2, 4, 8, 16, 32, 64]
  }

  lemma BitsArePowers(i: nat)
    requires i < 7
    ensures Power2(i) == TypeBits()[i]
  {}

  /** The bit of the last type that the value spells, or what was accepted before. */
  lemma {:induction false} AcceptIs(accept: nat, value: string, n: nat)
    requires n <= 7
    ensures (forall j | 0 <= j < n :: !SameSpelling(value, TypeNames()[j])) ==> AcceptOf(accept, value, n) == accept
    ensures forall i | 0 <= i < n && SameSpelling(value, TypeNames()[i])
                && forall j | i < j < n :: !SameSpelling(value, TypeNames()[j]) ::
              AcceptOf(accept, value, n) == TypeBits()[i]
  {
    hide SameWord, SameSpelling, MimeType, TypeNames, Power2, TypeBits;
    if n > 0 {
      NamesAreTypes(n - 1);
      BitsArePowers(n - 1);
      SameWordIsCaseless(value, MimeType(n - 1));
      AcceptIs(accept, value, n - 1);
    }
  }
}
