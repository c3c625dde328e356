/** Credentials in the headers of a pasted cURL command become templates and stored secrets. */
module HeaderSecrets {
  import opened Options
  import opened Templates

  datatype Header = Header(name: string, value: string)

  datatype Secret = Secret(name: string, value: string)

  const AUTHORIZATION := "Authorization"
  const BASIC := "Basic "
  const BASIC_NAME := "basic_auth"
  const API_NAME := "api_key"
  const COOKIE_NAME := "cookie"
  const SECRET_OPEN := "{{secrets."

  const SCHEMES: seq<string> := ["bearer", "token", "basic", "apikey", "api-key", "digest"]

  const SECRET_HEADER_NAMES: set<string> := {
    "authorization", "proxy-authorization", "x-api-key", "api-key", "apikey", "x-apikey", "x-auth-token",
    "x-access-token", "x-token", "x-secret", "x-secret-key", "x-auth", "cookie", "ocp-apim-subscription-key",
    "x-goog-api-key", "anthropic-api-key", "openai-api-key" }

  const NAME_HINTS: seq<string> := [
    "api-key", "api_key", "apikey", "token", "secret", "password", "passwd", "auth", "credential", "signature" ]

  function LowerChar(c: char): char {
    if 'A' <= c <= 'Z' then (c as int + 32) as char else c
  }

  function Lower(s: string): string {
    seq(|s|, i requires 0 <= i < |s| => LowerChar(s[i]))
  }

  predicate Contains(s: string, t: string) {
    t <= s || (s != [] && Contains(s[1..], t))
  }

  predicate Sensitive(lowerName: string) {
    lowerName in SECRET_HEADER_NAMES || exists i :: 0 <= i < |NAME_HINTS| && Contains(lowerName, NAME_HINTS[i])
  }

  // ----- the name a secret gets -----

  predicate SlugChar(c: char) {
    'a' <= c <= 'z' || '0' <= c <= '9'
  }

  function SkipOther(s: string): string {
    if s != [] && !SlugChar(s[0]) then SkipOther(s[1..]) else s
  }

  lemma {:induction false} SkipOtherShrinks(s: string)
    ensures |SkipOther(s)| <= |s|
  {
    if s != [] && !SlugChar(s[0]) {
      SkipOtherShrinks(s[1..]);
    }
  }

  /** Every run of other characters becomes one underscore. */
  function Collapsed(s: string): string
    decreases |s|
  {
    if s == [] then []
    else if SlugChar(s[0]) then [s[0]] + Collapsed(s[1..])
    else
      SkipOtherShrinks(s[1..]);
      ['_'] + Collapsed(SkipOther(s[1..]))
  }

  function TrimLeft(s: string): string {
    if s != [] && s[0] == '_' then TrimLeft(s[1..]) else s
  }

  function TrimRight(s: string): string {
    if s != [] && s[|s| - 1] == '_' then TrimRight(s[..|s| - 1]) else s
  }

  function Slug(name: string): string {
    var s := TrimRight(TrimLeft(Collapsed(Lower(name))));
    if s == [] then "secret" else s
  }

  predicate NameChars(s: string) {
    forall i :: 0 <= i < |s| ==> NameChar(s[i])
  }

  lemma {:induction false} CollapsedIsName(s: string)
    ensures NameChars(Collapsed(s))
    decreases |s|
  {
    if s != [] {
      if SlugChar(s[0]) {
        CollapsedIsName(s[1..]);
      } else {
        SkipOtherShrinks(s[1..]);
        CollapsedIsName(SkipOther(s[1..]));
      }
    }
  }

  lemma {:induction false} TrimmedIsName(s: string)
    requires NameChars(s)
    ensures NameChars(TrimLeft(s)) && NameChars(TrimRight(s))
  {
    if s != [] {
      TrimmedIsName(s[1..]);
      TrimmedIsName(s[..|s| - 1]);
    }
  }

  /** The name of every detected secret can stand in a placeholder. */
  lemma SlugIsName(name: string)
    ensures Slug(name) != [] && NameChars(Slug(name))
  {
    var c := Collapsed(Lower(name));
    CollapsedIsName(Lower(name));
    TrimmedIsName(c);
    TrimmedIsName(TrimLeft(c));
  }

  lemma PrefixedIsValid(key: string)
    requires NameChars(key)
    ensures ValidName(SECRET_PREFIX + key)
  {
    var name := SECRET_PREFIX + key;
    assert name[0] == 's';
    assert NameChars(SECRET_PREFIX);
    forall i | 0 <= i < |name| ensures NameChar(name[i]) {
      if i < |SECRET_PREFIX| {
        assert name[i] == SECRET_PREFIX[i];
      } else {
        assert name[i] == key[i - |SECRET_PREFIX|];
      }
    }
  }

  // ----- one header -----

  /** The text before the first space. */
  function BeforeSpace(s: string): (p: string)
    ensures |p| <= |s| && p == s[..|p|] && (|p| < |s| ==> s[|p|] == ' ')
  {
    if s == [] || s[0] == ' ' then [] else [s[0]] + BeforeSpace(s[1..])
  }

  function AfterSpace(s: string): string {
    var n := |BeforeSpace(s)|;
    if n < |s| then s[n + 1..] else []
  }

  /** What becomes of a header: the text in front of the placeholder and the secret, if one is found. */
  datatype Finding = Untouched | Found(front: string, secret: Secret)

  function Examine(h: Header): Finding {
    var name := Lower(h.name);
    if Contains(h.value, SECRET_OPEN) || !Sensitive(name) then Untouched
    else if name == Lower(AUTHORIZATION) then
      if AfterSpace(h.value) != [] && Lower(BeforeSpace(h.value)) in SCHEMES
      then Found(BeforeSpace(h.value) + [' '], Secret(API_NAME, AfterSpace(h.value)))
      else if h.value != [] then Found([], Secret(API_NAME, h.value))
      else Untouched
    else if name == COOKIE_NAME then Found([], Secret(COOKIE_NAME, h.value))
    else if h.value != [] then Found([], Secret(Slug(h.name), h.value))
    else Untouched
  }

  function TemplateOf(h: Header): string {
    match Examine(h)
    case Untouched => h.value
    case Found(front, secret) => front + SecretTemplate(secret.name)
  }

  // ----- what becomes of a header, in plain terms -----

  predicate WordAt(s: string, word: string, i: int) {
    0 <= i <= |s| - |word| && s[i..i + |word|] == word
  }

  predicate HoldsWord(s: string, word: string) {
    exists i :: 0 <= i <= |s| && WordAt(s, word, i)
  }

  /** The same letters, the capital ones A to Z written small. */
  predicate SmallLetters(s: string, small: string) {
    |small| == |s| && forall i :: 0 <= i < |s| ==>
      if 'A' <= s[i] <= 'Z' then small[i] as int - 'a' as int == s[i] as int - 'A' as int else small[i] == s[i]
  }

  /** A header by this name, in small letters, carries a credential. */
  predicate NamesCredential(name: string) {
    || name in {
         "authorization", "proxy-authorization", "x-api-key", "api-key", "apikey", "x-apikey", "x-auth-token",
         "x-access-token", "x-token", "x-secret", "x-secret-key", "x-auth", "cookie", "ocp-apim-subscription-key",
         "x-goog-api-key", "anthropic-api-key", "openai-api-key" }
    || HoldsWord(name, "api-key") || HoldsWord(name, "api_key") || HoldsWord(name, "apikey") || HoldsWord(name, "token")
    || HoldsWord(name, "secret") || HoldsWord(name, "password") || HoldsWord(name, "passwd") || HoldsWord(name, "auth")
    || HoldsWord(name, "credential") || HoldsWord(name, "signature")
  }

  /** An authorization scheme and a credential with a space in between. */
  predicate SchemeAnd(value: string, scheme: string, credential: string) {
    && value == scheme + " " + credential && ' ' !in scheme && credential != ""
    && exists small :: SmallLetters(scheme, small) && small in {"bearer", "token", "basic", "apikey", "api-key", "digest"}
  }

  /** `out` is the value with this credential, behind `front`, replaced by a placeholder. */
  predicate Replaced(value: string, out: string, front: string, key: string, credential: string, secrets: seq<Secret>) {
    value == front + credential && out == front + "{{" + "secrets." + key + "}}" && Secret(key, credential) in secrets
  }

  /** What a header must become: only a header that names a credential and holds no placeholder yet is
      changed, and then its credential is in the list and out of the value. */
  ghost predicate Handled(h: Header, small: string, out: string, secrets: seq<Secret>) {
    if HoldsWord(h.value, "{{" + "secrets.") || !NamesCredential(small) then out == h.value
    else if small == "cookie" then Replaced(h.value, out, "", "cookie", h.value, secrets)
    else if h.value == "" then out == ""
    else if small == "authorization" then
      if exists scheme, credential :: SchemeAnd(h.value, scheme, credential)
      then forall scheme, credential :: SchemeAnd(h.value, scheme, credential) ==>
             Replaced(h.value, out, scheme + " ", "api_key", credential, secrets)
      else Replaced(h.value, out, "", "api_key", h.value, secrets)
    else Replaced(h.value, out, "", Slug(h.name), h.value, secrets)
  }

  lemma WordLater(s: string, word: string, i: int)
    requires s != []
    ensures WordAt(s, word, i + 1) <==> WordAt(s[1..], word, i) || (i == -1 && WordAt(s, word, 0))
  {
    if 0 <= i && i + 1 + |word| <= |s| {
      assert s[1..][i..i + |word|] == s[i + 1..i + 1 + |word|];
    }
  }

  lemma WordFirst(s: string, word: string)
    ensures WordAt(s, word, 0) <==> word <= s
  {
  }

  lemma {:induction false} ContainsIs(s: string, word: string)
    ensures Contains(s, word) <==> HoldsWord(s, word)
  {
    hide WordAt;
    WordFirst(s, word);
    if s != [] {
      ContainsIs(s[1..], word);
      if i :| 0 <= i <= |s| && WordAt(s, word, i) {
        WordLater(s, word, i - 1);
        assert i == 0 || 0 <= i - 1 <= |s[1..]|;
      }
      if i :| 0 <= i <= |s[1..]| && WordAt(s[1..], word, i) {
        WordLater(s, word, i);
        assert 0 <= i + 1 <= |s|;
      }
    }
  }

  lemma LowerIs(s: string, small: string)
    ensures SmallLetters(s, small) <==> small == Lower(s)
  {
  }

  lemma SensitiveIs(name: string)
    ensures Sensitive(name) <==> NamesCredential(name)
  {
    forall i | 0 <= i < |NAME_HINTS| ensures Contains(name, NAME_HINTS[i]) <==> HoldsWord(name, NAME_HINTS[i]) {
      ContainsIs(name, NAME_HINTS[i]);
    }
    hide Contains, HoldsWord;
    assert NAME_HINTS[0] == "api-key" && NAME_HINTS[1] == "api_key" && NAME_HINTS[2] == "apikey" && NAME_HINTS[3] == "token";
    assert NAME_HINTS[4] == "secret" && NAME_HINTS[5] == "password" && NAME_HINTS[6] == "passwd" && NAME_HINTS[7] == "auth";
    assert NAME_HINTS[8] == "credential" && NAME_HINTS[9] == "signature";
  }

  lemma {:induction false} SpaceAfter(a: string, b: string)
    requires ' ' !in a
    ensures BeforeSpace(a + " " + b) == a && AfterSpace(a + " " + b) == b
  {
    if a != [] {
      assert (a + " " + b)[1..] == a[1..] + " " + b;
      SpaceAfter(a[1..], b);
    }
  }

  lemma {:induction false} NoSpaceBefore(s: string)
    ensures ' ' !in BeforeSpace(s)
  {
    if s != [] && s[0] != ' ' {
      NoSpaceBefore(s[1..]);
    }
  }

  /** The schemes, by the letters they are written with. */
  lemma SchemesAre(small: string)
    ensures small in SCHEMES <==> small in {"bearer", "token", "basic", "apikey", "api-key", "digest"}
  {
    assert SCHEMES[0] == "bearer" && SCHEMES[1] == "token" && SCHEMES[2] == "basic" && SCHEMES[3] == "apikey";
    assert SCHEMES[4] == "api-key" && SCHEMES[5] == "digest";
  }

  predicate SplitsAtSpace(value: string) {
    AfterSpace(value) != [] && Lower(BeforeSpace(value)) in SCHEMES
  }

  lemma SplitIs(value: string)
    requires AfterSpace(value) != []
    ensures value == BeforeSpace(value) + " " + AfterSpace(value) && ' ' !in BeforeSpace(value)
  {
    NoSpaceBefore(value);
    hide BeforeSpace;
  }

  lemma SchemeIsSplit(value: string)
    requires SplitsAtSpace(value)
    ensures SchemeAnd(value, BeforeSpace(value), AfterSpace(value))
  {
    SplitIs(value);
    hide Lower, SmallLetters, BeforeSpace, AfterSpace;
    SchemesAre(Lower(BeforeSpace(value)));
    LowerIs(BeforeSpace(value), Lower(BeforeSpace(value)));
  }

  lemma SchemeIs(value: string, scheme: string, credential: string)
    requires SchemeAnd(value, scheme, credential)
    ensures SplitsAtSpace(value) && scheme == BeforeSpace(value) && credential == AfterSpace(value)
  {
    SpaceAfter(scheme, credential);
    hide Lower, SmallLetters, BeforeSpace, AfterSpace;
    var small :| SmallLetters(scheme, small) && small in {"bearer", "token", "basic", "apikey", "api-key", "digest"};
    LowerIs(scheme, small);
    SchemesAre(small);
  }

  lemma AuthorizationIs()
    ensures Lower(AUTHORIZATION) == "authorization"
  {
  }

  lemma TemplateText(front: string, key: string)
    ensures front + SecretTemplate(key) == front + "{{" + "secrets." + key + "}}"
    ensures [] + SecretTemplate(key) == "" + "{{" + "secrets." + key + "}}"
  {
  }

  /** Every header is treated as it must be. */
  lemma EachIsHandled(h: Header, secrets: seq<Secret>)
    requires Examine(h).Found? ==> Examine(h).secret in secrets
    ensures Handled(h, Lower(h.name), TemplateOf(h), secrets)
  {
    hide Contains, HoldsWord, Lower, Sensitive, NamesCredential, SchemeAnd, SecretTemplate, Slug, BeforeSpace, AfterSpace, SplitsAtSpace;
    ContainsIs(h.value, SECRET_OPEN);
    assert SECRET_OPEN == "{{" + "secrets.";
    SensitiveIs(Lower(h.name));
    AuthorizationIs();
    if Examine(h).Found? {
      TemplateText(Examine(h).front, Examine(h).secret.name);
    }
    SchemesOf(h.value);
    SplitMeans(h);
  }

  lemma SplitMeans(h: Header)
    ensures Lower(h.name) == Lower(AUTHORIZATION) && Examine(h).Found? ==>
      Examine(h) == if SplitsAtSpace(h.value)
                    then Found(BeforeSpace(h.value) + [' '], Secret("api_key", AfterSpace(h.value)))
                    else Found([], Secret("api_key", h.value))
    ensures SplitsAtSpace(h.value) ==> h.value == (BeforeSpace(h.value) + [' ']) + AfterSpace(h.value)
  {
    if SplitsAtSpace(h.value) {
      SplitIs(h.value);
    }
    hide Contains, Lower, Sensitive, BeforeSpace, AfterSpace;
  }

  /** The only way to split a value is at its first space. */
  lemma SchemesOf(value: string)
    ensures SplitsAtSpace(value) ==> SchemeAnd(value, BeforeSpace(value), AfterSpace(value))
    ensures forall scheme, credential :: SchemeAnd(value, scheme, credential) ==>
      SplitsAtSpace(value) && scheme == BeforeSpace(value) && credential == AfterSpace(value)
  {
    hide SchemeAnd, SplitsAtSpace, BeforeSpace, AfterSpace;
    if SplitsAtSpace(value) {
      SchemeIsSplit(value);
    }
    forall scheme, credential | SchemeAnd(value, scheme, credential)
      ensures SplitsAtSpace(value) && scheme == BeforeSpace(value) && credential == AfterSpace(value)
    {
      SchemeIs(value, scheme, credential);
    }
  }

  // ----- the name of a secret -----

  predicate SlugWord(s: string) {
    forall i :: 0 <= i < |s| ==> SlugChar(s[i])
  }

  predicate Gap(s: string) {
    forall i :: 0 <= i < |s| ==> !SlugChar(s[i])
  }

  /** Words with gaps before, between and behind them; only the first and the last gap may be empty. */
  predicate WordsFit(words: seq<string>, gaps: seq<string>) {
    && |gaps| == |words| + 1
    && (forall i :: 0 <= i < |words| ==> words[i] != [] && SlugWord(words[i]))
    && (forall i :: 0 <= i < |gaps| ==> Gap(gaps[i]))
    && (forall i :: 0 < i < |words| ==> gaps[i] != [])
  }

  function TextOf(words: seq<string>, gaps: seq<string>): string
    requires |gaps| == |words| + 1
  {
    if words == [] then gaps[0] else gaps[0] + (words[0] + TextOf(words[1..], gaps[1..]))
  }

  function Underscored(words: seq<string>): string {
    if words == [] then [] else if |words| == 1 then words[0] else words[0] + ("_" + Underscored(words[1..]))
  }

  /** A word stays as it is in the name. */
  lemma {:induction false} WordCollapsed(word: string, rest: string)
    requires SlugWord(word)
    ensures Collapsed(word + rest) == word + Collapsed(rest)
  {
    if word == [] {
      assert word + rest == rest && word + Collapsed(rest) == Collapsed(rest);
    } else {
      assert (word + rest)[1..] == word[1..] + rest;
      WordCollapsed(word[1..], rest);
      assert [word[0]] + (word[1..] + Collapsed(rest)) == word + Collapsed(rest);
    }
  }

  lemma {:induction false} GapSkipped(gap: string, rest: string)
    requires Gap(gap) && (rest == [] || SlugChar(rest[0]))
    ensures SkipOther(gap + rest) == rest
  {
    if gap == [] {
      assert gap + rest == rest;
    } else {
      assert (gap + rest)[1..] == gap[1..] + rest;
      GapSkipped(gap[1..], rest);
    }
  }

  /** A gap becomes one underscore. */
  lemma GapCollapsed(gap: string, rest: string)
    requires Gap(gap) && (rest == [] || SlugChar(rest[0]))
    ensures Collapsed(gap + rest) == (if gap == [] then "" else "_") + Collapsed(rest)
  {
    if gap == [] {
      assert gap + rest == rest;
    } else {
      assert (gap + rest)[1..] == gap[1..] + rest;
      GapSkipped(gap[1..], rest);
    }
  }

  function Edge(gap: string): string {
    if gap == [] then "" else "_"
  }

  lemma {:induction false} TextCollapsed(words: seq<string>, gaps: seq<string>)
    requires WordsFit(words, gaps)
    ensures Collapsed(TextOf(words, gaps)) ==
      if words == [] then Edge(gaps[0]) else Edge(gaps[0]) + Underscored(words) + Edge(gaps[|words|])
  {
    if words == [] {
      GapCollapsed(gaps[0], []);
      assert gaps[0] + [] == gaps[0] && Edge(gaps[0]) + "" == Edge(gaps[0]);
    } else {
      var rest := TextOf(words[1..], gaps[1..]);
      TextCollapsed(words[1..], gaps[1..]);
      GapCollapsed(gaps[0], words[0] + rest);
      WordCollapsed(words[0], rest);
      hide Collapsed, TextOf;
      EdgesJoin(words, gaps);
    }
  }

  lemma EdgesJoin(words: seq<string>, gaps: seq<string>)
    requires WordsFit(words, gaps) && words != []
    ensures var more := words[1..];
      Edge(gaps[0]) + (words[0] + (if more == [] then Edge(gaps[1]) else Edge(gaps[1]) + Underscored(more) + Edge(gaps[|words|])))
        == Edge(gaps[0]) + Underscored(words) + Edge(gaps[|words|])
  {
    var first, last := Edge(gaps[0]), Edge(gaps[|words|]);
    if |words| == 1 {
      ThreeParts(first, words[0], last);
    } else {
      assert Edge(gaps[1]) == "_" && Underscored(words) == words[0] + ("_" + Underscored(words[1..]));
      hide Underscored, Edge, WordsFit;
      FourParts(first, words[0], "_", Underscored(words[1..]), last);
    }
  }

  lemma ThreeParts(a: string, b: string, c: string)
    ensures a + (b + c) == a + b + c
  {
  }

  lemma FourParts(a: string, b: string, c: string, d: string, e: string)
    ensures a + (b + (c + d + e)) == a + (b + (c + d)) + e
  {
  }

  lemma {:induction false} UnderscoredEdges(words: seq<string>)
    requires words != [] && forall i :: 0 <= i < |words| ==> words[i] != [] && SlugWord(words[i])
    ensures var u := Underscored(words); u != [] && u[0] != '_' && u[|u| - 1] != '_'
  {
    if |words| > 1 {
      UnderscoredEdges(words[1..]);
    }
  }

  lemma EdgesTrimmed(a: string, u: string, b: string)
    requires a in {"", "_"} && b in {"", "_"} && u != [] && u[0] != '_' && u[|u| - 1] != '_'
    ensures TrimRight(TrimLeft(a + u + b)) == u
  {
    assert TrimLeft(u + b) == u + b;
    if a == "_" {
      assert (a + u + b)[1..] == u + b;
    } else {
      assert a + u + b == u + b;
    }
    assert TrimRight(u) == u;
    if b == "_" {
      assert (u + b)[..|u + b| - 1] == u;
    } else {
      assert u + b == u;
    }
  }

  /** The name of a secret is the words of the header's name, in small letters and joined by underscores,
      whatever stands before, between and behind them. */
  lemma SlugIsWords(name: string, words: seq<string>, gaps: seq<string>)
    requires WordsFit(words, gaps) && SmallLetters(name, TextOf(words, gaps))
    ensures Slug(name) == if words == [] then "secret" else Underscored(words)
  {
    hide TextOf, SmallLetters, Collapsed, Lower;
    LowerIs(name, TextOf(words, gaps));
    TextCollapsed(words, gaps);
    if words == [] {
      assert TrimLeft("_") == "" && TrimRight("") == "";
    } else {
      UnderscoredEdges(words);
      hide TrimLeft, TrimRight;
      EdgesTrimmed(Edge(gaps[0]), Underscored(words), Edge(gaps[|words|]));
    }
  }

  // ----- all headers -----

  /** Assignment to a key of the header dictionary: in place, or at the end. */
  function PutHeader(headers: seq<Header>, name: string, value: string): seq<Header> {
    if headers == [] then [Header(name, value)]
    else if headers[0].name == name then [Header(name, value)] + headers[1..]
    else [headers[0]] + PutHeader(headers[1..], name, value)
  }

  /** After the -u option was turned into a header with its own secret. */
  function WithBasic(headers: seq<Header>, token: Option<string>): seq<Header> {
    if token.Some? then PutHeader(headers, AUTHORIZATION, BASIC + SecretTemplate(BASIC_NAME)) else headers
  }

  function Collected(headers: seq<Header>): seq<Secret> {
    if headers == [] then []
    else
      var before := Collected(headers[..|headers| - 1]);
      match Examine(headers[|headers| - 1])
      case Untouched => before
      case Found(_, secret) => before + [secret]
  }

  lemma CollectedNext(headers: seq<Header>, i: nat)
    requires i < |headers|
    ensures Collected(headers[..i + 1])
         == Collected(headers[..i]) + (if Examine(headers[i]).Found? then [Examine(headers[i]).secret] else [])
  {
    assert headers[..i + 1][..i] == headers[..i];
    hide Examine;
  }

  lemma NoneCollected()
    ensures Collected([]) == []
  {
  }

  function Detected(headers: seq<Header>, token: Option<string>): seq<Secret> {
    (if token.Some? then [Secret(BASIC_NAME, token.value)] else []) + Collected(WithBasic(headers, token))
  }

  /** The loop over the headers; `token` is the encoded user and password of the -u option. */
  method ExtractCredentials(headers: seq<Header>, token: Option<string>) returns (out: seq<Header>, secrets: seq<Secret>)
    ensures |out| == |WithBasic(headers, token)|
    ensures forall i :: 0 <= i < |out| ==>
      out[i] == Header(WithBasic(headers, token)[i].name, TemplateOf(WithBasic(headers, token)[i]))
    ensures secrets == Detected(headers, token)
    ensures token.None? ==> |out| == |headers| && forall i :: 0 <= i < |out| ==> ExtractedAs(headers[i], out[i], secrets)
    ensures token.Some? ==> Secret("basic_auth", token.value) in secrets
    ensures token.Some? ==> Header("Authorization", "Basic " + "{{" + "secrets.basic_auth" + "}}") in out
    ensures token.Some? ==> forall h <- headers :: h.name != "Authorization" ==> exists o <- out :: ExtractedAs(h, o, secrets)
    ensures forall s <- secrets ::
      (token.Some? && s == Secret("basic_auth", token.value)) || exists h <- headers :: EndsIn(h.value, s.value)
  {
    hide Examine, TemplateOf, Collected, ExtractedAs, Detected, WithBasic;
    var hs := WithBasic(headers, token);
    secrets := if token.Some? then [Secret(BASIC_NAME, token.value)] else [];
    ghost var first := secrets;
    NoneCollected();
    out := [];
    for i := 0 to |hs|
      invariant |out| == i && forall k :: 0 <= k < i ==> out[k] == Header(hs[k].name, TemplateOf(hs[k]))
      invariant secrets == first + Collected(hs[..i])
    {
      CollectedNext(hs, i);
      match Examine(hs[i]) {
        case Untouched =>
        case Found(_, secret) => secrets := secrets + [secret];
      }
      out := out + [Header(hs[i].name, TemplateOf(hs[i]))];
    }
    assert hs[..|hs|] == hs;
    assert secrets == Detected(headers, token) by {
      DetectedIs(headers, token);
    }
    ExtractedMeans(headers, token, out, secrets);
  }

  lemma DetectedIs(headers: seq<Header>, token: Option<string>)
    ensures Detected(headers, token)
         == (if token.Some? then [Secret(BASIC_NAME, token.value)] else []) + Collected(WithBasic(headers, token))
  {
  }

  /** The header keeps its name and is treated as its name in small letters says. */
  ghost predicate ExtractedAs(h: Header, o: Header, secrets: seq<Secret>) {
    o.name == h.name && forall small :: SmallLetters(h.name, small) ==> Handled(h, small, o.value, secrets)
  }

  predicate EndsIn(s: string, t: string) {
    |t| <= |s| && s[|s| - |t|..] == t
  }

  lemma OneExtracted(h: Header, secrets: seq<Secret>)
    requires Examine(h).Found? ==> Examine(h).secret in secrets
    ensures ExtractedAs(h, Header(h.name, TemplateOf(h)), secrets)
  {
    EachIsHandled(h, secrets);
    hide Handled, Examine, TemplateOf, Lower;
    forall small | SmallLetters(h.name, small) ensures small == Lower(h.name) {
      LowerIs(h.name, small);
    }
  }

  lemma CollectedEnds(h: Header)
    requires Examine(h).Found?
    ensures EndsIn(h.value, Examine(h).secret.value)
  {
    FindingFits(h);
    hide Examine;
    var front, t := Examine(h).front, Examine(h).secret.value;
    assert (front + t)[|front|..] == t;
  }

  lemma ExtractedMeans(headers: seq<Header>, token: Option<string>, out: seq<Header>, secrets: seq<Secret>)
    requires |out| == |WithBasic(headers, token)| && secrets == Detected(headers, token)
    requires forall i :: 0 <= i < |out| ==>
      out[i] == Header(WithBasic(headers, token)[i].name, TemplateOf(WithBasic(headers, token)[i]))
    ensures token.None? ==> |out| == |headers| && forall i :: 0 <= i < |out| ==> ExtractedAs(headers[i], out[i], secrets)
    ensures token.Some? ==> Secret("basic_auth", token.value) in secrets
    ensures token.Some? ==> Header("Authorization", "Basic " + "{{" + "secrets.basic_auth" + "}}") in out
    ensures token.Some? ==> forall h <- headers :: h.name != "Authorization" ==> exists o <- out :: ExtractedAs(h, o, secrets)
    ensures forall s <- secrets ::
      (token.Some? && s == Secret("basic_auth", token.value)) || exists h <- headers :: EndsIn(h.value, s.value)
  {
    var hs := WithBasic(headers, token);
    CollectedMeans(hs);
    PutHeaderKeeps(headers, AUTHORIZATION, BASIC + SecretTemplate(BASIC_NAME));
    BasicIsUntouched();
    hide Examine, TemplateOf, Collected, ExtractedAs, SecretTemplate, PutHeader, EndsIn;
    forall h | h in hs ensures ExtractedAs(h, Header(h.name, TemplateOf(h)), secrets) {
      assert Examine(h).Found? ==> Examine(h).secret in Collected(hs);
      OneExtracted(h, secrets);
    }
    if token.Some? {
      assert secrets[0] == Secret(BASIC_NAME, token.value);
      var i :| 0 <= i < |hs| && hs[i] == Header(AUTHORIZATION, BASIC + SecretTemplate(BASIC_NAME));
      BasicText();
      assert out[i] in out;
      forall h | h in headers && h.name != "Authorization" ensures exists o <- out :: ExtractedAs(h, o, secrets) {
        assert h in hs;
        var k :| 0 <= k < |hs| && hs[k] == h;
        assert out[k] in out;
      }
    }
    forall s | s in secrets && !(token.Some? && s == Secret("basic_auth", token.value))
      ensures exists h <- headers :: EndsIn(h.value, s.value)
    {
      assert s in Collected(hs);
      var h :| h in hs && Examine(h).Found? && Examine(h).secret == s;
      CollectedEnds(h);
      assert h in headers;
    }
  }

  lemma BasicText()
    ensures TemplateOf(Header(AUTHORIZATION, BASIC + SecretTemplate(BASIC_NAME))) == "Basic " + "{{" + "secrets.basic_auth" + "}}"
  {
    hide Examine, SecretTemplate;
    BasicIsUntouched();
    TemplateText(BASIC, BASIC_NAME);
    assert "secrets." + "basic_auth" == "secrets.basic_auth";
    assert ("Basic " + "{{" + "secrets.") + "basic_auth" == "Basic " + "{{" + ("secrets." + "basic_auth");
  }

  lemma {:induction false} PutHeaderKeeps(headers: seq<Header>, name: string, value: string)
    ensures Header(name, value) in PutHeader(headers, name, value)
    ensures forall h <- headers :: h.name != name ==> h in PutHeader(headers, name, value)
    ensures forall h <- PutHeader(headers, name, value) :: h == Header(name, value) || h in headers
  {
    if headers != [] {
      assert headers == [headers[0]] + headers[1..];
      PutHeaderKeeps(headers[1..], name, value);
    }
  }

  /** When the import stores the secrets, the first value of a name wins. */
  function Stored(secrets: seq<Secret>): map<string, string> {
    if secrets == [] then map[]
    else
      var before, last := Stored(secrets[..|secrets| - 1]), secrets[|secrets| - 1];
      if last.name in before then before else before[last.name := last.value]
  }

  /** No two detected secrets share a name and differ in value. */
  predicate Consistent(secrets: seq<Secret>) {
    forall i, j :: 0 <= i < j < |secrets| && secrets[i].name == secrets[j].name ==> secrets[i].value == secrets[j].value
  }

  lemma {:induction false} StoredHas(secrets: seq<Secret>)
    ensures forall i :: 0 <= i < |secrets| ==> secrets[i].name in Stored(secrets)
    ensures forall name :: name in Stored(secrets) ==> exists i :: 0 <= i < |secrets| && secrets[i] == Secret(name, Stored(secrets)[name])
  {
    if secrets != [] {
      var front, last := secrets[..|secrets| - 1], secrets[|secrets| - 1];
      StoredHas(front);
      forall name | name in Stored(secrets)
        ensures exists i :: 0 <= i < |secrets| && secrets[i] == Secret(name, Stored(secrets)[name])
      {
        if name in Stored(front) {
          var i :| 0 <= i < |front| && front[i] == Secret(name, Stored(front)[name]);
          assert secrets[i] == front[i];
        } else {
          assert secrets[|front|] == last;
        }
      }
      forall i | 0 <= i < |secrets| ensures secrets[i].name in Stored(secrets) {
        if i < |front| {
          assert front[i].name in Stored(front);
        }
      }
    }
  }

  /** The secret's name leads to its own value. */
  predicate Led(stored: map<string, string>, s: Secret) {
    s.name in stored && stored[s.name] == s.value
  }

  predicate AllLed(secrets: seq<Secret>, stored: map<string, string>) {
    forall s :: s in secrets ==> Led(stored, s)
  }

  /** Every secret can be looked up again if and only if the list is consistent. */
  lemma StoredExactly(secrets: seq<Secret>)
    ensures AllLed(secrets, Stored(secrets)) <==> Consistent(secrets)
  {
    StoredHas(secrets);
    if Consistent(secrets) {
      forall s | s in secrets ensures Led(Stored(secrets), s) {
        var i :| 0 <= i < |secrets| && secrets[i] == s;
        var k :| 0 <= k < |secrets| && secrets[k] == Secret(s.name, Stored(secrets)[s.name]);
      }
    }
    if AllLed(secrets, Stored(secrets)) {
      forall i, j | 0 <= i < j < |secrets| && secrets[i].name == secrets[j].name ensures secrets[i].value == secrets[j].value {
        assert Led(Stored(secrets), secrets[i]) && Led(Stored(secrets), secrets[j]);
      }
    }
  }

  // ----- giving the headers back -----

  /** The value a header had in the command. */
  function Original(h: Header, token: Option<string>): string {
    if token.Some? && h.name == AUTHORIZATION then BASIC + token.value else h.value
  }

  predicate UniqueNames(headers: seq<Header>) {
    forall i, j :: 0 <= i < j < |headers| ==> headers[i].name != headers[j].name
  }

  /** Headers that are not turned into templates hold no placeholder syntax. */
  predicate PlainElsewhere(headers: seq<Header>, token: Option<string>) {
    forall i :: 0 <= i < |headers| && Examine(headers[i]) == Untouched && !(token.Some? && headers[i].name == AUTHORIZATION)
      ==> Plain(headers[i].value)
  }

  predicate Restored(h: Header, token: Option<string>, variables: map<string, string>, stored: map<string, string>) {
    Render(TemplateOf(h), variables, stored, true) == Ok(Original(h, token))
  }

  lemma SchemeIsBraceless(scheme: string)
    requires Lower(scheme) in SCHEMES
    ensures NoBrace(scheme)
  {
    var i :| 0 <= i < |SCHEMES| && SCHEMES[i] == Lower(scheme);
    SchemesArePlain(i);
    forall k | 0 <= k < |scheme| ensures scheme[k] != '{' {
      assert Lower(scheme)[k] == LowerChar(scheme[k]) && SCHEMES[i][k] != '{';
    }
  }

  lemma SchemesArePlain(i: nat)
    requires i < |SCHEMES|
    ensures NoBrace(SCHEMES[i])
  {
    if i == 0 {
      assert NoBrace("bearer");
    } else if i == 1 {
      assert NoBrace("token");
    } else if i == 2 {
      assert NoBrace("basic");
    } else if i == 3 {
      assert NoBrace("apikey");
    } else if i == 4 {
      assert NoBrace("api-key");
    } else {
      assert NoBrace("digest");
    }
  }

  /** The text in front and the secret make up the header, and the name fits a placeholder. */
  lemma FindingFits(h: Header)
    requires Examine(h).Found?
    ensures NoBrace(Examine(h).front) && NameChars(Examine(h).secret.name)
    ensures Examine(h).front + Examine(h).secret.value == h.value
  {
    SlugIsName(h.name);
    FixedNames();
    assert [] + h.value == h.value;
    hide Sensitive, Contains, Slug, NameChars, Lower, NoBrace;
    if Examine(h).front != [] {
      SchemeFits(h.value);
    } else {
      assert Examine(h).secret.name in {API_NAME, COOKIE_NAME, Slug(h.name)};
      EmptyIsBraceless();
    }
  }

  lemma EmptyIsBraceless()
    ensures NoBrace([])
  {
  }

  lemma FixedNames()
    ensures NameChars(API_NAME) && NameChars(COOKIE_NAME)
  {
  }

  lemma SchemeFits(value: string)
    requires Lower(BeforeSpace(value)) in SCHEMES && AfterSpace(value) != []
    ensures NoBrace(BeforeSpace(value) + [' ']) && BeforeSpace(value) + [' '] + AfterSpace(value) == value
  {
    hide Lower;
    SchemeIsBraceless(BeforeSpace(value));
    SplitAtSpace(value);
    hide BeforeSpace, AfterSpace;
  }

  lemma SplitAtSpace(value: string)
    requires AfterSpace(value) != []
    ensures BeforeSpace(value) + [' '] + AfterSpace(value) == value
  {
  }

  /** A templated header comes back exactly when its secret's name leads to its own value. */
  lemma FoundRestored(h: Header, token: Option<string>, variables: map<string, string>, stored: map<string, string>)
    requires Examine(h).Found? && Original(h, token) == h.value
    requires Examine(h).secret.name in stored
    ensures Restored(h, token, variables, stored) <==> Led(stored, Examine(h).secret)
  {
    var front, secret := Examine(h).front, Examine(h).secret;
    FindingFits(h);
    PrefixedIsValid(secret.name);
    hide Examine, NameChars, NoBrace, ValidName, Render, SecretTemplate;
    SecretTemplateRenders(front, secret.name, variables, stored, true);
    SameFront(front, stored[secret.name], secret.value);
  }

  lemma SameFront(front: string, a: string, b: string)
    ensures front + a == front + b <==> a == b
  {
    if front + a == front + b {
      assert (front + a)[|front|..] == a && (front + b)[|front|..] == b;
    }
  }

  lemma {:induction false} PutHeaderIs(headers: seq<Header>, name: string, value: string)
    requires UniqueNames(headers)
    ensures UniqueNames(PutHeader(headers, name, value)) && Header(name, value) in PutHeader(headers, name, value)
    ensures forall h :: h in PutHeader(headers, name, value) ==> h == Header(name, value) || (h in headers && h.name != name)
  {
    if headers != [] {
      UniqueTail(headers);
      hide UniqueNames;
      if headers[0].name != name {
        PutHeaderIs(headers[1..], name, value);
        UniqueCons(headers[0], PutHeader(headers[1..], name, value));
      } else {
        UniqueCons(Header(name, value), headers[1..]);
      }
    } else {
      UniqueCons(Header(name, value), []);
      assert [Header(name, value)] + [] == [Header(name, value)];
    }
  }

  lemma UniqueTail(headers: seq<Header>)
    requires headers != [] && UniqueNames(headers)
    ensures UniqueNames(headers[1..]) && forall h :: h in headers[1..] ==> h.name != headers[0].name
    ensures forall h :: h in headers <==> h == headers[0] || h in headers[1..]
  {
    assert headers == [headers[0]] + headers[1..];
    forall h | h in headers[1..] ensures h.name != headers[0].name {
      var i :| 0 <= i < |headers| - 1 && headers[1..][i] == h;
      assert headers[i + 1] == h;
    }
  }

  lemma UniqueCons(first: Header, rest: seq<Header>)
    requires UniqueNames(rest) && forall h :: h in rest ==> h.name != first.name
    ensures UniqueNames([first] + rest)
  {
  }

  lemma {:induction false} HoldsAfter(front: string, t: string, back: string)
    ensures Contains(front + t + back, t)
  {
    var s := front + t + back;
    if front == [] {
      assert s[..|t|] == t;
    } else {
      assert s[1..] == front[1..] + t + back;
      HoldsAfter(front[1..], t, back);
    }
  }

  /** The header made from -u is skipped by the loop. */
  lemma BasicIsUntouched()
    ensures Examine(Header(AUTHORIZATION, BASIC + SecretTemplate(BASIC_NAME))) == Untouched
  {
    var value := BASIC + SecretTemplate(BASIC_NAME);
    HoldsAfter(BASIC, SECRET_OPEN, BASIC_NAME + ['}', '}']);
    assert SECRET_OPEN == ['{', '{'] + SECRET_PREFIX;
    assert SecretTemplate(BASIC_NAME) == SECRET_OPEN + (BASIC_NAME + ['}', '}']);
    assert value == BASIC + SECRET_OPEN + (BASIC_NAME + ['}', '}']);
  }

  lemma BasicRestored(token: string, variables: map<string, string>, stored: map<string, string>)
    requires BASIC_NAME in stored
    ensures Restored(Header(AUTHORIZATION, BASIC + SecretTemplate(BASIC_NAME)), Some(token), variables, stored)
       <==> Led(stored, Secret(BASIC_NAME, token))
  {
    BasicIsUntouched();
    assert NoBrace(BASIC) && NameChars(BASIC_NAME);
    PrefixedIsValid(BASIC_NAME);
    hide Examine, NameChars, NoBrace, ValidName, Render, SecretTemplate;
    SecretTemplateRenders(BASIC, BASIC_NAME, variables, stored, true);
    SameFront(BASIC, stored[BASIC_NAME], token);
  }

  lemma {:induction false} CollectedMeans(headers: seq<Header>)
    ensures forall s :: s in Collected(headers) <==> exists h :: h in headers && Examine(h).Found? && Examine(h).secret == s
  {
    if headers != [] {
      var front, last := headers[..|headers| - 1], headers[|headers| - 1];
      assert headers == front + [last] && last in headers;
      CollectedMeans(front);
    }
  }

  /** The secrets taken out of this header lead back to their values. */
  predicate Healed(h: Header, token: Option<string>, stored: map<string, string>) {
    && (Examine(h).Found? ==> Led(stored, Examine(h).secret))
    && (token.Some? && h.name == AUTHORIZATION ==> Led(stored, Secret(BASIC_NAME, token.value)))
  }

  /** What rendering gives back of one header, whichever way it was treated. */
  lemma OneRestored(h: Header, token: Option<string>, variables: map<string, string>, stored: map<string, string>)
    requires token.Some? && h.name == AUTHORIZATION ==> h.value == BASIC + SecretTemplate(BASIC_NAME) && BASIC_NAME in stored
    requires Examine(h) == Untouched && !(token.Some? && h.name == AUTHORIZATION) ==> Plain(h.value)
    requires Examine(h).Found? ==> Examine(h).secret.name in stored
    ensures Restored(h, token, variables, stored) <==> Healed(h, token, stored)
  {
    if token.Some? && h.name == AUTHORIZATION {
      BasicIsUntouched();
      assert h == Header(AUTHORIZATION, BASIC + SecretTemplate(BASIC_NAME));
      hide Examine;
      BasicRestored(token.value, variables, stored);
    } else if Examine(h).Found? {
      hide Examine;
      FoundRestored(h, token, variables, stored);
    } else {
      hide Examine, Plain, Render;
      PlainRenders(h.value, variables, stored, true);
    }
  }

  /** Rendering the extracted templates with the stored secrets gives every original header value back
      if and only if detected secrets of one name have one value; distinct names are enough. */
  lemma RoundTripExactly(headers: seq<Header>, token: Option<string>, variables: map<string, string>)
    requires UniqueNames(headers) && PlainElsewhere(WithBasic(headers, token), token)
    ensures var hs, secrets := WithBasic(headers, token), Detected(headers, token);
      (forall h :: h in hs ==> Restored(h, token, variables, Stored(secrets))) <==> Consistent(secrets)
  {
    var hs, secrets := WithBasic(headers, token), Detected(headers, token);
    var stored := Stored(secrets);
    StoredExactly(secrets);
    HealedMeansLed(headers, token, stored);
    hide Restored, Plain, Consistent, Stored, Collected, Detected, Healed, AllLed;
    forall h | h in hs ensures Restored(h, token, variables, stored) <==> Healed(h, token, stored) {
      NamesStored(headers, token, h);
      hide Examine;
      OneRestored(h, token, variables, stored);
    }
  }

  lemma BasicIsDetected(headers: seq<Header>, token: string)
    ensures Secret(BASIC_NAME, token) in Detected(headers, Some(token))
  {
    assert Detected(headers, Some(token))[0] == Secret(BASIC_NAME, token);
  }

  lemma {:induction false} StoredName(secrets: seq<Secret>, s: Secret)
    requires s in secrets
    ensures s.name in Stored(secrets)
  {
    StoredHas(secrets);
    var i :| 0 <= i < |secrets| && secrets[i] == s;
  }

  lemma NamesStored(headers: seq<Header>, token: Option<string>, h: Header)
    requires UniqueNames(headers) && h in WithBasic(headers, token)
    ensures Examine(h).Found? ==> Examine(h).secret.name in Stored(Detected(headers, token))
    ensures token.Some? && h.name == AUTHORIZATION
      ==> h.value == BASIC + SecretTemplate(BASIC_NAME) && BASIC_NAME in Stored(Detected(headers, token))
  {
    hide Examine, Stored, SecretTemplate;
    if Examine(h).Found? {
      CollectedMeans(WithBasic(headers, token));
      assert Examine(h).secret in Detected(headers, token);
      StoredName(Detected(headers, token), Examine(h).secret);
    }
    if token.Some? && h.name == AUTHORIZATION {
      PutHeaderIs(headers, AUTHORIZATION, BASIC + SecretTemplate(BASIC_NAME));
      BasicIsDetected(headers, token.value);
      StoredName(Detected(headers, token), Secret(BASIC_NAME, token.value));
    }
  }

  lemma HealedMeansLed(headers: seq<Header>, token: Option<string>, stored: map<string, string>)
    requires UniqueNames(headers)
    ensures (forall h :: h in WithBasic(headers, token) ==> Healed(h, token, stored)) <==> AllLed(Detected(headers, token), stored)
  {
    var hs := WithBasic(headers, token);
    CollectedMeans(hs);
    PutHeaderIs(headers, AUTHORIZATION, BASIC + SecretTemplate(BASIC_NAME));
    hide Examine, SecretTemplate, Collected, Led, PutHeader;
    if AllLed(Detected(headers, token), stored) {
      forall h | h in hs ensures Healed(h, token, stored) {
        if token.Some? {
          BasicIsDetected(headers, token.value);
        }
      }
    }
    if forall h :: h in hs ==> Healed(h, token, stored) {
      forall s | s in Detected(headers, token) ensures Led(stored, s) {
        if s in Collected(hs) {
          var h :| h in hs && Examine(h).Found? && Examine(h).secret == s;
          assert Healed(h, token, stored);
        } else {
          assert Healed(Header(AUTHORIZATION, BASIC + SecretTemplate(BASIC_NAME)), token, stored);
        }
      }
    }
  }

  // ----- a clash -----

  lemma {:induction false} FirstCharMissing(s: string, t: string)
    requires t != [] && t[0] !in s
    ensures !Contains(s, t)
  {
    if s != [] {
      FirstCharMissing(s[1..], t);
    }
  }

  lemma SchemeFound(h: Header, scheme: string, credential: string)
    requires Lower(h.name) == Lower(AUTHORIZATION) && Sensitive(Lower(h.name)) && !Contains(h.value, SECRET_OPEN)
    requires h.value == scheme + " " + credential && ' ' !in scheme && credential != [] && Lower(scheme) in SCHEMES
    ensures Examine(h) == Found(scheme + [' '], Secret(API_NAME, credential))
  {
    SpaceAfter(scheme, credential);
  }

  lemma LoweredToken()
    ensures Lower(AUTHORIZATION) == "authorization" && Lower("Bearer") == "bearer"
  {
  }

  lemma TokenFound()
    ensures Examine(Header(AUTHORIZATION, "Bearer a")) == Found("Bearer" + [' '], Secret(API_NAME, "a"))
  {
    LoweredToken();
    assert "bearer" == SCHEMES[0];
    hide Contains, BeforeSpace, AfterSpace, Lower, Examine;
    FirstCharMissing("Bearer a", SECRET_OPEN);
    SchemeFound(Header(AUTHORIZATION, "Bearer a"), "Bearer", "a");
  }

  lemma OtherFound(h: Header)
    requires Lower(h.name) != Lower(AUTHORIZATION) && Lower(h.name) != COOKIE_NAME && Sensitive(Lower(h.name))
    requires !Contains(h.value, SECRET_OPEN) && h.value != []
    ensures Examine(h) == Found([], Secret(Slug(h.name), h.value))
  {
  }

  lemma KeySlug()
    ensures Lower("api-key") == "api-key" && Slug("api-key") == API_NAME
  {
    assert Lower("api-key") == "api-key";
    var words, gaps := ["api", "key"], ["", "-", ""];
    assert words[1..] == ["key"] && gaps[1..] == ["-", ""] && ["key"][1..] == [] && ["-", ""][1..] == [""];
    assert TextOf([], [""]) == "" && TextOf(["key"], ["-", ""]) == "-" + ("key" + "");
    assert TextOf(words, gaps) == "api-key";
    assert Underscored(["key"]) == "key" && Underscored(words) == "api_key";
    hide Lower, Slug;
    SlugIsWords("api-key", words, gaps);
  }

  /** A header in no list, found by a word in its name. */
  lemma ClientSecretFound()
    ensures Examine(Header("X-Client-Secret", "s3cret")) == Found([], Secret("x_client_secret", "s3cret"))
  {
    hide Contains, Sensitive, Slug, Examine;
    var h, small := Header("X-Client-Secret", "s3cret"), "x-client-secret";
    assert SmallLetters(h.name, small);
    LowerIs(h.name, small);
    assert WordAt(small, "secret", 9);
    SensitiveIs(small);
    ClientSecretSlug();
    LoweredToken();
    FirstCharMissing("s3cret", SECRET_OPEN);
    hide Lower, SmallLetters;
    OtherFound(h);
  }

  const CLIENT_WORDS: seq<string> := ["x", "client", "secret"]
  const CLIENT_GAPS: seq<string> := ["", "-", "-", ""]

  lemma ClientSecretSlug()
    ensures Slug("X-Client-Secret") == "x_client_secret"
  {
    hide Slug, TextOf, Underscored, SmallLetters;
    ClientText();
    ClientName();
    ClientSmall();
    SlugIsWords("X-Client-Secret", CLIENT_WORDS, CLIENT_GAPS);
  }

  lemma ClientSmall()
    ensures SmallLetters("X-Client-Secret", "x-client-secret") && WordsFit(CLIENT_WORDS, CLIENT_GAPS)
  {
  }

  lemma TextNext(words: seq<string>, gaps: seq<string>, moreWords: seq<string>, moreGaps: seq<string>)
    requires words != [] && |gaps| == |words| + 1 && words[1..] == moreWords && gaps[1..] == moreGaps
    ensures |moreGaps| == |moreWords| + 1 && TextOf(words, gaps) == gaps[0] + words[0] + TextOf(moreWords, moreGaps)
  {
  }

  lemma ClientText()
    ensures TextOf(CLIENT_WORDS, CLIENT_GAPS) == "x-client-secret"
  {
    assert TextOf([], [""]) == "";
    hide TextOf;
    TextNext(["secret"], ["-", ""], [], [""]);
    TextNext(["client", "secret"], ["-", "-", ""], ["secret"], ["-", ""]);
    TextNext(CLIENT_WORDS, CLIENT_GAPS, ["client", "secret"], ["-", "-", ""]);
  }

  lemma NameNext(words: seq<string>, more: seq<string>)
    requires |words| > 1 && words[1..] == more
    ensures Underscored(words) == words[0] + "_" + Underscored(more)
  {
  }

  lemma ClientName()
    ensures Underscored(CLIENT_WORDS) == "x_client_secret"
  {
    assert Underscored(["secret"]) == "secret";
    hide Underscored;
    NameNext(["client", "secret"], ["secret"]);
    NameNext(CLIENT_WORDS, ["client", "secret"]);
  }

  lemma KeyFound()
    ensures Examine(Header("api-key", "b")) == Found([], Secret(API_NAME, "b"))
  {
    KeySlug();
    LoweredToken();
    hide Contains, Lower, Slug, Examine;
    FirstCharMissing("b", SECRET_OPEN);
    OtherFound(Header("api-key", "b"));
  }

  /** When the secrets of two headers get one name, the second header comes back with the first one's
      secret, if the secrets differ. */
  lemma ClashingPair(h0: Header, h1: Header, variables: map<string, string>)
    requires Examine(h0).Found? && Examine(h1).Found? && Examine(h0).secret.name == Examine(h1).secret.name
    requires Examine(h0).secret.value != Examine(h1).secret.value
    ensures var secrets := Detected([h0, h1], None);
      !Consistent(secrets) && !Restored(h1, None, variables, Stored(secrets))
  {
    hide Examine, Stored, Consistent, Restored, Collected;
    var first, second := Examine(h0).secret, Examine(h1).secret;
    PairCollected(h0, h1);
    assert [] + [first, second] == [first, second];
    TwoStored(first, second);
    FoundRestored(h1, None, variables, Stored([first, second]));
  }

  lemma PairCollected(h0: Header, h1: Header)
    requires Examine(h0).Found? && Examine(h1).Found?
    ensures Collected([h0, h1]) == [Examine(h0).secret, Examine(h1).secret]
  {
    hide Examine, Collected;
    CollectedNext([h0, h1], 0);
    CollectedNext([h0, h1], 1);
    NoneCollected();
    assert [h0, h1][..0] == [] && [h0, h1][..2] == [h0, h1];
  }

  /** A token and a key are such a pair. */
  lemma TokenAndKeyClash(variables: map<string, string>)
    ensures var secrets := Detected([Header(AUTHORIZATION, "Bearer a"), Header("api-key", "b")], None);
      !Consistent(secrets) && !Restored(Header("api-key", "b"), None, variables, Stored(secrets))
  {
    hide Examine, Detected, Consistent, Restored, Stored;
    TokenFound();
    KeyFound();
    ClashingPair(Header(AUTHORIZATION, "Bearer a"), Header("api-key", "b"), variables);
  }

  lemma TwoStored(first: Secret, second: Secret)
    requires first.name == second.name && first.value != second.value
    ensures var stored := Stored([first, second]);
      first.name in stored && stored[first.name] == first.value && !Consistent([first, second])
  {
    var both := [first, second];
    assert both[..1] == [first] && [first][..0] == [];
    assert Stored([first]) == map[][first.name := first.value];
    assert both[0].name == both[1].name;
  }
}
