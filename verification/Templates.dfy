/** Request templates of custom integrations: finding the placeholders in a template, and rendering it with
    variables and secrets. */
module Templates {
  import opened Options
  import opened Sequences
  import opened WhiteSpace

  const SECRET_PREFIX := "secrets."

  predicate IsLetter(c: char) {
    'a' <= c <= 'z' || 'A' <= c <= 'Z'
  }

  predicate NameStart(c: char) {
    IsLetter(c) || c == '_'
  }

  predicate NameChar(c: char) {
    NameStart(c) || '0' <= c <= '9' || c == '.' || c == '-'
  }

  /** How many characters of white space the text starts with. */
  function Spaces(text: string): (n: nat)
    ensures n <= |text| && forall i :: 0 <= i < n ==> IsSpace(text[i])
  {
    if text == [] || !IsSpace(text[0]) then 0 else 1 + Spaces(text[1..])
  }

  function NameRun(text: string): (n: nat)
    ensures n <= |text| && forall i :: 0 <= i < n ==> NameChar(text[i])
  {
    if text == [] || !NameChar(text[0]) then 0 else 1 + NameRun(text[1..])
  }

  datatype Hole = Hole(name: string, length: nat)

  /** A placeholder at the start of the text: two braces, white space, a name, white space, two
      braces. Names, white space and braces share no character, so nothing has to be tried twice. */
  function HoleAtStart(text: string): (h: Option<Hole>)
    ensures h.Some? ==> 0 < h.value.length <= |text|
  {
    if |text| < 2 || text[0] != '{' || text[1] != '{' then None
    else
      var a := 2 + Spaces(text[2..]);
      if a == |text| || !NameStart(text[a]) then None
      else
        var b := a + NameRun(text[a..]);
        var c := b + Spaces(text[b..]);
        if c + 2 <= |text| && text[c] == '}' && text[c + 1] == '}' then Some(Hole(text[a..b], c + 2)) else None
  }

  datatype Piece = Literal(c: char) | Placeholder(name: string)

  /** The template taken apart, from the left. */
  function Pieces(text: string): seq<Piece>
    decreases |text|
  {
    if text == [] then []
    else
      match HoleAtStart(text)
      case None => [Literal(text[0])] + Pieces(text[1..])
      case Some(h) => [Placeholder(h.name)] + Pieces(text[h.length..])
  }

  predicate IsSecretName(name: string) {
    SECRET_PREFIX <= name
  }

  function SecretKey(name: string): string
    requires IsSecretName(name)
  {
    name[|SECRET_PREFIX|..]
  }

  // ----- rendering -----

  type Rendered = Result<string, string>

  /** What one piece becomes. The error names a missing secret. */
  function PieceText(p: Piece, variables: map<string, string>, secrets: map<string, string>, strict: bool): Rendered {
    match p
    case Literal(c) => Ok([c])
    case Placeholder(name) =>
      if IsSecretName(name) then
        var key := SecretKey(name);
        if key in secrets then Ok(secrets[key]) else if strict then Err(key) else Ok([])
      else Ok(if name in variables then variables[name] else [])
  }

  /** Rendering stops at the first missing secret. */
  function Joined(a: Rendered, b: Rendered): Rendered {
    if a.Err? then a else if b.Err? then b else Ok(a.value + b.value)
  }

  function RenderPieces(ps: seq<Piece>, variables: map<string, string>, secrets: map<string, string>, strict: bool): Rendered {
    if ps == [] then Ok([])
    else Joined(PieceText(ps[0], variables, secrets, strict), RenderPieces(ps[1..], variables, secrets, strict))
  }

  function Render(template: string, variables: map<string, string>, secrets: map<string, string>, strict: bool): Rendered {
    RenderPieces(Pieces(template), variables, secrets, strict)
  }

  // ----- the secrets a template asks for -----

  predicate Asks(p: Piece, key: string) {
    p.Placeholder? && IsSecretName(p.name) && SecretKey(p.name) == key
  }

  predicate AskedIn(ps: seq<Piece>, key: string) {
    exists i :: 0 <= i < |ps| && Asks(ps[i], key)
  }

  predicate NoRepeats(keys: seq<string>) {
    forall i, j :: 0 <= i < j < |keys| ==> keys[i] != keys[j]
  }

  /** The secrets of a template, each once, in the order of their first appearance. */
  function SecretsOf(ps: seq<Piece>): seq<string> {
    if ps == [] then []
    else
      var before, last := SecretsOf(ps[..|ps| - 1]), ps[|ps| - 1];
      if last.Placeholder? && IsSecretName(last.name) && SecretKey(last.name) !in before
      then before + [SecretKey(last.name)] else before
  }

  /** The pieces of several templates, one after the other. */
  function AllPieces(templates: seq<string>): seq<Piece> {
    if templates == [] then [] else AllPieces(templates[..|templates| - 1]) + Pieces(templates[|templates| - 1])
  }

  /** The secrets that these templates ask for together. */
  method SecretsIn(templates: seq<string>) returns (keys: seq<string>)
    ensures NoRepeats(keys) && forall key :: key in keys <==> AskedIn(AllPieces(templates), key)
    ensures keys == SecretsOf(AllPieces(templates))
  {
    keys := [];
    for t := 0 to |templates|
      invariant keys == SecretsOf(AllPieces(templates[..t]))
    {
      assert templates[..t + 1][..t] == templates[..t];
      keys := AddSecrets(keys, Pieces(templates[t]), AllPieces(templates[..t]));
    }
    assert templates[..|templates|] == templates;
    SecretsOfMeans(AllPieces(templates));
  }

  /** The secrets of one more template are added to those found so far. */
  method AddSecrets(found: seq<string>, ps: seq<Piece>, ghost front: seq<Piece>) returns (keys: seq<string>)
    requires found == SecretsOf(front)
    ensures keys == SecretsOf(front + ps)
  {
    keys := found;
    assert front + ps[..0] == front;
    for k := 0 to |ps|
      invariant keys == SecretsOf(front + ps[..k])
    {
      assert (front + ps[..k + 1])[..|front| + k] == front + ps[..k] && (front + ps[..k + 1])[|front| + k] == ps[k];
      if ps[k].Placeholder? && IsSecretName(ps[k].name) {
        var key := SecretKey(ps[k].name);
        if key !in keys {
          keys := keys + [key];
        }
      }
    }
    assert ps[..|ps|] == ps;
  }

  lemma {:induction false} SecretsOfMeans(ps: seq<Piece>)
    ensures NoRepeats(SecretsOf(ps))
    ensures forall key :: key in SecretsOf(ps) <==> AskedIn(ps, key)
  {
    if ps != [] {
      var front, last := ps[..|ps| - 1], ps[|ps| - 1];
      SecretsOfMeans(front);
      forall key ensures key in SecretsOf(ps) <==> AskedIn(ps, key) {
        AskedNext(ps, key);
      }
    }
  }

  lemma AskedNext(ps: seq<Piece>, key: string)
    requires ps != []
    ensures AskedIn(ps, key) <==> AskedIn(ps[..|ps| - 1], key) || Asks(ps[|ps| - 1], key)
  {
    var front, last := ps[..|ps| - 1], ps[|ps| - 1];
    if AskedIn(ps, key) {
      var i :| 0 <= i < |ps| && Asks(ps[i], key);
      assert i < |front| ==> front[i] == ps[i];
    }
    if AskedIn(front, key) {
      var i :| 0 <= i < |front| && Asks(front[i], key);
      assert Asks(ps[i], key);
    }
  }

  lemma AskedFirst(ps: seq<Piece>, key: string)
    requires ps != []
    ensures AskedIn(ps, key) <==> Asks(ps[0], key) || AskedIn(ps[1..], key)
  {
    if AskedIn(ps, key) {
      var i :| 0 <= i < |ps| && Asks(ps[i], key);
      assert i > 0 ==> ps[1..][i - 1] == ps[i];
    }
    if AskedIn(ps[1..], key) {
      var i :| 0 <= i < |ps[1..]| && Asks(ps[1..][i], key);
      assert Asks(ps[i + 1], key);
    }
  }

  predicate SomeMissing(ps: seq<Piece>, secrets: map<string, string>) {
    exists key :: key in SecretsOf(ps) && key !in secrets
  }

  lemma {:induction false} MissingPieces(ps: seq<Piece>, variables: map<string, string>, secrets: map<string, string>)
    ensures var r := RenderPieces(ps, variables, secrets, true);
      if r.Err? then AskedIn(ps, r.error) && r.error !in secrets
      else forall key :: AskedIn(ps, key) ==> key in secrets
  {
    if ps != [] {
      MissingPieces(ps[1..], variables, secrets);
      var first := PieceText(ps[0], variables, secrets, true);
      if first.Err? {
        AskedFirst(ps, first.error);
      } else {
        var rest := RenderPieces(ps[1..], variables, secrets, true);
        if rest.Err? {
          AskedFirst(ps, rest.error);
        }
        forall key | AskedIn(ps, key) && rest.Ok? ensures key in secrets {
          AskedFirst(ps, key);
        }
      }
    }
  }

  /** Strict rendering fails exactly when some secret of the template is not given, and then names one
      that is missing. */
  lemma MissingSecretExactly(template: string, variables: map<string, string>, secrets: map<string, string>)
    ensures var r := Render(template, variables, secrets, true);
      && (r.Err? <==> SomeMissing(Pieces(template), secrets))
      && (r.Err? ==> r.error in SecretsOf(Pieces(template)) && r.error !in secrets)
  {
    var ps := Pieces(template);
    SecretsOfMeans(ps);
    MissingPieces(ps, variables, secrets);
  }

  lemma {:induction false} NeverFails(ps: seq<Piece>, variables: map<string, string>, secrets: map<string, string>)
    ensures RenderPieces(ps, variables, secrets, false).Ok?
  {
    if ps != [] {
      NeverFails(ps[1..], variables, secrets);
    }
  }

  // ----- templates whose pieces are known -----

  function Literals(text: string): seq<Piece> {
    seq(|text|, i requires 0 <= i < |text| => Literal(text[i]))
  }

  /** Text without placeholder syntax. */
  predicate Plain(text: string) {
    forall i :: 0 <= i < |text| ==> HoleAtStart(text[i..]).None?
  }

  lemma {:induction false} PlainPieces(text: string)
    requires Plain(text)
    ensures Pieces(text) == Literals(text)
  {
    if text != [] {
      assert text[0..] == text;
      forall i | 0 <= i < |text[1..]| ensures HoleAtStart(text[1..][i..]).None? {
        assert text[1..][i..] == text[i + 1..];
      }
      PlainPieces(text[1..]);
      assert Literals(text) == [Literal(text[0])] + Literals(text[1..]);
    }
  }

  lemma {:induction false} LiteralsRender(text: string, variables: map<string, string>, secrets: map<string, string>, strict: bool)
    ensures RenderPieces(Literals(text), variables, secrets, strict) == Ok(text)
  {
    if text != [] {
      assert Literals(text)[1..] == Literals(text[1..]);
      LiteralsRender(text[1..], variables, secrets, strict);
      assert [text[0]] + text[1..] == text;
    }
  }

  /** Plain text is its own rendering. */
  lemma PlainRenders(text: string, variables: map<string, string>, secrets: map<string, string>, strict: bool)
    requires Plain(text)
    ensures Render(text, variables, secrets, strict) == Ok(text)
  {
    PlainPieces(text);
    LiteralsRender(text, variables, secrets, strict);
  }

  predicate NoBrace(text: string) {
    forall i :: 0 <= i < |text| ==> text[i] != '{'
  }

  /** Text without an opening brace in front of anything stays literal. */
  lemma {:induction false} BracelessFront(front: string, rest: string)
    requires NoBrace(front)
    ensures Pieces(front + rest) == Literals(front) + Pieces(rest)
  {
    if front == [] {
      assert front + rest == rest && Literals(front) == [];
    } else {
      LiteralFirst(front + rest);
      assert (front + rest)[1..] == front[1..] + rest;
      LiteralsFirst(front);
      hide Pieces, Literals;
      BracelessFront(front[1..], rest);
      Regroup([Literal(front[0])], Literals(front[1..]), Pieces(rest));
    }
  }

  lemma LiteralFirst(text: string)
    requires text != [] && text[0] != '{'
    ensures Pieces(text) == [Literal(text[0])] + Pieces(text[1..])
  {
  }

  lemma LiteralsFirst(text: string)
    requires text != []
    ensures Literals(text) == [Literal(text[0])] + Literals(text[1..])
  {
  }

  predicate ValidName(name: string) {
    name != [] && NameStart(name[0]) && forall i :: 0 <= i < |name| ==> NameChar(name[i])
  }

  function Braced(name: string): string {
    ['{', '{'] + name + ['}', '}']
  }

  lemma {:induction false} NameRunIs(name: string)
    requires forall i :: 0 <= i < |name| ==> NameChar(name[i])
    ensures NameRun(name + ['}', '}']) == |name|
  {
    var text := name + ['}', '}'];
    if name != [] {
      assert text[1..] == name[1..] + ['}', '}'];
      NameRunIs(name[1..]);
    } else {
      assert text[0] == '}';
    }
  }

  lemma NotSpace(text: string)
    requires text != [] && (NameStart(text[0]) || text[0] == '}')
    ensures Spaces(text) == 0
  {
  }

  lemma BracedIsHole(name: string)
    requires ValidName(name)
    ensures HoleAtStart(Braced(name)) == Some(Hole(name, |name| + 4))
  {
    var text := Braced(name);
    var inner := name + ['}', '}'];
    assert text[2..] == inner;
    NotSpace(inner);
    NameRunIs(name);
    var b := 2 + |name|;
    assert text[b..] == ['}', '}'];
    NotSpace(text[b..]);
    hide Spaces, NameRun, NameStart, NameChar;
    assert text[2] == name[0];
    assert text[2..b] == name;
  }

  /** A braced name is one placeholder. */
  lemma BracedPieces(name: string)
    requires ValidName(name)
    ensures Pieces(Braced(name)) == [Placeholder(name)]
  {
    BracedIsHole(name);
    hide HoleAtStart;
    assert Braced(name)[|name| + 4..] == [];
  }

  lemma {:induction false} RenderConcat(a: seq<Piece>, b: seq<Piece>, variables: map<string, string>, secrets: map<string, string>, strict: bool)
    requires RenderPieces(a, variables, secrets, strict).Ok? && RenderPieces(b, variables, secrets, strict).Ok?
    ensures RenderPieces(a + b, variables, secrets, strict)
         == Ok(RenderPieces(a, variables, secrets, strict).value + RenderPieces(b, variables, secrets, strict).value)
  {
    if a == [] {
      var text := RenderPieces(b, variables, secrets, strict).value;
      assert a + b == b && [] + text == text;
    } else {
      assert (a + b)[1..] == a[1..] + b;
      RenderConcat(a[1..], b, variables, secrets, strict);
      Regroup(PieceText(a[0], variables, secrets, strict).value, RenderPieces(a[1..], variables, secrets, strict).value,
              RenderPieces(b, variables, secrets, strict).value);
    }
  }

  function SecretTemplate(key: string): string {
    Braced(SECRET_PREFIX + key)
  }

  /** A template made of brace-free text and one secret renders to that text and the secret's value. */
  lemma SecretTemplateRenders(front: string, key: string, variables: map<string, string>, secrets: map<string, string>, strict: bool)
    requires NoBrace(front) && ValidName(SECRET_PREFIX + key) && key in secrets
    ensures Render(front + SecretTemplate(key), variables, secrets, strict) == Ok(front + secrets[key])
  {
    var name := SECRET_PREFIX + key;
    BracelessFront(front, SecretTemplate(key));
    BracedPieces(name);
    LiteralsRender(front, variables, secrets, strict);
    KeyOfPrefixed(key);
    hide Pieces, Literals, ValidName;
    OnePiece(Placeholder(name), variables, secrets, strict);
    RenderConcat(Literals(front), [Placeholder(name)], variables, secrets, strict);
  }

  lemma KeyOfPrefixed(key: string)
    ensures IsSecretName(SECRET_PREFIX + key) && SecretKey(SECRET_PREFIX + key) == key
  {
  }

  lemma OnePiece(p: Piece, variables: map<string, string>, secrets: map<string, string>, strict: bool)
    requires PieceText(p, variables, secrets, strict).Ok?
    ensures RenderPieces([p], variables, secrets, strict) == PieceText(p, variables, secrets, strict)
  {
    assert [p][1..] == [];
    assert PieceText(p, variables, secrets, strict).value + [] == PieceText(p, variables, secrets, strict).value;
  }

  // ----- any placeholder, in front of any text -----

  predicate AllSpace(s: string) {
    forall i :: 0 <= i < |s| ==> IsSpace(s[i])
  }

  /** A letter or underscore, then letters, digits, underscores, dots and hyphens. */
  predicate PlaceholderName(name: string) {
    && name != [] && (IsLetter(name[0]) || name[0] == '_')
    && forall c <- name :: IsLetter(c) || '0' <= c <= '9' || c in "_.-"
  }

  lemma PlaceholderNames(name: string)
    ensures PlaceholderName(name) <==> ValidName(name)
  {
    assert "_.-"[0] == '_' && "_.-"[1] == '.' && "_.-"[2] == '-';
    if PlaceholderName(name) {
      forall i | 0 <= i < |name| ensures NameChar(name[i]) {
        assert name[i] in name;
      }
    }
  }

  /** A placeholder as it may be written, with white space inside the braces. */
  function Spaced(before: string, name: string, behind: string): string {
    ['{', '{'] + (before + (name + (behind + ['}', '}'])))
  }

  lemma {:induction false} SpacesAre(space: string, rest: string)
    requires AllSpace(space) && (rest == [] || !IsSpace(rest[0]))
    ensures Spaces(space + rest) == |space|
  {
    if space == [] {
      assert space + rest == rest;
    } else {
      assert (space + rest)[1..] == space[1..] + rest;
      SpacesAre(space[1..], rest);
    }
  }

  lemma {:induction false} NameRunBefore(name: string, rest: string)
    requires (forall i :: 0 <= i < |name| ==> NameChar(name[i])) && (rest == [] || !NameChar(rest[0]))
    ensures NameRun(name + rest) == |name|
  {
    if name == [] {
      assert name + rest == rest;
    } else {
      assert (name + rest)[1..] == name[1..] + rest;
      NameRunBefore(name[1..], rest);
    }
  }

  lemma NameIsNoSpace(c: char)
    ensures NameChar(c) ==> !IsSpace(c)
    ensures !IsSpace('}') && !NameChar('}')
  {
  }

  /** The text behind the braces, the white space, and the name. */
  lemma SpacedParts(before: string, name: string, behind: string, rest: string)
    ensures var text, end := Spaced(before, name, behind) + rest, ['}', '}'] + rest;
      var a, b := 2 + |before|, 2 + |before| + |name|;
      && |text| == b + |behind| + |end| && |Spaced(before, name, behind)| == b + |behind| + 2
      && text[0] == '{' && text[1] == '{' && text[2..] == before + (name + (behind + end))
      && text[a..] == name + (behind + end) && text[b..] == behind + end && text[a..b] == name
      && text[b + |behind|] == '}' && text[b + |behind| + 1] == '}'
  {
  }

  lemma SpacedIsHole(before: string, name: string, behind: string, rest: string)
    requires AllSpace(before) && ValidName(name) && AllSpace(behind)
    ensures HoleAtStart(Spaced(before, name, behind) + rest) == Some(Hole(name, |Spaced(before, name, behind)|))
  {
    hide Spaces, NameRun, NameStart, NameChar, IsSpace, Spaced, AllSpace, ValidName;
    var end := ['}', '}'] + rest;
    var text := Spaced(before, name, behind) + rest;
    SpacedParts(before, name, behind, rest);
    NameFits(name, behind, end);
    FirstOf(text, 2 + |before|, name, behind + end);
    SpacesAre(before, name + (behind + end));
    NameRunBefore(name, behind + end);
    SpacesAre(behind, end);
  }

  lemma FirstOf(text: string, a: nat, name: string, rest: string)
    requires a <= |text| && name != [] && text[a..] == name + rest
    ensures a < |text| && text[a] == name[0]
  {
    assert text[a..][0] == name[0];
  }

  lemma NameFits(name: string, behind: string, end: string)
    requires ValidName(name) && AllSpace(behind) && end != [] && end[0] == '}'
    ensures name != [] && !IsSpace((name + (behind + end))[0]) && !NameChar((behind + end)[0]) && !IsSpace(end[0])
    ensures name != [] && NameStart(name[0]) && forall i :: 0 <= i < |name| ==> NameChar(name[i])
  {
    NameIsNoSpace(name[0]);
    NameIsNoSpace('}');
    if behind != [] {
      NameIsNoSpace(behind[0]);
      assert (behind + end)[0] == behind[0];
    }
  }

  lemma SpacedPieces(before: string, name: string, behind: string, rest: string)
    requires AllSpace(before) && ValidName(name) && AllSpace(behind)
    ensures Pieces(Spaced(before, name, behind) + rest) == [Placeholder(name)] + Pieces(rest)
  {
    SpacedIsHole(before, name, behind, rest);
    hide HoleAtStart;
    assert (Spaced(before, name, behind) + rest)[|Spaced(before, name, behind)|..] == rest;
  }

  /** What a placeholder stands for: a secret's value, a variable's value, or nothing; a secret that is not
      given is an error in strict rendering. */
  function Value(name: string, variables: map<string, string>, secrets: map<string, string>, strict: bool): Rendered {
    if "secrets." <= name then
      if name[8..] in secrets then Ok(secrets[name[8..]]) else if strict then Err(name[8..]) else Ok("")
    else if name in variables then Ok(variables[name]) else Ok("")
  }

  lemma {:induction false} RenderFront(front: string, ps: seq<Piece>, variables: map<string, string>, secrets: map<string, string>, strict: bool)
    ensures RenderPieces(Literals(front) + ps, variables, secrets, strict)
         == match RenderPieces(ps, variables, secrets, strict)
            case Err(key) => Err(key)
            case Ok(text) => Ok(front + text)
  {
    if front == [] {
      assert Literals(front) + ps == ps;
      if RenderPieces(ps, variables, secrets, strict).Ok? {
        assert [] + RenderPieces(ps, variables, secrets, strict).value == RenderPieces(ps, variables, secrets, strict).value;
      }
    } else {
      LiteralsFirst(front);
      hide Literals;
      assert (Literals(front) + ps)[1..] == Literals(front[1..]) + ps && (Literals(front) + ps)[0] == Literal(front[0]);
      RenderFront(front[1..], ps, variables, secrets, strict);
      if RenderPieces(ps, variables, secrets, strict).Ok? {
        assert [front[0]] + (front[1..] + RenderPieces(ps, variables, secrets, strict).value)
            == front + RenderPieces(ps, variables, secrets, strict).value;
      }
    }
  }

  /** Rendering goes through a template from left to right: the text in front of the first placeholder
      stays, the placeholder gives its value, and the rest is rendered; the first missing secret stops it. */
  lemma PlaceholderRenders(front: string, before: string, name: string, behind: string, rest: string,
                           variables: map<string, string>, secrets: map<string, string>, strict: bool)
    requires NoBrace(front) && AllSpace(before) && PlaceholderName(name) && AllSpace(behind)
    ensures Render(front + (Spaced(before, name, behind) + rest), variables, secrets, strict)
         == match Value(name, variables, secrets, strict)
            case Err(key) => Err(key)
            case Ok(value) =>
              match Render(rest, variables, secrets, strict)
              case Err(key) => Err(key)
              case Ok(text) => Ok(front + (value + text))
  {
    hide Pieces, Spaced, Literals, AllSpace, NoBrace, PlaceholderName, PieceText, Value, RenderPieces;
    PiecesOfTemplate(front, before, name, behind, rest);
    RenderFront(front, [Placeholder(name)] + Pieces(rest), variables, secrets, strict);
    FirstPieceRenders(Placeholder(name), Pieces(rest), variables, secrets, strict);
    PlaceholderValue(name, variables, secrets, strict);
  }

  lemma PiecesOfTemplate(front: string, before: string, name: string, behind: string, rest: string)
    requires NoBrace(front) && AllSpace(before) && PlaceholderName(name) && AllSpace(behind)
    ensures Pieces(front + (Spaced(before, name, behind) + rest)) == Literals(front) + ([Placeholder(name)] + Pieces(rest))
  {
    hide Pieces, Spaced, Literals, AllSpace, NoBrace, ValidName, PlaceholderName;
    PlaceholderNames(name);
    BracelessFront(front, Spaced(before, name, behind) + rest);
    SpacedPieces(before, name, behind, rest);
  }

  lemma FirstPieceRenders(p: Piece, ps: seq<Piece>, variables: map<string, string>, secrets: map<string, string>, strict: bool)
    ensures RenderPieces([p] + ps, variables, secrets, strict)
         == Joined(PieceText(p, variables, secrets, strict), RenderPieces(ps, variables, secrets, strict))
  {
    hide PieceText;
    assert ([p] + ps)[1..] == ps;
  }

  lemma PlaceholderValue(name: string, variables: map<string, string>, secrets: map<string, string>, strict: bool)
    ensures PieceText(Placeholder(name), variables, secrets, strict) == Value(name, variables, secrets, strict)
  {
    assert SECRET_PREFIX == "secrets.";
  }

  lemma {:induction false} SpacesTaken(text: string)
    ensures AllSpace(text[..Spaces(text)]) && (Spaces(text) < |text| ==> !IsSpace(text[Spaces(text)]))
  {
    if text != [] && IsSpace(text[0]) {
      SpacesTaken(text[1..]);
    }
  }

  /** Nothing else is a placeholder: where one is found, it is written like that. */
  lemma HoleMeans(text: string) returns (before: string, behind: string, rest: string)
    requires HoleAtStart(text).Some?
    ensures var h := HoleAtStart(text).value;
      && text == Spaced(before, h.name, behind) + rest && h.length == |Spaced(before, h.name, behind)|
      && AllSpace(before) && PlaceholderName(h.name) && AllSpace(behind)
  {
    hide HoleAtStart, ValidName, PlaceholderName, AllSpace;
    var a, b, c := HoleAt(text);
    PlaceholderNames(text[a..b]);
    before, behind, rest := text[2..a], text[b..c], text[c + 2..];
    PutTogether(text, a, b, c);
  }

  /** Where the name starts and ends, and where the closing braces stand. */
  lemma HoleAt(text: string) returns (a: nat, b: nat, c: nat)
    requires HoleAtStart(text).Some?
    ensures 2 <= a <= b <= c && c + 2 <= |text| && text[0..2] == ['{', '{'] && text[c..c + 2] == ['}', '}']
    ensures HoleAtStart(text).value == Hole(text[a..b], c + 2)
    ensures AllSpace(text[2..a]) && ValidName(text[a..b]) && AllSpace(text[b..c])
  {
    hide Spaces, NameRun, ValidName, NameStart, NameChar, IsSpace;
    a := 2 + Spaces(text[2..]);
    b := a + NameRun(text[a..]);
    c := b + Spaces(text[b..]);
    NameTaken(text, a);
    SpacesTaken(text[2..]);
    SpacesTaken(text[b..]);
    assert text[2..][..a - 2] == text[2..a] && text[b..][..c - b] == text[b..c];
  }

  lemma NameTaken(text: string, a: nat)
    requires a < |text| && NameStart(text[a])
    ensures ValidName(text[a..a + NameRun(text[a..])])
  {
    var n := NameRun(text[a..]);
    assert n > 0;
    assert forall i :: 0 <= i < n ==> text[a..][i] == text[a + i];
  }

  lemma PutTogether(text: string, a: nat, b: nat, c: nat)
    requires 2 <= a <= b <= c && c + 2 <= |text| && text[0..2] == ['{', '{'] && text[c..c + 2] == ['}', '}']
    ensures text == Spaced(text[2..a], text[a..b], text[b..c]) + text[c + 2..]
  {
    assert text == text[0..2] + text[2..a] + text[a..b] + text[b..c] + text[c..c + 2] + text[c + 2..];
  }
}
