/** Node identifiers, kept structured in the model, with the strings the executor builds
    from them. The strings are unique because rendering is injective. */
module NodeIds {
  datatype NodeId =
    | Fixed(name: string)                // "parse", "context", "save", ...
    | Entry(slug: string)                // "agent:<slug>"
    | GatewayOf(slug: string)            // "gateway:<slug>"
    | Step(slug: string, ordinal: nat)   // "agent:<slug>:<i>", added by a manager
    | Rev(base: NodeId, number: nat)     // "<id>:rev<n>", added by quality control

  const FIXED_NAMES: set<string> := {"parse", "context", "save", "request", "select", "files"}

  /** Slugs come from slugify and never hold a colon; fixed names are the ones in the plans. */
  predicate WellFormed(id: NodeId) {
    match id
    case Fixed(name) => name in FIXED_NAMES
    case Entry(slug) => ':' !in slug
    case GatewayOf(slug) => ':' !in slug
    case Step(slug, _) => ':' !in slug
    case Rev(base, _) => WellFormed(base)
  }

  const DIGITS := "0123456789"

  /** Decimal notation without leading zeros. */
  function Decimal(n: nat): (s: string)
    ensures s != [] && ':' !in s && s[0] != 'r'
    ensures forall c <- s :: c in DIGITS
  {
    var last := [DIGITS[n % 10]];
    assert last[0] in DIGITS;
    if n < 10 then last else Decimal(n / 10) + last
  }

  function Render(id: NodeId): string {
    match id
    case Fixed(name) => name
    case Entry(slug) => "agent" + [':'] + slug
    case GatewayOf(slug) => "gateway" + [':'] + slug
    case Step(slug, ordinal) => ("agent" + [':'] + slug) + [':'] + Decimal(ordinal)
    case Rev(base, number) => Render(base) + [':'] + ("rev" + Decimal(number))
  }

  lemma {:induction false} DecimalInjective(m: nat, n: nat)
    requires Decimal(m) == Decimal(n)
    ensures m == n
  {
    var dm, dn := Decimal(m), Decimal(n);
    assert dm[|dm| - 1] == DIGITS[m % 10];
    assert dn[|dn| - 1] == DIGITS[n % 10];
    assert m % 10 == n % 10;
    if m >= 10 && n >= 10 {
      assert Decimal(m / 10) == dm[..|dm| - 1] == dn[..|dn| - 1] == Decimal(n / 10);
      DecimalInjective(m / 10, n / 10);
    }
  }

  /** A string is cut at its last colon in only one way. */
  lemma LastColonUnique(s1: string, t1: string, s2: string, t2: string)
    requires ':' !in t1 && ':' !in t2
    requires s1 + [':'] + t1 == s2 + [':'] + t2
    ensures s1 == s2 && t1 == t2
  {
    var a, b := s1 + [':'] + t1, s2 + [':'] + t2;
    LastColonIsLast(s1, t1);
    LastColonIsLast(s2, t2);
    assert |s1| == |s2|;
    assert a[..|s1|] == s1 && b[..|s1|] == s2;
    assert a[|s1| + 1..] == t1 && b[|s1| + 1..] == t2;
  }

  lemma LastColonIsLast(s: string, t: string)
    requires ':' !in t
    ensures (s + [':'] + t)[|s|] == ':'
    ensures forall k :: |s| < k < |s + [':'] + t| ==> (s + [':'] + t)[k] != ':'
  {
    forall k | |s| < k < |s + [':'] + t| ensures (s + [':'] + t)[k] != ':' {
      assert (s + [':'] + t)[k] == t[k - |s| - 1];
    }
  }

  /** What stands before and after the last colon of a composite identifier. */
  function Stem(id: NodeId): string
    requires !id.Fixed?
  {
    match id
    case Entry(_) => "agent"
    case GatewayOf(_) => "gateway"
    case Step(slug, _) => "agent" + [':'] + slug
    case Rev(base, _) => Render(base)
  }

  function Tail(id: NodeId): string
    requires !id.Fixed?
  {
    match id
    case Entry(slug) => slug
    case GatewayOf(slug) => slug
    case Step(_, ordinal) => Decimal(ordinal)
    case Rev(_, number) => "rev" + Decimal(number)
  }

  lemma FixedNamesPlain(name: string)
    requires name in FIXED_NAMES
    ensures ':' !in name && name != "agent" && name != "gateway"
  {
  }

  lemma CompositeShape(id: NodeId)
    requires WellFormed(id) && !id.Fixed?
    ensures Render(id) == Stem(id) + [':'] + Tail(id)
    ensures ':' !in Tail(id) && ':' in Render(id)
  {
    assert Render(id)[|Stem(id)|] == ':';
  }

  /** No well-formed identifier renders to the bare prefix of an entry node. */
  lemma RenderIsNotAPrefix(id: NodeId)
    requires WellFormed(id)
    ensures Render(id) != "agent" && Render(id) != "gateway"
  {
    if id.Fixed? {
      FixedNamesPlain(id.name);
    } else {
      CompositeShape(id);
    }
  }

  /** Distinct identifiers give distinct strings, however often ":rev<n>" was appended. */
  lemma {:induction false} RenderInjective(a: NodeId, b: NodeId)
    requires WellFormed(a) && WellFormed(b)
    requires Render(a) == Render(b)
    ensures a == b
    decreases a
  {
    if a.Fixed? || b.Fixed? {
      if !a.Fixed? { CompositeShape(a); FixedNamesPlain(b.name); }
      if !b.Fixed? { CompositeShape(b); FixedNamesPlain(a.name); }
    } else {
      CompositeShape(a);
      CompositeShape(b);
      LastColonUnique(Stem(a), Tail(a), Stem(b), Tail(b));
      if a.Rev? && b.Rev? {
        RenderInjective(a.base, b.base);
        assert Tail(a)[3..] == Decimal(a.number) && Tail(b)[3..] == Decimal(b.number);
        DecimalInjective(a.number, b.number);
      } else if a.Rev? || b.Rev? {
        RenderIsNotAPrefix(if a.Rev? then a.base else b.base);
        StemOfStep(a, b);
      } else if a.Step? && b.Step? {
        assert Stem(a)[6..] == a.slug && Stem(b)[6..] == b.slug;
        DecimalInjective(a.ordinal, b.ordinal);
      } else if a.Step? || b.Step? {
        StemOfStep(a, b);
      }
    }
  }

  lemma StemOfStep(a: NodeId, b: NodeId)
    ensures a.Step? ==> |Stem(a)| >= 6 && Stem(a)[5] == ':' && Tail(a)[0] != 'r'
    ensures b.Step? ==> |Stem(b)| >= 6 && Stem(b)[5] == ':' && Tail(b)[0] != 'r'
  {
  }
}
