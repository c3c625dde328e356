/** The composed prompt: its sections, and their order after skills were put in another order. */
module PromptComposition {
  import opened Options
  import opened WhiteSpace
  import opened SkillOrder

  datatype SkillVersion = SkillVersion(
    id: nat, number: nat, published: bool, instructions: string, defaults: map<string, string>, defaultPriority: int)

  /** A skill of the catalogue. */
  datatype Skill = Skill(name: string, slug: string, active: bool, activeVersion: Option<nat>, versions: seq<SkillVersion>)

  datatype ComposedSkill = ComposedSkill(
    name: string, slug: string, version: nat, instructions: string, priority: int, variables: map<string, string>)

  // ----- which skills take part -----

  function PinnedVersion(versions: seq<SkillVersion>, id: nat): Option<SkillVersion> {
    if versions == [] then None
    else if versions[0].id == id && versions[0].published then Some(versions[0])
    else PinnedVersion(versions[1..], id)
  }

  function VersionById(versions: seq<SkillVersion>, id: Option<nat>): Option<SkillVersion> {
    if versions == [] then None
    else if Some(versions[0].id) == id then Some(versions[0])
    else VersionById(versions[1..], id)
  }

  /** What one binding contributes: nothing when it is disabled, or its skill is missing or inactive,
      or the version it follows does not exist. */
  function ResolveOne(b: SkillBinding, catalogue: map<nat, Skill>): Option<ComposedSkill> {
    if !b.enabled || b.skill !in catalogue || !catalogue[b.skill].active then None
    else
      var skill := catalogue[b.skill];
      match (if b.pinned.Some? then PinnedVersion(skill.versions, b.pinned.value)
             else VersionById(skill.versions, skill.activeVersion))
      case None => None
      case Some(v) =>
        Some(ComposedSkill(skill.name, skill.slug, v.number, v.instructions, b.priority, v.defaults + b.variables))
  }

  function Resolve(bs: seq<SkillBinding>, catalogue: map<nat, Skill>): seq<ComposedSkill> {
    if bs == [] then []
    else
      var last := ResolveOne(bs[|bs| - 1], catalogue);
      Resolve(bs[..|bs| - 1], catalogue) + (if last.Some? then [last.value] else [])
  }

  /** Version k is the one a binding follows: the published version it is pinned to, or else the active
      one of its skill. */
  predicate FollowsVersion(b: SkillBinding, s: Skill, k: int) {
    && 0 <= k < |s.versions|
    && (match b.pinned
        case Some(id) => s.versions[k].id == id && s.versions[k].published
        case None => s.activeVersion == Some(s.versions[k].id))
  }

  predicate TakesPart(b: SkillBinding, catalogue: map<nat, Skill>) {
    && b.enabled && b.skill in catalogue && catalogue[b.skill].active
    && exists k :: 0 <= k < |catalogue[b.skill].versions| && FollowsVersion(b, catalogue[b.skill], k)
  }

  /** A variable has the binding's value where it gives one, and the skill's default otherwise. */
  predicate VariablesOf(variables: map<string, string>, given: map<string, string>, defaults: map<string, string>) {
    && variables.Keys == given.Keys + defaults.Keys
    && (forall x :: x in given ==> x in variables && variables[x] == given[x])
    && (forall x :: x in defaults && x !in given ==> x in variables && variables[x] == defaults[x])
  }

  lemma {:induction false} PinnedFollows(versions: seq<SkillVersion>, id: nat)
    ensures PinnedVersion(versions, id).Some? <==> exists k :: 0 <= k < |versions| && versions[k].id == id && versions[k].published
    ensures PinnedVersion(versions, id).Some? ==>
      exists k :: 0 <= k < |versions| && versions[k].id == id && versions[k].published && versions[k] == PinnedVersion(versions, id).value
  {
    if versions != [] && !(versions[0].id == id && versions[0].published) {
      PinnedFollows(versions[1..], id);
      assert forall k :: 0 <= k < |versions| - 1 ==> versions[1..][k] == versions[k + 1];
      if k :| 0 <= k < |versions| && versions[k].id == id && versions[k].published {
        assert versions[1..][k - 1] == versions[k];
      }
    }
  }

  lemma {:induction false} ActiveFollows(versions: seq<SkillVersion>, id: Option<nat>)
    ensures VersionById(versions, id).Some? <==> exists k :: 0 <= k < |versions| && Some(versions[k].id) == id
    ensures VersionById(versions, id).Some? ==>
      exists k :: 0 <= k < |versions| && Some(versions[k].id) == id && versions[k] == VersionById(versions, id).value
  {
    if versions != [] && Some(versions[0].id) != id {
      ActiveFollows(versions[1..], id);
      assert forall k :: 0 <= k < |versions| - 1 ==> versions[1..][k] == versions[k + 1];
      if k :| 0 <= k < |versions| && Some(versions[k].id) == id {
        assert versions[1..][k - 1] == versions[k];
      }
    }
  }

  /** Which bindings take part, and with what. */
  lemma ResolveMeans(b: SkillBinding, catalogue: map<nat, Skill>)
    ensures ResolveOne(b, catalogue).Some? <==> TakesPart(b, catalogue)
    ensures ResolveOne(b, catalogue).Some? ==>
      var r, s := ResolveOne(b, catalogue).value, catalogue[b.skill];
      && r.name == s.name && r.slug == s.slug && r.priority == b.priority
      && exists k :: 0 <= k < |s.versions| && FollowsVersion(b, s, k)
           && r.version == s.versions[k].number && r.instructions == s.versions[k].instructions
           && VariablesOf(r.variables, b.variables, s.versions[k].defaults)
  {
    if b.skill in catalogue {
      var s := catalogue[b.skill];
      if b.pinned.Some? {
        PinnedFollows(s.versions, b.pinned.value);
        if k :| 0 <= k < |s.versions| && s.versions[k].id == b.pinned.value && s.versions[k].published
                && Some(s.versions[k]) == PinnedVersion(s.versions, b.pinned.value) {
          assert FollowsVersion(b, s, k);
        }
      } else {
        ActiveFollows(s.versions, s.activeVersion);
        if k :| 0 <= k < |s.versions| && Some(s.versions[k].id) == s.activeVersion
                && Some(s.versions[k]) == VersionById(s.versions, s.activeVersion) {
          assert FollowsVersion(b, s, k);
        }
      }
    }
  }

  // ----- the order of skills in the prompt -----

  /** Strings compare by their first differing character; a proper prefix comes first. */
  predicate TextBefore(a: string, b: string) {
    b != [] && (a == [] || a[0] < b[0] || (a[0] == b[0] && TextBefore(a[1..], b[1..])))
  }

  lemma {:induction false} TextOrderIsTotal(a: string, b: string)
    ensures a == b || TextBefore(a, b) || TextBefore(b, a)
    ensures !(TextBefore(a, b) && TextBefore(b, a)) && !TextBefore(a, a)
  {
    if a != [] && b != [] {
      TextOrderIsTotal(a[1..], b[1..]);
      assert a == [a[0]] + a[1..] && b == [b[0]] + b[1..];
    }
    if a != [] {
      TextOrderIsTotal(a[1..], a[1..]);
    }
  }

  lemma {:induction false} TextOrderIsTransitive(a: string, b: string, c: string)
    requires TextBefore(a, b) && TextBefore(b, c)
    ensures TextBefore(a, c)
  {
    if a != [] && a[0] == b[0] == c[0] {
      TextOrderIsTransitive(a[1..], b[1..], c[1..]);
    }
  }

  /** The sort key (priority, slug). */
  predicate Before(a: ComposedSkill, b: ComposedSkill) {
    a.priority < b.priority || (a.priority == b.priority && TextBefore(a.slug, b.slug))
  }

  function Place(sorted: seq<ComposedSkill>, s: ComposedSkill): seq<ComposedSkill> {
    if sorted == [] || !Before(s, sorted[|sorted| - 1]) then sorted + [s]
    else Place(sorted[..|sorted| - 1], s) + [sorted[|sorted| - 1]]
  }

  function ByKey(skills: seq<ComposedSkill>): seq<ComposedSkill> {
    if skills == [] then [] else Place(ByKey(skills[..|skills| - 1]), skills[|skills| - 1])
  }

  /** Every skill comes strictly before all behind it. */
  predicate Ascending(skills: seq<ComposedSkill>) {
    forall i, j :: 0 <= i < j < |skills| ==> Before(skills[i], skills[j])
  }

  predicate KeysDiffer(skills: seq<ComposedSkill>) {
    forall i, j :: 0 <= i < j < |skills| ==> skills[i].priority != skills[j].priority || skills[i].slug != skills[j].slug
  }

  lemma BeforeIsTransitive(a: ComposedSkill, b: ComposedSkill, c: ComposedSkill)
    requires Before(a, b) && Before(b, c)
    ensures Before(a, c)
  {
    if a.priority == b.priority == c.priority {
      TextOrderIsTransitive(a.slug, b.slug, c.slug);
    }
  }

  lemma AppendAfter(skills: seq<ComposedSkill>, s: ComposedSkill)
    requires Ascending(skills) && forall x :: x in skills ==> Before(x, s)
    ensures Ascending(skills + [s])
  {
    forall i | 0 <= i < |skills| ensures Before(skills[i], s) {
      assert skills[i] in skills;
    }
  }

  lemma {:induction false} PlaceMembers(sorted: seq<ComposedSkill>, s: ComposedSkill)
    ensures forall x :: x in Place(sorted, s) <==> x in sorted || x == s
  {
    if sorted != [] {
      assert sorted == sorted[..|sorted| - 1] + [sorted[|sorted| - 1]];
      PlaceMembers(sorted[..|sorted| - 1], s);
    }
  }

  lemma {:induction false} PlaceAscends(sorted: seq<ComposedSkill>, s: ComposedSkill)
    requires Ascending(sorted)
    requires forall x :: x in sorted ==> x.priority != s.priority || x.slug != s.slug
    ensures Ascending(Place(sorted, s))
  {
    if sorted != [] {
      var front, last := sorted[..|sorted| - 1], sorted[|sorted| - 1];
      assert sorted == front + [last] && last in sorted;
      TextOrderIsTotal(s.slug, last.slug);
      if Before(s, last) {
        PlaceAscends(front, s);
        PlaceMembers(front, s);
        forall x | x in Place(front, s) ensures Before(x, last) {
          if x != s {
            var i :| 0 <= i < |front| && front[i] == x;
            assert sorted[i] == x && sorted[|sorted| - 1] == last;
          }
        }
        AppendAfter(Place(front, s), last);
      } else {
        forall x | x in sorted ensures Before(x, s) {
          if x != last {
            var i :| 0 <= i < |front| && front[i] == x;
            assert sorted[i] == x && sorted[|sorted| - 1] == last;
            BeforeIsTransitive(x, last, s);
          }
        }
        AppendAfter(sorted, s);
      }
    }
  }

  lemma {:induction false} ByKeyMembers(skills: seq<ComposedSkill>)
    ensures forall x :: x in ByKey(skills) <==> x in skills
  {
    if skills != [] {
      var front, last := skills[..|skills| - 1], skills[|skills| - 1];
      assert skills == front + [last];
      ByKeyMembers(front);
      PlaceMembers(ByKey(front), last);
    }
  }

  lemma {:induction false} ByKeyAscends(skills: seq<ComposedSkill>)
    requires KeysDiffer(skills)
    ensures Ascending(ByKey(skills))
  {
    if skills != [] {
      var front, last := skills[..|skills| - 1], skills[|skills| - 1];
      ByKeyAscends(front);
      ByKeyMembers(front);
      forall x | x in ByKey(front) ensures x.priority != last.priority || x.slug != last.slug {
        var i :| 0 <= i < |front| && front[i] == x;
        assert skills[i] == x && skills[|skills| - 1] == last;
      }
      PlaceAscends(ByKey(front), last);
    }
  }

  lemma LastIsLatest(a: seq<ComposedSkill>, x: ComposedSkill)
    requires Ascending(a) && x in a
    ensures x == a[|a| - 1] || Before(x, a[|a| - 1])
  {
    var i :| 0 <= i < |a| && a[i] == x;
    if i < |a| - 1 {
      assert Before(a[i], a[|a| - 1]);
    }
  }

  lemma NotBeforeBoth(a: ComposedSkill, b: ComposedSkill)
    ensures !(Before(a, b) && Before(b, a)) && !Before(a, a)
  {
    TextOrderIsTotal(a.slug, b.slug);
    TextOrderIsTotal(a.slug, a.slug);
  }

  lemma FrontMembers(a: seq<ComposedSkill>, x: ComposedSkill)
    requires Ascending(a) && a != []
    ensures x in a[..|a| - 1] <==> x in a && x != a[|a| - 1]
  {
    assert a == a[..|a| - 1] + [a[|a| - 1]];
    if x in a[..|a| - 1] {
      var i :| 0 <= i < |a| - 1 && a[i] == x;
      assert Before(a[i], a[|a| - 1]);
      NotBeforeBoth(x, x);
    }
  }

  lemma Inhabited(skills: seq<ComposedSkill>)
    ensures skills == [] || exists x :: x in skills
  {
    if skills != [] {
      assert skills[0] in skills;
    }
  }

  /** A set of skills has one ascending order. */
  lemma {:induction false} AscendingIsUnique(a: seq<ComposedSkill>, b: seq<ComposedSkill>)
    requires Ascending(a) && Ascending(b) && forall x :: x in a <==> x in b
    ensures a == b
  {
    Inhabited(b);
    if a != [] {
      assert a[0] in a && b != [];
      var x, y := a[|a| - 1], b[|b| - 1];
      assert x in a && y in b;
      LastIsLatest(a, y);
      LastIsLatest(b, x);
      NotBeforeBoth(x, y);
      assert x == y;
      var frontA, frontB := a[..|a| - 1], b[..|b| - 1];
      forall z ensures z in frontA <==> z in frontB {
        FrontMembers(a, z);
        FrontMembers(b, z);
      }
      AscendingIsUnique(frontA, frontB);
    }
  }

  /** The prompt does not depend on the order in which the bindings were loaded. */
  lemma OrderOfLoadingIsIrrelevant(a: seq<ComposedSkill>, b: seq<ComposedSkill>)
    requires KeysDiffer(a) && KeysDiffer(b) && forall x :: x in a <==> x in b
    ensures ByKey(a) == ByKey(b)
  {
    ByKeyAscends(a);
    ByKeyAscends(b);
    ByKeyMembers(a);
    ByKeyMembers(b);
    AscendingIsUnique(ByKey(a), ByKey(b));
  }

  // ----- the sections -----

  datatype Section =
    | PlatformRules | OrganizationRules | AgentInstructions | SkillSection(slug: string, version: nat)
    | BrandConfiguration | WorkspaceRules | ProjectRules | ContextSummary | UserRequest

  datatype CompositionInput = CompositionInput(
    organizationRules: Option<string>, skills: seq<ComposedSkill>, brandSummary: Option<string>,
    workspaceRules: Option<string>, projectRules: seq<string>, contextSummary: Option<string>, userRequest: Option<string>)

  predicate Given(s: Option<string>) {
    s.Some? && !Blank(s.value)
  }

  function SkillSections(skills: seq<ComposedSkill>): (r: seq<Section>)
    ensures |r| == |skills| && forall i :: 0 <= i < |r| ==> r[i] == SkillSection(skills[i].slug, skills[i].version)
  {
    seq(|skills|, i requires 0 <= i < |skills| => SkillSection(skills[i].slug, skills[i].version))
  }

  function When(given: bool, s: Section): seq<Section> {
    if given then [s] else []
  }

  function Opening(inp: CompositionInput): seq<Section> {
    [PlatformRules] + When(Given(inp.organizationRules), OrganizationRules) + [AgentInstructions]
  }

  function Closing(inp: CompositionInput): seq<Section> {
    When(Given(inp.brandSummary), BrandConfiguration) + When(Given(inp.workspaceRules), WorkspaceRules)
    + When(SomeRule(inp.projectRules), ProjectRules)
    + When(Given(inp.contextSummary), ContextSummary) + When(Given(inp.userRequest), UserRequest)
  }

  /** Where a section stands in every prompt. All skills stand in one place. */
  function PlaceOf(s: Section): nat {
    match s
    case PlatformRules => 0
    case OrganizationRules => 1
    case AgentInstructions => 2
    case SkillSection(_, _) => 3
    case BrandConfiguration => 4
    case WorkspaceRules => 5
    case ProjectRules => 6
    case ContextSummary => 7
    case UserRequest => 8
  }

  predicate InPlace(parts: seq<Section>) {
    forall i, j :: 0 <= i < j < |parts| ==>
      PlaceOf(parts[i]) < PlaceOf(parts[j]) || (parts[i].SkillSection? && parts[j].SkillSection?)
  }

  predicate Within(parts: seq<Section>, low: nat, high: nat) {
    forall p <- parts :: low <= PlaceOf(p) <= high
  }

  lemma JoinInPlace(a: seq<Section>, b: seq<Section>, low: nat, k: nat, high: nat)
    requires InPlace(a) && InPlace(b) && Within(a, low, k) && Within(b, k + 1, high) && low <= k <= high
    ensures InPlace(a + b) && Within(a + b, low, high)
  {
    hide PlaceOf;
    forall i, j | 0 <= i < |a| <= j < |a + b| ensures PlaceOf((a + b)[i]) < PlaceOf((a + b)[j]) {
      assert a[i] in a && b[j - |a|] in b;
    }
  }

  lemma OneInPlace(given: bool, s: Section)
    ensures InPlace(When(given, s)) && Within(When(given, s), PlaceOf(s), PlaceOf(s))
    ensures forall x :: x in When(given, s) <==> given && x == s
  {
  }

  lemma OpeningInPlace(inp: CompositionInput)
    ensures InPlace(Opening(inp)) && Within(Opening(inp), 0, 2)
  {
    OneInPlace(true, PlatformRules);
    OneInPlace(Given(inp.organizationRules), OrganizationRules);
    OneInPlace(true, AgentInstructions);
    hide InPlace, Within, Given;
    JoinInPlace([PlatformRules], When(Given(inp.organizationRules), OrganizationRules), 0, 0, 1);
    JoinInPlace([PlatformRules] + When(Given(inp.organizationRules), OrganizationRules), [AgentInstructions], 0, 1, 2);
  }

  predicate SomeRule(rules: seq<string>) {
    exists i :: 0 <= i < |rules| && !Blank(rules[i])
  }

  lemma ClosingInPlace(inp: CompositionInput)
    ensures InPlace(Closing(inp)) && Within(Closing(inp), 4, 8)
  {
    var brand, work, rules, context, request := When(Given(inp.brandSummary), BrandConfiguration),
      When(Given(inp.workspaceRules), WorkspaceRules), When(SomeRule(inp.projectRules), ProjectRules),
      When(Given(inp.contextSummary), ContextSummary), When(Given(inp.userRequest), UserRequest);
    OneInPlace(Given(inp.brandSummary), BrandConfiguration);
    OneInPlace(Given(inp.workspaceRules), WorkspaceRules);
    OneInPlace(SomeRule(inp.projectRules), ProjectRules);
    OneInPlace(Given(inp.contextSummary), ContextSummary);
    OneInPlace(Given(inp.userRequest), UserRequest);
    hide InPlace, Within, Given, SomeRule, When;
    JoinInPlace(brand, work, 4, 4, 5);
    JoinInPlace(brand + work, rules, 4, 5, 6);
    JoinInPlace(brand + work + rules, context, 4, 6, 7);
    JoinInPlace(brand + work + rules + context, request, 4, 7, 8);
  }

  lemma SkillsInPlace(skills: seq<ComposedSkill>)
    ensures InPlace(SkillSections(skills)) && Within(SkillSections(skills), 3, 3)
  {
  }

  /** A text is there that is not all white space. */
  predicate SomeText(text: Option<string>) {
    text.Some? && exists i :: 0 <= i < |text.value| && !IsSpace(text.value[i])
  }

  /** Every prompt has its sections in the one order; the platform's rules and the agent's instructions are
      always there, and every other section exactly when there is a text for it. */
  lemma SectionsMean(inp: CompositionInput, parts: seq<Section>)
    requires parts == Opening(inp) + SkillSections(ByKey(inp.skills)) + Closing(inp)
    ensures InPlace(parts) && PlatformRules in parts && AgentInstructions in parts
    ensures OrganizationRules in parts <==> SomeText(inp.organizationRules)
    ensures forall slug, version :: SkillSection(slug, version) in parts <==>
      exists s <- inp.skills :: s.slug == slug && s.version == version
    ensures BrandConfiguration in parts <==> SomeText(inp.brandSummary)
    ensures WorkspaceRules in parts <==> SomeText(inp.workspaceRules)
    ensures ProjectRules in parts <==> exists r <- inp.projectRules :: SomeText(Some(r))
    ensures ContextSummary in parts <==> SomeText(inp.contextSummary)
    ensures UserRequest in parts <==> SomeText(inp.userRequest)
  {
    hide InPlace, IsSpace, ByKey, SomeRule, PlaceOf, Opening, Closing, SkillSections;
    SectionsInPlace(inp);
    OpeningHolds(inp);
    ClosingHolds(inp);
    SkillsListed(inp.skills);
    SomeRuleIs(inp.projectRules);
  }

  lemma OpeningHolds(inp: CompositionInput)
    ensures forall x :: x in Opening(inp) <==>
      x == PlatformRules || x == AgentInstructions || (x == OrganizationRules && Given(inp.organizationRules))
  {
    hide Given;
  }

  lemma ClosingHolds(inp: CompositionInput)
    ensures forall x :: x in Closing(inp) <==>
      (x == BrandConfiguration && Given(inp.brandSummary)) || (x == WorkspaceRules && Given(inp.workspaceRules))
      || (x == ProjectRules && SomeRule(inp.projectRules)) || (x == ContextSummary && Given(inp.contextSummary))
      || (x == UserRequest && Given(inp.userRequest))
  {
    hide Given, SomeRule;
  }

  lemma SectionsInPlace(inp: CompositionInput)
    ensures InPlace(Opening(inp) + SkillSections(ByKey(inp.skills)) + Closing(inp))
  {
    OpeningInPlace(inp);
    SkillsInPlace(ByKey(inp.skills));
    ClosingInPlace(inp);
    hide InPlace, Within, Opening, Closing, SkillSections, ByKey;
    JoinInPlace(Opening(inp), SkillSections(ByKey(inp.skills)), 0, 2, 3);
    JoinInPlace(Opening(inp) + SkillSections(ByKey(inp.skills)), Closing(inp), 0, 3, 8);
  }

  lemma SomeRuleIs(rules: seq<string>)
    ensures SomeRule(rules) <==> exists r <- rules :: SomeText(Some(r))
  {
    hide IsSpace;
    if i :| 0 <= i < |rules| && !Blank(rules[i]) {
      assert rules[i] in rules && SomeText(Some(rules[i]));
    }
  }

  lemma SkillsListed(skills: seq<ComposedSkill>)
    ensures forall x <- SkillSections(ByKey(skills)) :: x.SkillSection?
    ensures forall slug, version :: SkillSection(slug, version) in SkillSections(ByKey(skills)) <==>
      exists s <- skills :: s.slug == slug && s.version == version
  {
    ByKeyMembers(skills);
    hide ByKey;
    var sorted := ByKey(skills);
    forall s | s in skills ensures SkillSection(s.slug, s.version) in SkillSections(sorted) {
      var i :| 0 <= i < |sorted| && sorted[i] == s;
      assert SkillSections(sorted)[i] == SkillSection(s.slug, s.version);
    }
    forall slug, version | SkillSection(slug, version) in SkillSections(sorted)
      ensures exists s <- skills :: s.slug == slug && s.version == version
    {
      var i :| 0 <= i < |sorted| && SkillSections(sorted)[i] == SkillSection(slug, version);
      assert sorted[i] in sorted;
    }
  }

  /** Rules and instructions, then the skills by priority, then workspace and project rules, the
      task's context and the request. */
  method Compose(inp: CompositionInput) returns (parts: seq<Section>)
    ensures parts == Opening(inp) + SkillSections(ByKey(inp.skills)) + Closing(inp)
  {
    hide Given, Blank, ByKey, Closing, SomeRule;
    parts := [PlatformRules];
    if Given(inp.organizationRules) {
      parts := parts + [OrganizationRules];
    }
    parts := parts + [AgentInstructions];
    parts := AddSkills(parts, ByKey(inp.skills));
    parts := AddClosing(parts, inp);
  }

  method AddSkills(head: seq<Section>, sorted: seq<ComposedSkill>) returns (parts: seq<Section>)
    ensures parts == head + SkillSections(sorted)
  {
    parts := head;
    for i := 0 to |sorted|
      invariant parts == head + SkillSections(sorted[..i])
    {
      assert SkillSections(sorted[..i + 1]) == SkillSections(sorted[..i]) + [SkillSection(sorted[i].slug, sorted[i].version)];
      parts := parts + [SkillSection(sorted[i].slug, sorted[i].version)];
    }
    assert sorted[..|sorted|] == sorted;
  }

  method AddClosing(head: seq<Section>, inp: CompositionInput) returns (parts: seq<Section>)
    ensures parts == head + Closing(inp)
  {
    hide Given, Blank, SomeRule;
    var active := ActiveRules(inp.projectRules);
    var tail := [];
    if Given(inp.brandSummary) {
      tail := tail + [BrandConfiguration];
    }
    if Given(inp.workspaceRules) {
      tail := tail + [WorkspaceRules];
    }
    assert tail == When(Given(inp.brandSummary), BrandConfiguration) + When(Given(inp.workspaceRules), WorkspaceRules);
    ghost var soFar := tail;
    if active != [] {
      tail := tail + [ProjectRules];
    }
    if Given(inp.contextSummary) {
      tail := tail + [ContextSummary];
    }
    if Given(inp.userRequest) {
      tail := tail + [UserRequest];
    }
    assert tail == soFar + When(SomeRule(inp.projectRules), ProjectRules) + When(Given(inp.contextSummary), ContextSummary)
      + When(Given(inp.userRequest), UserRequest);
    parts := head + tail;
  }

  method ActiveRules(rules: seq<string>) returns (active: seq<string>)
    ensures active != [] <==> SomeRule(rules)
  {
    active := [];
    for i := 0 to |rules|
      invariant active != [] <==> exists j :: 0 <= j < i && !Blank(rules[j])
    {
      if !Blank(rules[i]) {
        active := active + [rules[i]];
      }
    }
  }

  // ----- reordering, then composing -----

  /** The binding of a skill. */
  function BindingOf(bs: seq<SkillBinding>, id: nat): Option<SkillBinding> {
    if bs == [] then None
    else if bs[|bs| - 1].skill == id then Some(bs[|bs| - 1])
    else BindingOf(bs[..|bs| - 1], id)
  }

  /** The composed skills of a list of ids, in that order. */
  function InOrder(bs: seq<SkillBinding>, catalogue: map<nat, Skill>, order: seq<nat>): seq<ComposedSkill> {
    if order == [] then []
    else
      var b := BindingOf(bs, order[|order| - 1]);
      var last := if b.Some? then ResolveOne(b.value, catalogue) else None;
      InOrder(bs, catalogue, order[..|order| - 1]) + (if last.Some? then [last.value] else [])
  }

  lemma {:induction false} BindingIs(bs: seq<SkillBinding>, i: nat)
    requires SkillsUnique(bs) && i < |bs|
    ensures BindingOf(bs, bs[i].skill) == Some(bs[i])
  {
    if i < |bs| - 1 {
      assert bs[i].skill != bs[|bs| - 1].skill;
      BindingIs(bs[..|bs| - 1], i);
    }
  }

  lemma {:induction false} BindingGives(bs: seq<SkillBinding>, id: nat)
    ensures BindingOf(bs, id).Some? ==> BindingOf(bs, id).value in bs && BindingOf(bs, id).value.skill == id
  {
    if bs != [] && bs[|bs| - 1].skill != id {
      BindingGives(bs[..|bs| - 1], id);
    }
  }

  lemma {:induction false} ResolvedMembers(bs: seq<SkillBinding>, catalogue: map<nat, Skill>)
    ensures forall x :: x in Resolve(bs, catalogue) <==> exists b :: b in bs && ResolveOne(b, catalogue) == Some(x)
  {
    if bs != [] {
      var front, last := bs[..|bs| - 1], bs[|bs| - 1];
      ResolvedMembers(front, catalogue);
      assert bs == front + [last];
      assert last in bs;
    }
  }

  lemma {:induction false} InOrderMembers(bs: seq<SkillBinding>, catalogue: map<nat, Skill>, order: seq<nat>)
    requires SkillsUnique(bs)
    ensures forall x :: x in InOrder(bs, catalogue, order)
              <==> exists b :: b in bs && b.skill in order && ResolveOne(b, catalogue) == Some(x)
  {
    if order != [] {
      var front, id := order[..|order| - 1], order[|order| - 1];
      InOrderMembers(bs, catalogue, front);
      BindingGives(bs, id);
      assert order == front + [id];
      forall x ensures x in InOrder(bs, catalogue, order)
                   <==> exists b :: b in bs && b.skill in order && ResolveOne(b, catalogue) == Some(x) {
        if exists b :: b in bs && b.skill in order && ResolveOne(b, catalogue) == Some(x) {
          var b :| b in bs && b.skill in order && ResolveOne(b, catalogue) == Some(x);
          var i :| 0 <= i < |bs| && bs[i] == b;
          BindingIs(bs, i);
        }
      }
    }
  }

  /** The priorities follow the order strictly. */
  predicate RanksFollow(bs: seq<SkillBinding>, order: seq<nat>) {
    forall b :: b in bs ==> b.priority == 10 * (LastPlace(order, b.skill) + 1)
  }

  lemma LastPlaceIs(order: seq<nat>, k: nat)
    requires Distinct(order) && k < |order|
    ensures LastPlace(order, order[k]) == k
  {
  }

  lemma {:induction false} InOrderAscends(bs: seq<SkillBinding>, catalogue: map<nat, Skill>, order: seq<nat>, n: nat)
    requires RanksFollow(bs, order) && Distinct(order) && n <= |order|
    ensures Ascending(InOrder(bs, catalogue, order[..n]))
    ensures forall x :: x in InOrder(bs, catalogue, order[..n]) ==> x.priority <= 10 * n
  {
    if n > 0 {
      InOrderAscends(bs, catalogue, order, n - 1);
      assert order[..n][..n - 1] == order[..n - 1] && order[..n][n - 1] == order[n - 1];
      BindingGives(bs, order[n - 1]);
      LastPlaceIs(order, n - 1);
      var b := BindingOf(bs, order[n - 1]);
      var last := if b.Some? then ResolveOne(b.value, catalogue) else None;
      if last.Some? {
        assert last.value.priority == 10 * n;
        AppendAfter(InOrder(bs, catalogue, order[..n - 1]), last.value);
      }
    }
  }

  lemma {:induction false} ResolvedKeysDiffer(bs: seq<SkillBinding>, catalogue: map<nat, Skill>)
    requires forall i, j :: 0 <= i < j < |bs| ==> bs[i].priority != bs[j].priority
    ensures KeysDiffer(Resolve(bs, catalogue))
  {
    if bs != [] {
      var front, last := bs[..|bs| - 1], bs[|bs| - 1];
      ResolvedKeysDiffer(front, catalogue);
      ResolvedMembers(front, catalogue);
      forall x | x in Resolve(front, catalogue) ensures x.priority != last.priority {
        var b :| b in front && ResolveOne(b, catalogue) == Some(x);
        var i :| 0 <= i < |front| && front[i] == b;
        assert bs[i].priority != bs[|bs| - 1].priority;
      }
    }
  }

  lemma RankedFollow(bs: seq<SkillBinding>, now: seq<SkillBinding>, order: seq<nat>)
    requires Ranked(bs, now, order) && Set(order) == Set(Skills(bs)) && SkillsUnique(bs)
    ensures RanksFollow(now, order) && SkillsUnique(now) && forall b :: b in now ==> b.skill in order
  {
    forall b | b in now ensures b.priority == 10 * (LastPlace(order, b.skill) + 1) && b.skill in order {
      var i :| 0 <= i < |now| && now[i] == b;
      assert Skills(bs)[i] in Set(Skills(bs)) && b.skill in Set(order);
    }
  }

  /** After a reorder that names no skill twice, the prompt lists the skills that take part in exactly
      the wanted order: the requested ones first, the rest behind them by their old priority. */
  lemma PromptFollowsTheRequest(bs: seq<SkillBinding>, ids: seq<nat>, now: seq<SkillBinding>, catalogue: map<nat, Skill>)
    requires SkillsUnique(bs) && AllAttached(bs, ids) && Distinct(ids)
    requires Ranked(bs, now, WantedOrder(bs, ids))
    ensures ByKey(Resolve(now, catalogue)) == InOrder(now, catalogue, WantedOrder(bs, ids))
  {
    var order := WantedOrder(bs, ids);
    PrioritiesAreExact(bs, ids, now);
    WantedNamesAll(bs, ids);
    WantedDistinct(bs, ids);
    hide Ranked, TenToTenN, SkillsUnique, Distinct, Set;
    RankedFollow(bs, now, order) ;
    SortedIsInOrder(now, catalogue, order);
  }

  lemma SortedIsInOrder(bs: seq<SkillBinding>, catalogue: map<nat, Skill>, order: seq<nat>)
    requires RanksFollow(bs, order) && SkillsUnique(bs) && Distinct(order) && TenToTenN(bs)
    requires forall b :: b in bs ==> b.skill in order
    ensures ByKey(Resolve(bs, catalogue)) == InOrder(bs, catalogue, order)
  {
    var resolved, wanted := Resolve(bs, catalogue), InOrder(bs, catalogue, order);
    ResolvedKeysDiffer(bs, catalogue);
    InOrderAscends(bs, catalogue, order, |order|);
    assert order[..|order|] == order;
    hide RanksFollow, TenToTenN, Distinct, Resolve, InOrder, ByKey, KeysDiffer, Ascending;
    ByKeyAscends(resolved);
    ByKeyMembers(resolved);
    ResolvedMembers(bs, catalogue);
    InOrderMembers(bs, catalogue, order);
    AscendingIsUnique(ByKey(resolved), wanted);
  }
}
