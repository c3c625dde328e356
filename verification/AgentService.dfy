/** The operations on agents, one request after the other. */
module AgentServices {
  import opened Options
  import opened SkillOrder
  import opened WhiteSpace
  import opened PromptComposition
  import opened AgentVersions

  /** What is stored: the agents, and the ids not given to an agent or a version yet. */
  datatype Catalog = Catalog(agents: map<nat, Agent>, next: nat)

  /** What a request does to the draft. Sets and maps say which providers, skills and tools exist. */
  datatype Edit =
    | SetFields(data: VersionInput, providers: set<nat>)
    | SetSkill(skill: nat, catalogue: map<nat, Skill>, pinned: Option<nat>, priority: Option<int>,
               enabled: bool, variables: map<string, string>)
    | UnsetSkill(skill: nat)
    | OrderSkills(ids: seq<nat>)
    | SetTool(tool: nat, tools: set<nat>, binding: ToolBinding)
    | UnsetTool(tool: nat)
    | SetHandoff(target: nat, handoff: Handoff)
    | UnsetHandoff(target: nat)

  datatype Operation =
    | Create(slug: string, command: string, data: VersionInput)
    | Update(id: nat, renamed: Option<string>, status: Option<Status>)
    | EditDraft(id: nat, edit: Edit)
    | Publish(id: nat, versionId: Option<nat>, note: Option<string>, otherwise: bool)
    | Connect(id: nat, isOrigin: bool, keyRefused: bool, text: string)
    /** `chatted` says whether there are runs or messages of the agent, `known` whether there is such a row. */
    | DeleteAgent(id: nat, chatted: bool)
    | DeleteProvider(id: nat, known: bool)
    | DeleteTool(id: nat, known: bool)

  // ----- what each operation does -----

  /** Why an edit is refused, given the draft it would change. */
  function EditRefused(agents: map<nat, Agent>, id: nat, v: Version, e: Edit): Option<ServiceError> {
    match e
    case SetFields(data, providers) => if NamesUnknownProvider(data, providers) then Some(ProviderNotFound) else None
    case SetSkill(skill, catalogue, pinned, _, _, _) =>
      if skill !in catalogue then Some(SkillNotFound)
      else if pinned.Some? && PinnedVersion(catalogue[skill].versions, pinned.value).None? then Some(InvalidSkillVersion)
      else None
    case UnsetSkill(skill) => if BindingOf(v.skills, skill).None? then Some(BindingNotFound) else None
    case OrderSkills(ids) => if AllAttached(v.skills, ids) then None else Some(BindingNotFound)
    case SetTool(tool, tools, _) => if tool in tools then None else Some(ToolNotFound)
    case UnsetTool(tool) => if tool in v.tools then None else Some(BindingNotFound)
    case SetHandoff(target, _) =>
      if target == id then Some(SelfHandoff) else if target !in agents then Some(AgentNotFound) else None
    case UnsetHandoff(target) => if target in v.handoffs then None else Some(HandoffNotFound)
  }

  function EditedVersion(agents: map<nat, Agent>, id: nat, v: Version, e: Edit): Version
    requires EditRefused(agents, id, v, e).None?
  {
    match e
    case SetFields(data, _) => Patched(v, data)
    case SetSkill(skill, catalogue, pinned, priority, enabled, variables) =>
      v.(skills := PutSkill(v.skills, SkillBinding(skill, pinned, Or(priority, DefaultPriority(catalogue[skill])), enabled, variables)))
    case UnsetSkill(skill) => v.(skills := DropSkill(v.skills, skill))
    case OrderSkills(ids) => v.(skills := Reranked(v.skills, WantedOrder(v.skills, ids)))
    case SetTool(tool, _, binding) => v.(tools := v.tools[tool := binding])
    case UnsetTool(tool) => v.(tools := v.tools - {tool})
    case SetHandoff(target, handoff) => v.(handoffs := v.handoffs[target := handoff])
    case UnsetHandoff(target) => v.(handoffs := v.handoffs - {target})
  }

  function ErrorOf(r: Outcome): Option<ServiceError> {
    if r.Err? then Some(r.error) else None
  }

  /** The error of a request, in the order in which the service looks for errors. */
  function Refusal(c: Catalog, op: Operation): Option<ServiceError> {
    match op
    case Create(slug, _, _) => if exists x :: x in c.agents && c.agents[x].slug == slug then Some(SlugTaken) else None
    case Update(id, renamed, status) => ErrorOf(UpdateResult(c.agents, id, renamed, status))
    case EditDraft(id, e) =>
      if id !in c.agents then Some(AgentNotFound) else EditRefused(c.agents, id, DraftFor(c.agents, c.next, id), e)
    case Publish(id, versionId, _, otherwise) => ErrorOf(PublishResult(c.agents, id, versionId, otherwise))
    case Connect(id, isOrigin, keyRefused, _) =>
      if id !in c.agents then Some(AgentNotFound)
      else if keyRefused then Some(InvalidApiKey)
      else if !isOrigin && Taken(c.agents, id, c.agents[id].command) then Some(IndexViolated)
      else None
    case DeleteAgent(id, chatted) => if id !in c.agents then Some(AgentNotFound) else if chatted then Some(AgentInUse) else None
    case DeleteProvider(id, known) =>
      if !known then Some(ProviderNotFound) else if ProviderUsed(c.agents, id) then Some(ProviderInUse) else None
    case DeleteTool(id, known) =>
      if !known then Some(IntegrationNotFound) else if ToolUsed(c.agents, id) then Some(IntegrationInUse) else None
  }

  /** What is stored after a request; a refused one changes nothing. */
  function After(c: Catalog, op: Operation): Catalog {
    if Refusal(c, op).Some? then c
    else
      match op
      case Create(slug, command, data) => Catalog(c.agents[c.next := FirstAgent(slug, command, data, c.next + 1)], c.next + 2)
      case Update(id, renamed, status) => c.(agents := c.agents[id := Updated(c.agents[id], renamed, status)])
      case EditDraft(id, e) =>
        Catalog(Edited(c.agents, c.next, id, EditedVersion(c.agents, id, DraftFor(c.agents, c.next, id), e)), c.next + 1)
      case Publish(id, versionId, note, _) => c.(agents := c.agents[id := Put(c.agents[id], versionId, note)])
      case Connect(id, isOrigin, _, text) =>
        if isOrigin then c else Catalog(c.agents[id := Connected(c.agents[id], c.next, text)], c.next + 1)
      case DeleteAgent(id, _) => c.(agents := AllStripped(c.agents - {id}, AgentRow(id)))
      case DeleteProvider(id, _) => c.(agents := AllStripped(c.agents, ProviderRow(id)))
      case DeleteTool(id, _) => c.(agents := AllStripped(c.agents, ToolRow(id)))
  }

  function OutcomeOf(c: Catalog, op: Operation): Outcome {
    match Refusal(c, op)
    case Some(e) => Err(e)
    case None => Ok(if op.Create? then c.next else op.id)
  }

  // ----- what every operation keeps -----

  /** Every agent's versions are numbered 1..n with at most one draft, its active version exists and is
      published, and no two active agents share a command. */
  ghost predicate Fits(c: Catalog) {
    AllFit(c.agents, c.next) && CommandsUnique(c.agents)
  }

  /** No edit publishes the draft, renumbers it or binds a skill twice. */
  lemma EditIsSound(agents: map<nat, Agent>, id: nat, v: Version, e: Edit)
    requires EditRefused(agents, id, v, e).None? && !v.published && SkillsUnique(v.skills)
    ensures DraftEdit(v, EditedVersion(agents, id, v, e))
  {
    match e
    case SetSkill(skill, catalogue, pinned, priority, enabled, variables) =>
      PutSkillIs(v.skills, SkillBinding(skill, pinned, Or(priority, DefaultPriority(catalogue[skill])), enabled, variables));
    case UnsetSkill(skill) => DropSkillIs(v.skills, skill);
    case OrderSkills(ids) => RankedUnique(v.skills, Reranked(v.skills, WantedOrder(v.skills, ids)), WantedOrder(v.skills, ids));
    case _ =>
  }

  lemma EditKeepsAll(c: Catalog, id: nat, e: Edit)
    requires Fits(c) && Refusal(c, EditDraft(id, e)).None?
    ensures var v := DraftFor(c.agents, c.next, id); DraftEdit(v, EditedVersion(c.agents, id, v, e))
    ensures Fits(After(c, EditDraft(id, e))) && AllKept(c.agents, After(c, EditDraft(id, e)).agents)
  {
    hide DraftFor, Edited, AllFit, CommandsUnique, AllKept, EditRefused, EditedVersion, SkillsUnique;
    var v := DraftFor(c.agents, c.next, id);
    DraftIsSound(c.agents, c.next, id);
    EditIsSound(c.agents, id, v, e);
    EditedFits(c.agents, c.next, id, EditedVersion(c.agents, id, v, e));
  }

  lemma CreateKeepsAll(c: Catalog, op: Operation)
    requires Fits(c) && op.Create? && Refusal(c, op).None?
    ensures Fits(After(c, op)) && AllKept(c.agents, After(c, op).agents)
  {
    hide AgentFits, FirstAgent, CommandsUnique, AllKept;
    var a := FirstAgent(op.slug, op.command, op.data, c.next + 1);
    FirstAgentFits(op.slug, op.command, op.data, c.next + 1);
    assert c.next !in c.agents;
    hide AllFit;
    OneReplaced(c.agents, c.next, c.next, a, c.next + 2);
  }

  lemma FirstAgentFits(slug: string, command: string, data: VersionInput, id: nat)
    ensures AgentFits(FirstAgent(slug, command, data, id), id + 1) && FirstAgent(slug, command, data, id).status == Draft
  {
  }

  predicate Deletes(op: Operation) {
    op.DeleteAgent? || op.DeleteProvider? || op.DeleteTool?
  }

  /** What a deletion takes away. */
  function RowOf(op: Operation): Row
    requires Deletes(op)
  {
    match op
    case DeleteAgent(id, _) => AgentRow(id)
    case DeleteProvider(id, _) => ProviderRow(id)
    case DeleteTool(id, _) => ToolRow(id)
  }

  lemma DeletionKeepsAll(c: Catalog, op: Operation)
    requires Fits(c) && Deletes(op)
    ensures Fits(After(c, op))
  {
    hide AllFit, CommandsUnique, AllStripped, ProviderUsed, ToolUsed;
    if Refusal(c, op).None? {
      if op.DeleteAgent? {
        FewerFit(c.agents, op.id, c.next);
        AllStrippedFit(c.agents - {op.id}, AgentRow(op.id), c.next);
      } else {
        AllStrippedFit(c.agents, RowOf(op), c.next);
      }
    }
  }

  lemma RequestKeepsAll(c: Catalog, op: Operation)
    requires Fits(c) && !Deletes(op)
    ensures Fits(After(c, op)) && AllKept(c.agents, After(c, op).agents)
  {
    hide AllFit, CommandsUnique, AllKept, Connected, Put, Updated, FirstAgent, Edited, DraftFor, Taken;
    NothingChanged(c.agents);
    if Refusal(c, op).None? {
      match op
      case Create(_, _, _) => CreateKeepsAll(c, op);
      case Update(id, renamed, status) => UpdatedFits(c.agents, c.next, id, renamed, status);
      case EditDraft(id, e) => EditKeepsAll(c, id, e);
      case Publish(id, versionId, note, _) => PutFits(c.agents, c.next, id, versionId, note);
      case Connect(id, isOrigin, _, text) => ConnectedAllFit(c.agents, c.next, id, text);
    }
  }

  /** No request breaks the invariant, and none but an accepted deletion changes a published version. */
  lemma StepKeepsAll(c: Catalog, op: Operation)
    requires Fits(c)
    ensures Fits(After(c, op))
    ensures !Deletes(op) || Refusal(c, op).Some? ==> AllKept(c.agents, After(c, op).agents)
  {
    hide After, Fits, AllKept, Refusal;
    if Deletes(op) {
      DeletionKeepsAll(c, op);
      RefusedKeeps(c, op);
    } else {
      RequestKeepsAll(c, op);
    }
  }

  lemma RefusedKeeps(c: Catalog, op: Operation)
    ensures Refusal(c, op).Some? ==> AllKept(c.agents, After(c, op).agents)
  {
    hide AllKept;
    NothingChanged(c.agents);
  }

  // ----- any history of requests -----

  const NOTHING := Catalog(map[], 0)

  /** What is stored after these requests, from an empty catalog on. */
  function History(ops: seq<Operation>): Catalog {
    if ops == [] then NOTHING else After(History(ops[..|ops| - 1]), ops[|ops| - 1])
  }

  /** After any requests whatever: at most one draft per agent, numbers 1..n, an active agent's active
      version published, no command used by two active agents. */
  lemma {:induction false} EveryHistoryFits(ops: seq<Operation>)
    ensures Fits(History(ops))
  {
    if ops != [] {
      EveryHistoryFits(ops[..|ops| - 1]);
      StepKeepsAll(History(ops[..|ops| - 1]), ops[|ops| - 1]);
    }
  }

  // ----- what becomes of a published version -----

  /** Version k of agent x is this one. */
  predicate Still(c: Catalog, x: nat, k: nat, v: Version) {
    x in c.agents && k < |c.agents[x].versions| && c.agents[x].versions[k] == v
  }

  /** The request is an accepted deletion of the agent or of something the version refers to. */
  predicate Touches(c: Catalog, op: Operation, x: nat, v: Version) {
    Deletes(op) && Refusal(c, op).None? && (RowOf(op) == AgentRow(x) || Refers(v, RowOf(op)))
  }

  /** The agent is gone, or its version k has lost something that v refers to. */
  predicate Harmed(c: Catalog, x: nat, k: nat, v: Version) {
    x < c.next && (x in c.agents ==> k < |c.agents[x].versions| && HasLost(c.agents[x].versions[k], v))
  }

  predicate HasLost(u: Version, v: Version) {
    u.published && (
      || (exists t :: t in v.handoffs && t !in u.handoffs)
      || (exists t :: t in v.tools && t !in u.tools)
      || (v.settings.provider.Some? && u.settings.provider.None?))
  }

  lemma LostStaysLost(u: Version, v: Version, row: Row)
    ensures HasLost(u, v) ==> HasLost(Without(u, row), v)
  {
  }

  lemma ReferredIsLost(v: Version, row: Row)
    requires v.published && Refers(v, row)
    ensures HasLost(Without(v, row), v)
  {
    match row
    case AgentRow(agent) => assert agent in v.handoffs && agent !in Without(v, row).handoffs;
    case ToolRow(tool) => assert tool in v.tools && tool !in Without(v, row).tools;
    case ProviderRow(provider) =>
  }

  /** An accepted deletion strips the versions of every agent but the deleted one. */
  lemma DeletionStrips(c: Catalog, op: Operation, x: nat)
    requires Deletes(op) && Refusal(c, op).None?
    ensures var t := After(c, op);
      && t.next == c.next && (x in t.agents <==> x in c.agents && RowOf(op) != AgentRow(x))
      && (x in t.agents ==> t.agents[x] == Stripped(c.agents[x], RowOf(op)))
  {
    hide Stripped, ProviderUsed, ToolUsed;
  }

  /** Ids are never given twice. */
  lemma OnlyNextIsNew(c: Catalog, op: Operation, x: nat)
    requires x in After(c, op).agents
    ensures x in c.agents || x == c.next
  {
    hide Stripped, Put, Updated, Connected, FirstAgent, SetDraft, WithDraft, EditedVersion;
  }

  lemma NextGrows(c: Catalog, op: Operation)
    ensures After(c, op).next >= c.next
  {
    hide AllStripped, Put, Updated, Connected, FirstAgent, Edited, EditedVersion;
  }

  lemma DeletionTraced(c: Catalog, op: Operation, x: nat, k: nat, v: Version)
    requires v.published && Still(c, x, k, v) && x < c.next && Deletes(op) && Refusal(c, op).None?
    ensures if Touches(c, op, x, v) then Harmed(After(c, op), x, k, v) else Still(After(c, op), x, k, v)
  {
    hide After, Refusal, HasLost, Refers, Without, RowOf;
    DeletionStrips(c, op, x);
    WithoutIs(v, RowOf(op));
    if Refers(v, RowOf(op)) {
      ReferredIsLost(v, RowOf(op));
    }
  }

  lemma StillOrHarmed(c: Catalog, op: Operation, x: nat, k: nat, v: Version)
    requires Fits(c) && v.published && Still(c, x, k, v)
    ensures if Touches(c, op, x, v) then Harmed(After(c, op), x, k, v) else Still(After(c, op), x, k, v)
  {
    assert x < c.next;
    hide After, Refusal, Fits, HasLost, Refers, Without, RowOf, Deletes;
    if Deletes(op) && Refusal(c, op).None? {
      DeletionTraced(c, op, x, k, v);
    } else {
      StepKeepsAll(c, op);
    }
  }

  lemma HarmedStays(c: Catalog, op: Operation, x: nat, k: nat, v: Version)
    requires Fits(c) && Harmed(c, x, k, v)
    ensures Harmed(After(c, op), x, k, v)
  {
    hide After, Refusal, Fits, Without, RowOf;
    StepKeepsAll(c, op);
    NextGrows(c, op);
    if x in After(c, op).agents {
      OnlyNextIsNew(c, op, x);
      if Deletes(op) && Refusal(c, op).None? {
        DeletionStrips(c, op, x);
        LostStaysLost(c.agents[x].versions[k], v, RowOf(op));
      }
    }
  }

  lemma HarmedIsNotStill(c: Catalog, x: nat, k: nat, v: Version)
    ensures !(Still(c, x, k, v) && Harmed(c, x, k, v))
  {
  }

  predicate Untouched(ops: seq<Operation>, i: nat, x: nat, v: Version) {
    forall j :: i <= j < |ops| ==> !Touches(History(ops[..j]), ops[j], x, v)
  }

  lemma {:induction false} StillTraced(ops: seq<Operation>, i: nat, x: nat, k: nat, v: Version)
    requires i <= |ops| && v.published && Still(History(ops[..i]), x, k, v)
    ensures if Untouched(ops, i, x, v) then Still(History(ops), x, k, v) else Harmed(History(ops), x, k, v)
  {
    if i == |ops| {
      assert ops[..i] == ops;
    } else {
      var front, last := ops[..|ops| - 1], ops[|ops| - 1];
      assert front[..i] == ops[..i];
      StillTraced(front, i, x, k, v);
      UntouchedNext(ops, i, x, v);
      EveryHistoryFits(front);
      hide Still, Harmed, Touches, Untouched, After, Fits;
      assert History(ops) == After(History(front), last);
      if Untouched(front, i, x, v) {
        StillOrHarmed(History(front), last, x, k, v);
      } else {
        HarmedStays(History(front), last, x, k, v);
      }
    }
  }

  lemma UntouchedNext(ops: seq<Operation>, i: nat, x: nat, v: Version)
    requires i < |ops|
    ensures var front := ops[..|ops| - 1];
      Untouched(ops, i, x, v) <==> Untouched(front, i, x, v) && !Touches(History(front), ops[|ops| - 1], x, v)
  {
    hide Touches, History;
    var front := ops[..|ops| - 1];
    assert forall j :: i <= j < |front| ==> front[..j] == ops[..j] && front[j] == ops[j];
  }

  /** Whatever is requested later, a published version and its bindings stay bit for bit if and only if
      neither its agent nor a provider, tool or handoff target of it is deleted. */
  lemma PublishedExactly(ops: seq<Operation>, i: nat, x: nat, k: nat, v: Version)
    requires i <= |ops| && v.published && Still(History(ops[..i]), x, k, v)
    ensures Still(History(ops), x, k, v) <==> Untouched(ops, i, x, v)
  {
    StillTraced(ops, i, x, k, v);
    HarmedIsNotStill(History(ops), x, k, v);
  }

  const NO_INPUT := VersionInput(None, None, None, None, None, None, None, None, None, None, None)

  lemma HistoryNext(ops: seq<Operation>, op: Operation)
    ensures History(ops + [op]) == After(History(ops), op)
  {
    assert (ops + [op])[..|ops|] == ops;
  }

  function WithText(text: string): VersionInput {
    NO_INPUT.(instructions := Some(text))
  }

  lemma TextIsNotBlank()
    ensures !Blank("x") && Blank("")
  {
    assert !IsSpace('x');
    assert "x"[0] == 'x';
  }

  lemma OnePublished() returns (c: Catalog)
    ensures c == History([Create("a", "/a", WithText("x")), Publish(0, None, None, false)]) && Fits(c)
    ensures 0 in c.agents && c.agents.Keys == {0} && !HasDraft(c.agents[0].versions)
    ensures ActiveOf(c.agents[0]).Some? && !Blank(ActiveOf(c.agents[0]).value.settings.instructions)
  {
    var first, second := Create("a", "/a", WithText("x")), Publish(0, None, None, false);
    EveryHistoryFits([first, second]);
    HistoryNext([], first);
    HistoryNext([first], second);
    assert [] + [first] == [first] && [first] + [second] == [first, second];
    TextIsNotBlank();
    hide History, Blank, IsSpace, AllFit, CommandsUnique, After;
    OneCreated();
    c := After(After(NOTHING, first), second);
    PublishedOnly(After(NOTHING, first));
  }

  lemma OneCreated()
    ensures After(NOTHING, Create("a", "/a", WithText("x"))) == Catalog(map[0 := FirstAgent("a", "/a", WithText("x"), 1)], 2)
  {
    hide FirstAgent;
  }

  /** Publishing the only version of the only agent. */
  lemma PublishedOnly(c: Catalog)
    requires c.agents == map[0 := FirstAgent("a", "/a", WithText("x"), 1)] && !Blank("x")
    ensures var t := After(c, Publish(0, None, None, false));
      && t.agents.Keys == {0} && !HasDraft(t.agents[0].versions)
      && ActiveOf(t.agents[0]).Some? && !Blank(ActiveOf(t.agents[0]).value.settings.instructions)
  {
    hide Blank;
    var a := c.agents[0];
    assert HasDraft(a.versions) && DraftIn(a).settings.instructions == "x" && DraftIn(a).handoffs == map[];
    assert !Problems(c.agents, 0, DraftIn(a), false);
    assert After(c, Publish(0, None, None, false)).agents[0] == Published(a, None);
  }

  /** An active agent with blank instructions is four requests away: create and publish one with
      instructions, save a draft without, connect. */
  lemma BlankAgentIsReachable(text: string)
    requires !Blank(text)
    ensures var agents := History([Create("a", "/a", WithText("x")), Publish(0, None, None, false),
                                   EditDraft(0, SetFields(WithText(""), {})), Connect(0, false, false, text)]).agents;
      && 0 in agents && agents[0].status == Active
      && ActiveOf(agents[0]).Some? && Blank(ActiveOf(agents[0]).value.settings.instructions)
  {
    var c := BlankDraftWaits();
    var ops := [Create("a", "/a", WithText("x")), Publish(0, None, None, false), EditDraft(0, SetFields(WithText(""), {}))];
    var connect := Connect(0, false, false, text);
    HistoryNext(ops, connect);
    assert ops + [connect] == [ops[0], ops[1], ops[2], connect];
    hide History, Connected, AllFit, CommandsUnique, ActiveOf, HasDraft, DraftIn, Blank, After, Fits;
    TheOnlyAgent(c, text);
    ConnectedFits(c.agents[0], c.next, text);
    BlankDraftSlipsThrough(c.agents[0], c.next, text);
  }

  lemma TheOnlyAgent(c: Catalog, text: string)
    requires Fits(c) && c.agents.Keys == {0}
    ensures AgentFits(c.agents[0], c.next) && 0 in After(c, Connect(0, false, false, text)).agents
    ensures After(c, Connect(0, false, false, text)).agents[0] == Connected(c.agents[0], c.next, text)
  {
    hide Connected, AgentFits, CommandsUnique;
  }

  lemma BlankDraftWaits() returns (c: Catalog)
    ensures c == History([Create("a", "/a", WithText("x")), Publish(0, None, None, false), EditDraft(0, SetFields(WithText(""), {}))])
    ensures Fits(c) && c.agents.Keys == {0}
    ensures var a := c.agents[0];
      && HasDraft(a.versions) && Blank(DraftIn(a).settings.instructions)
      && ActiveOf(a).Some? && !Blank(ActiveOf(a).value.settings.instructions)
  {
    var before := OnePublished();
    var ops := [Create("a", "/a", WithText("x")), Publish(0, None, None, false)];
    var edit := EditDraft(0, SetFields(WithText(""), {}));
    HistoryNext(ops, edit);
    assert ops + [edit] == [ops[0], ops[1], edit];
    hide History, Blank, AllFit, CommandsUnique, HasDraft, ActiveOf, DraftIn, WithDraft, SetDraft, Patched, AgentFits;
    StepKeepsAll(before, edit);
    c := After(before, edit);
    TextIsNotBlank();
    TheOnlyAgent(before, "");
    EditOnly(before);
    hide After, Fits;
    BlankBeside(before.agents[0], before.next, c.agents[0]);
  }

  lemma EditOnly(c: Catalog)
    requires c.agents.Keys == {0}
    ensures var t := After(c, EditDraft(0, SetFields(WithText(""), {})));
      var d := WithDraft(c.agents[0], c.next);
      t.agents.Keys == {0} && t.agents[0] == SetDraft(d, Patched(DraftIn(d), WithText("")))
  {
    hide WithDraft, SetDraft, Patched, DraftIn;
  }

  /** A blank draft beside it leaves the active version as it was. */
  lemma BlankBeside(a: Agent, next: nat, b: Agent)
    requires AgentFits(a, next) && !HasDraft(a.versions) && ActiveOf(a).Some?
    requires b == SetDraft(WithDraft(a, next), Patched(DraftIn(WithDraft(a, next)), WithText("")))
    ensures ActiveOf(b) == ActiveOf(a) && HasDraft(b.versions) && DraftIn(b).settings.instructions == ""
  {
    assert b.versions == a.versions + [b.versions[|a.versions|]];
    VersionAtFront(a.versions, b.versions[|a.versions|], a.activeVersion.value);
  }

  lemma {:induction false} VersionAtFront(versions: seq<Version>, w: Version, id: nat)
    requires VersionAt(versions, id).Some?
    ensures VersionAt(versions + [w], id) == VersionAt(versions, id)
  {
    if versions[0].id != id {
      assert (versions + [w])[1..] == versions[1..] + [w];
      VersionAtFront(versions[1..], w, id);
    }
  }

  lemma {:induction false} StrippedAt(versions: seq<Version>, stripped: seq<Version>, id: nat, row: Row)
    requires |stripped| == |versions| && forall i :: 0 <= i < |versions| ==> stripped[i] == Without(versions[i], row)
    ensures var v, w := VersionAt(versions, id), VersionAt(stripped, id);
      (v.Some? <==> w.Some?) && (v.Some? ==> w.value == Without(v.value, row) && v.value in versions && v.value.id == id)
  {
    hide Without;
    if versions != [] {
      WithoutIs(versions[0], row);
      if versions[0].id != id {
        StrippedAt(versions[1..], stripped[1..], id, row);
      }
    }
  }

  /** Deleting a provider or a tool takes nothing from an active version that it may use. */
  lemma ActiveKeepsItsMeans(c: Catalog, op: Operation, x: nat)
    requires x in c.agents && ActiveOf(c.agents[x]).Some? && (op.DeleteProvider? || op.DeleteTool?)
    ensures x in After(c, op).agents && ActiveOf(After(c, op).agents[x]).Some?
    ensures var v, w := ActiveOf(c.agents[x]).value, ActiveOf(After(c, op).agents[x]).value;
      && w.settings == v.settings && w.skills == v.skills && w.handoffs == v.handoffs
      && forall t :: t in v.tools && v.tools[t].enabled ==> t in w.tools && w.tools[t] == v.tools[t]
  {
    if Refusal(c, op).None? {
      DeletionStrips(c, op, x);
      var a := c.agents[x];
      StrippedAt(a.versions, Stripped(a, RowOf(op)).versions, a.activeVersion.value, RowOf(op));
      hide After;
      assert op.DeleteProvider? ==> !UsesProvider(a, op.id);
      assert op.DeleteTool? ==> !UsesTool(a, op.id);
    }
  }

  // ----- a published version that changes -----

  /** Four requests: an agent that hands off to an unpublished one is published. */
  function Linked(h: Handoff): seq<Operation> {
    [Create("a", "/a", WithText("x")), Create("b", "/b", NO_INPUT), EditDraft(0, SetHandoff(2, h)), Publish(0, None, None, false)]
  }

  /** Nothing keeps the target from being deleted, and with it goes the handoff of the published
      version that is active. */
  lemma HandoffIsCut(h: Handoff)
    ensures var before, now := History(Linked(h)), History(Linked(h) + [DeleteAgent(2, false)]);
      && 0 in before.agents && 0 in now.agents && now.agents[0].status == Active
      && before.agents[0].versions != [] && now.agents[0].versions != []
      && var v, w := before.agents[0].versions[0], now.agents[0].versions[0];
         v.published && before.agents[0].activeVersion == Some(v.id) && v.handoffs == map[2 := h]
         && w.published && now.agents[0].activeVersion == Some(w.id) && w.handoffs == map[]
  {
    var c := LinkedPublished(h);
    HistoryNext(Linked(h), DeleteAgent(2, false));
    hide History, Stripped;
    assert Refusal(c, DeleteAgent(2, false)).None?;
    DeletionStrips(c, DeleteAgent(2, false), 0);
    hide After;
    StrippedFirst(c.agents[0], 2);
    assert map[2 := h] - {2} == map[];
  }

  lemma StrippedFirst(a: Agent, agent: nat)
    requires a.versions != []
    ensures var b := Stripped(a, AgentRow(agent));
      && b.status == a.status && b.activeVersion == a.activeVersion && b.versions != []
      && b.versions[0] == a.versions[0].(handoffs := a.versions[0].handoffs - {agent})
  {
  }

  lemma LinkedPublished(h: Handoff) returns (c: Catalog)
    ensures c == History(Linked(h)) && c.agents.Keys == {0, 2}
    ensures var a := c.agents[0];
      && a.status == Active && |a.versions| == 1 && a.versions[0].published
      && a.activeVersion == Some(a.versions[0].id) && a.versions[0].handoffs == map[2 := h]
  {
    var ops := Linked(h);
    HistoryNext([], ops[0]);
    HistoryNext([ops[0]], ops[1]);
    HistoryNext([ops[0], ops[1]], ops[2]);
    HistoryNext([ops[0], ops[1], ops[2]], ops[3]);
    assert [] + [ops[0]] == [ops[0]] && [ops[0]] + [ops[1]] == [ops[0], ops[1]];
    assert [ops[0], ops[1]] + [ops[2]] == [ops[0], ops[1], ops[2]] && [ops[0], ops[1], ops[2]] + [ops[3]] == ops;
    assert History([]) == NOTHING;
    hide History, After;
    TwoCreated();
    var two := After(After(NOTHING, ops[0]), ops[1]);
    HandoffSet(two, h);
    c := After(After(two, ops[2]), ops[3]);
    LinkPublished(After(two, ops[2]), h);
  }

  predicate TwoAgents(c: Catalog, handoffs: map<nat, Handoff>) {
    && c.agents.Keys == {0, 2}
    && c.agents[2].status == Draft
    && c.agents[0].versions != []
    && c.agents[0] == Agent("a", "/a", Draft, None, [c.agents[0].versions[0]])
    && LinkedDraft(c.agents[0].versions[0], handoffs)
  }

  predicate LinkedDraft(v: Version, handoffs: map<nat, Handoff>) {
    !v.published && v.settings.instructions == "x" && v.handoffs == handoffs
  }

  lemma TwoCreated()
    ensures TwoAgents(After(After(NOTHING, Create("a", "/a", WithText("x"))), Create("b", "/b", NO_INPUT)), map[])
  {
    OneCreated();
  }

  lemma HandoffSet(c: Catalog, h: Handoff)
    requires TwoAgents(c, map[])
    ensures TwoAgents(After(c, EditDraft(0, SetHandoff(2, h))), map[2 := h])
  {
  }

  lemma LinkPublished(c: Catalog, h: Handoff)
    requires TwoAgents(c, map[2 := h])
    ensures var t := After(c, Publish(0, None, None, false));
      && t.agents.Keys == {0, 2}
      && var a := t.agents[0];
         a.status == Active && |a.versions| == 1 && a.versions[0].published
         && a.activeVersion == Some(a.versions[0].id) && a.versions[0].handoffs == map[2 := h]
  {
    TextIsNotBlank();
    hide Blank;
    assert DraftIn(c.agents[0]) == c.agents[0].versions[0];
    assert !Problems(c.agents, 0, DraftIn(c.agents[0]), false);
  }

  // ----- the service -----

  method Highest(versions: seq<Version>, ghost bound: nat) returns (highest: nat)
    requires VersionsFit(versions, bound)
    ensures highest == |versions|
  {
    highest := 0;
    for k := 0 to |versions|
      invariant highest == k
    {
      if versions[k].number > highest {
        highest := versions[k].number;
      }
    }
  }

  /** The first version that is not published. */
  method DraftOf(versions: seq<Version>, ghost bound: nat) returns (k: nat)
    requires VersionsFit(versions, bound)
    ensures k <= |versions| && (k < |versions| <==> HasDraft(versions)) && (k < |versions| ==> k == |versions| - 1)
  {
    k := 0;
    while k < |versions| && versions[k].published
      invariant k <= |versions| && forall i :: 0 <= i < k ==> versions[i].published
    {
      k := k + 1;
    }
  }

  class AgentService {
    var agents: map<nat, Agent>
    var nextId: nat

    ghost function State(): Catalog
      reads this
    {
      Catalog(agents, nextId)
    }

    ghost predicate Valid()
      reads this
    {
      Fits(State())
    }

    constructor ()
      ensures State() == NOTHING && Valid()
    {
      agents := map[];
      nextId := 0;
    }

    /** The write at the end of a request: the unique index refuses exactly the writes after which two
        active agents would share a command. */
    method Write(id: nat, a: Agent) returns (ok: bool)
      requires CommandsUnique(agents)
      modifies this`agents
      ensures ok <==> CommandsUnique(old(agents)[id := a])
      ensures agents == if ok then old(agents)[id := a] else old(agents)
    {
      IndexRefuses(agents, id, a);
      ok := !(a.status == Active && Taken(agents, id, a.command));
      if ok {
        agents := agents[id := a];
      }
    }

    method Create(slug: string, command: string, data: VersionInput) returns (r: Outcome)
      requires Valid()
      modifies this
      ensures r == OutcomeOf(old(State()), Operation.Create(slug, command, data))
      ensures State() == After(old(State()), Operation.Create(slug, command, data)) && Valid()
    {
      hide AllFit, CommandsUnique, FirstAgent;
      StepKeepsAll(State(), Operation.Create(slug, command, data));
      if exists x :: x in agents && agents[x].slug == slug {
        return Err(SlugTaken);
      }
      r := Ok(nextId);
      agents := agents[nextId := FirstAgent(slug, command, data, nextId + 1)];
      nextId := nextId + 2;
    }

    /** Renames the command or switches the agent on or off. The index never has to step in. */
    method Update(id: nat, command: Option<string>, status: Option<Status>) returns (r: Outcome)
      requires Valid() && (command.Some? ==> command.value != "") && status != Some(Draft)
      modifies this
      ensures r == OutcomeOf(old(State()), Operation.Update(id, command, status))
      ensures State() == After(old(State()), Operation.Update(id, command, status)) && Valid()
      ensures r.Ok? ==> id in old(agents) && agents.Keys == old(agents).Keys && forall x :: x in agents ==>
        agents[x] == if x != id then old(agents)[x]
                     else old(agents)[x].(status := if status.Some? then status.value else old(agents)[x].status,
                                          command := if command.Some? then command.value else old(agents)[x].command)
    {
      StepKeepsAll(State(), Operation.Update(id, command, status));
      if id !in agents {
        return Err(AgentNotFound);
      }
      var a := agents[id];
      if command.Some? && a.status == Active && Taken(agents, id, command.value) {
        return Err(CommandTaken);
      }
      if status == Some(Active) {
        if a.activeVersion.None? {
          return Err(NoPublishedVersion);
        }
        if Taken(agents, id, Or(command, a.command)) {
          return Err(CommandTaken);
        }
      }
      UpdatedFits(agents, nextId, id, command, status);
      var ok := Write(id, Updated(a, command, status));
      r := if ok then Ok(id) else Err(IndexViolated);
    }

    /** The draft to edit: the existing one, or a new one numbered after the highest. */
    method OpenDraft(id: nat) returns (a: Agent)
      requires Valid() && id in agents
      ensures a == WithDraft(agents[id], nextId)
    {
      a := agents[id];
      assert AgentFits(a, nextId);
      var k := DraftOf(a.versions, nextId);
      if k == |a.versions| {
        var highest := Highest(a.versions, nextId);
        var active := ActiveOf(a);
        var draft := Version(nextId, highest + 1, false, None, DEFAULTS, [], map[], map[]);
        if active.Some? {
          draft := draft.(settings := active.value.settings, skills := active.value.skills,
                          tools := active.value.tools, handoffs := active.value.handoffs);
        }
        a := a.(versions := a.versions + [draft]);
      }
    }

    /** Every edit of a draft ends here. */
    method SaveEdit(id: nat, a: Agent, w: Version, ghost e: Edit)
      requires Valid() && id in agents && a == WithDraft(agents[id], nextId)
      requires EditRefused(agents, id, DraftIn(a), e).None? && w == EditedVersion(agents, id, DraftIn(a), e)
      modifies this
      ensures State() == After(old(State()), EditDraft(id, e)) && Valid()
    {
      hide AllFit, CommandsUnique, AllKept, FreshDraft, SetDraft, EditedVersion, EditRefused;
      EditKeepsAll(State(), id, e);
      agents := agents[id := SetDraft(a, w)];
      nextId := nextId + 1;
    }

    method SaveDraft(id: nat, data: VersionInput, providers: set<nat>) returns (r: Outcome)
      requires Valid()
      modifies this
      ensures r == OutcomeOf(old(State()), EditDraft(id, SetFields(data, providers)))
      ensures State() == After(old(State()), EditDraft(id, SetFields(data, providers))) && Valid()
    {
      if id !in agents {
        return Err(AgentNotFound);
      }
      var a := OpenDraft(id);
      if NamesUnknownProvider(data, providers) {
        return Err(ProviderNotFound);
      }
      SaveEdit(id, a, Patched(DraftIn(a), data), SetFields(data, providers));
      return Ok(id);
    }

    method AttachSkill(id: nat, skill: nat, catalogue: map<nat, Skill>, pinned: Option<nat>, priority: Option<int>,
                       enabled: bool, variables: map<string, string>) returns (r: Outcome)
      requires Valid()
      modifies this
      ensures r == OutcomeOf(old(State()), EditDraft(id, SetSkill(skill, catalogue, pinned, priority, enabled, variables)))
      ensures State() == After(old(State()), EditDraft(id, SetSkill(skill, catalogue, pinned, priority, enabled, variables))) && Valid()
    {
      if id !in agents {
        return Err(AgentNotFound);
      }
      if skill !in catalogue {
        return Err(SkillNotFound);
      }
      if pinned.Some? && PinnedVersion(catalogue[skill].versions, pinned.value).None? {
        return Err(InvalidSkillVersion);
      }
      var a := OpenDraft(id);
      var v := DraftIn(a);
      var b := SkillBinding(skill, pinned, Or(priority, DefaultPriority(catalogue[skill])), enabled, variables);
      SaveEdit(id, a, v.(skills := PutSkill(v.skills, b)), SetSkill(skill, catalogue, pinned, priority, enabled, variables));
      return Ok(id);
    }

    method DetachSkill(id: nat, skill: nat) returns (r: Outcome)
      requires Valid()
      modifies this
      ensures r == OutcomeOf(old(State()), EditDraft(id, UnsetSkill(skill)))
      ensures State() == After(old(State()), EditDraft(id, UnsetSkill(skill))) && Valid()
    {
      if id !in agents {
        return Err(AgentNotFound);
      }
      var a := OpenDraft(id);
      var v := DraftIn(a);
      if BindingOf(v.skills, skill).None? {
        return Err(BindingNotFound);
      }
      SaveEdit(id, a, v.(skills := DropSkill(v.skills, skill)), UnsetSkill(skill));
      return Ok(id);
    }

    /** The draft's priorities are rewritten so that the wanted order ranks 10, 20, 30, ... */
    method Reorder(id: nat, ids: seq<nat>) returns (r: Outcome)
      requires Valid()
      modifies this
      ensures r == OutcomeOf(old(State()), EditDraft(id, OrderSkills(ids)))
      ensures State() == After(old(State()), EditDraft(id, OrderSkills(ids))) && Valid()
    {
      if id !in agents {
        return Err(AgentNotFound);
      }
      var a := OpenDraft(id);
      var v := DraftIn(a);
      var now := ReorderSkills(v.skills, ids);
      if now.Err? {
        return Err(BindingNotFound);
      }
      assert now.value == Reranked(v.skills, WantedOrder(v.skills, ids));
      SaveEdit(id, a, v.(skills := now.value), OrderSkills(ids));
      return Ok(id);
    }

    method AttachTool(id: nat, tool: nat, tools: set<nat>, t: ToolBinding) returns (r: Outcome)
      requires Valid()
      modifies this
      ensures r == OutcomeOf(old(State()), EditDraft(id, SetTool(tool, tools, t)))
      ensures State() == After(old(State()), EditDraft(id, SetTool(tool, tools, t))) && Valid()
    {
      if id !in agents {
        return Err(AgentNotFound);
      }
      if tool !in tools {
        return Err(ToolNotFound);
      }
      var a := OpenDraft(id);
      var v := DraftIn(a);
      SaveEdit(id, a, v.(tools := v.tools[tool := t]), SetTool(tool, tools, t));
      return Ok(id);
    }

    method DetachTool(id: nat, tool: nat) returns (r: Outcome)
      requires Valid()
      modifies this
      ensures r == OutcomeOf(old(State()), EditDraft(id, UnsetTool(tool)))
      ensures State() == After(old(State()), EditDraft(id, UnsetTool(tool))) && Valid()
    {
      if id !in agents {
        return Err(AgentNotFound);
      }
      var a := OpenDraft(id);
      var v := DraftIn(a);
      if tool !in v.tools {
        return Err(BindingNotFound);
      }
      SaveEdit(id, a, v.(tools := v.tools - {tool}), UnsetTool(tool));
      return Ok(id);
    }

    method AddHandoff(id: nat, target: nat, h: Handoff) returns (r: Outcome)
      requires Valid()
      modifies this
      ensures r == OutcomeOf(old(State()), EditDraft(id, SetHandoff(target, h)))
      ensures State() == After(old(State()), EditDraft(id, SetHandoff(target, h))) && Valid()
    {
      if id !in agents {
        return Err(AgentNotFound);
      }
      if target == id {
        return Err(SelfHandoff);
      }
      if target !in agents {
        return Err(AgentNotFound);
      }
      var a := OpenDraft(id);
      var v := DraftIn(a);
      SaveEdit(id, a, v.(handoffs := v.handoffs[target := h]), SetHandoff(target, h));
      return Ok(id);
    }

    method RemoveHandoff(id: nat, target: nat) returns (r: Outcome)
      requires Valid()
      modifies this
      ensures r == OutcomeOf(old(State()), EditDraft(id, UnsetHandoff(target)))
      ensures State() == After(old(State()), EditDraft(id, UnsetHandoff(target))) && Valid()
    {
      if id !in agents {
        return Err(AgentNotFound);
      }
      var a := OpenDraft(id);
      var v := DraftIn(a);
      if target !in v.handoffs {
        return Err(HandoffNotFound);
      }
      SaveEdit(id, a, v.(handoffs := v.handoffs - {target}), UnsetHandoff(target));
      return Ok(id);
    }

    /** Publishes the draft, or goes back to a published version, after validation. The index never
        has to step in. */
    method Publish(id: nat, versionId: Option<nat>, note: Option<string>, otherwise: bool) returns (r: Outcome)
      requires Valid()
      modifies this
      ensures r == OutcomeOf(old(State()), Operation.Publish(id, versionId, note, otherwise))
      ensures State() == After(old(State()), Operation.Publish(id, versionId, note, otherwise)) && Valid()
    {
      if id !in agents {
        return Err(AgentNotFound);
      }
      var a := agents[id];
      var target := Target(a, versionId);
      if target.Err? {
        return Err(target.error);
      }
      if Problems(agents, id, target.value, otherwise) {
        return Err(CannotBePublished);
      }
      PutFits(agents, nextId, id, versionId, note);
      var ok := Write(id, Put(a, versionId, note));
      r := if ok then Ok(id) else Err(IndexViolated);
    }

    /** Points an agent at an existing one elsewhere and activates it. No path of this operation asks
        whether the command is free, so exactly when it is not, the index refuses the write. */
    method SetConnection(id: nat, isOrigin: bool, keyRefused: bool, text: string) returns (r: Outcome)
      requires Valid()
      modifies this
      ensures r == OutcomeOf(old(State()), Connect(id, isOrigin, keyRefused, text))
      ensures State() == After(old(State()), Connect(id, isOrigin, keyRefused, text)) && Valid()
    {
      hide Connected, Taken, AllFit, CommandsUnique, AllKept;
      if id !in agents {
        return Err(AgentNotFound);
      }
      if keyRefused {
        return Err(InvalidApiKey);
      }
      if isOrigin {
        return Ok(id);
      }
      var a := MakeRunnable(id, text);
      ConnectedAllFit(agents, nextId, id, text);
      IndexRefuses(agents, id, a);
      var ok := Write(id, a);
      if ok {
        nextId := nextId + 1;
      }
      r := if ok then Ok(id) else Err(IndexViolated);
    }

    /** An agent that was never used in a chat can be deleted, whoever hands off to it. */
    method DeleteAgent(id: nat, chatted: bool) returns (r: Outcome)
      requires Valid()
      modifies this
      ensures r == OutcomeOf(old(State()), Operation.DeleteAgent(id, chatted))
      ensures State() == After(old(State()), Operation.DeleteAgent(id, chatted)) && Valid()
    {
      hide AllFit, CommandsUnique, AllStripped;
      StepKeepsAll(State(), Operation.DeleteAgent(id, chatted));
      if id !in agents {
        return Err(AgentNotFound);
      }
      if chatted {
        return Err(AgentInUse);
      }
      agents := AllStripped(agents - {id}, AgentRow(id));
      return Ok(id);
    }

    /** Refused while an active version or a draft has the provider. */
    method DeleteProvider(id: nat, known: bool) returns (r: Outcome)
      requires Valid()
      modifies this
      ensures r == OutcomeOf(old(State()), Operation.DeleteProvider(id, known))
      ensures State() == After(old(State()), Operation.DeleteProvider(id, known)) && Valid()
    {
      hide AllFit, CommandsUnique, AllStripped, UsesProvider;
      StepKeepsAll(State(), Operation.DeleteProvider(id, known));
      if !known {
        return Err(ProviderNotFound);
      }
      if ProviderUsed(agents, id) {
        return Err(ProviderInUse);
      }
      agents := AllStripped(agents, ProviderRow(id));
      return Ok(id);
    }

    /** Refused while an active version may use the integration's tool. */
    method DeleteTool(id: nat, known: bool) returns (r: Outcome)
      requires Valid()
      modifies this
      ensures r == OutcomeOf(old(State()), Operation.DeleteTool(id, known))
      ensures State() == After(old(State()), Operation.DeleteTool(id, known)) && Valid()
    {
      hide AllFit, CommandsUnique, AllStripped, UsesTool;
      StepKeepsAll(State(), Operation.DeleteTool(id, known));
      if !known {
        return Err(IntegrationNotFound);
      }
      if ToolUsed(agents, id) {
        return Err(IntegrationInUse);
      }
      agents := AllStripped(agents, ToolRow(id));
      return Ok(id);
    }

    /** A minimal version is written when there is none with instructions; then any draft is published. */
    method MakeRunnable(id: nat, text: string) returns (a: Agent)
      requires Valid() && id in agents
      ensures a == Connected(agents[id], nextId, text)
    {
      hide AllFit, CommandsUnique, Blank, Patched, Published, FreshDraft;
      a := agents[id];
      if NeedsText(a) {
        a := OpenDraft(id);
        a := SetDraft(a, Patched(DraftIn(a), InstructionsOnly(text)));
      }
      a := if HasDraft(a.versions) then Published(a, None) else a.(status := Active);
    }
  }

  lemma IndexRefuses(agents: map<nat, Agent>, id: nat, a: Agent)
    requires CommandsUnique(agents)
    ensures CommandsUnique(agents[id := a]) <==> !(a.status == Active && Taken(agents, id, a.command))
  {
    var now := agents[id := a];
    if x :| x in agents && x != id && agents[x].status == Active && agents[x].command == a.command && a.status == Active {
      assert now[x] == agents[x] && now[id] == a;
    }
  }
}
