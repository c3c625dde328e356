/** What each request on agents leaves behind, read off what is stored before and after it. */
module AgentLaws {
  import opened Options
  import opened SkillOrder
  import opened WhiteSpace
  import opened PromptComposition
  import opened AgentVersions
  import opened AgentServices

  function Stored(ops: seq<Operation>): map<nat, Agent> {
    History(ops).agents
  }

  /** How the service answers a request that follows these. */
  function Answer(ops: seq<Operation>, op: Operation): Outcome {
    OutcomeOf(History(ops), op)
  }

  predicate OthersSame(before: map<nat, Agent>, now: map<nat, Agent>, id: nat) {
    && (forall x :: x in before && x != id ==> x in now && now[x] == before[x])
    && (forall x :: x in now && x != id ==> x in before)
  }

  /** A refused request changes nothing. */
  lemma RefusedChangesNothing(ops: seq<Operation>, op: Operation)
    requires Answer(ops, op).Err?
    ensures Stored(ops + [op]) == Stored(ops)
  {
    HistoryNext(ops, op);
    hide History;
  }

  // ----- command and status -----

  predicate TakenBy(agents: map<nat, Agent>, id: nat, command: string) {
    exists x :: x in agents && x != id && agents[x].status == Active && agents[x].command == command
  }

  /** An accepted update sets the status and the command where they are given, and nothing else. */
  lemma UpdateWrites(ops: seq<Operation>, id: nat, renamed: Option<string>, status: Option<Status>)
    requires Answer(ops, Update(id, renamed, status)).Ok?
    ensures var before, now := Stored(ops), Stored(ops + [Update(id, renamed, status)]);
      && id in before && id in now && OthersSame(before, now, id)
      && now[id].status == (match status case Some(given) => given case None => before[id].status)
      && now[id].command == (match renamed case Some(given) => given case None => before[id].command)
      && now[id].slug == before[id].slug
      && now[id].versions == before[id].versions && now[id].activeVersion == before[id].activeVersion
  {
    HistoryNext(ops, Update(id, renamed, status));
    hide History, Taken;
  }

  /** When an update is refused, and how: the errors in the service's order. */
  lemma UpdateAnswers(ops: seq<Operation>, id: nat, renamed: Option<string>, status: Option<Status>)
    ensures var agents, answer := Stored(ops), Answer(ops, Update(id, renamed, status));
      if id !in agents then answer == Err(AgentNotFound)
      else if renamed.Some? && agents[id].status == Active && TakenBy(agents, id, renamed.value) then answer == Err(CommandTaken)
      else if status == Some(Active) && agents[id].activeVersion.None? then answer == Err(NoPublishedVersion)
      else if status == Some(Active) && TakenBy(agents, id, if renamed.Some? then renamed.value else agents[id].command)
      then answer == Err(CommandTaken)
      else answer == Ok(id)
  {
    hide History;
  }

  /** A command changes hands: while its holder is active, another agent with that command cannot be
      enabled; when the holder is disabled, it can; and then the first cannot be enabled again. */
  lemma CommandChangesHands(ops: seq<Operation>, x: nat, y: nat)
    requires x in Stored(ops) && y in Stored(ops) && x != y
    requires Stored(ops)[x].status == Active && Stored(ops)[y].command == Stored(ops)[x].command
    requires Stored(ops)[y].activeVersion.Some?
    ensures var enable := Update(y, None, Some(Active));
      var off := ops + [Update(x, None, Some(Disabled))];
      var taken := off + [enable];
      && Answer(ops, enable) == Err(CommandTaken)
      && Answer(ops, Update(x, None, Some(Disabled))) == Ok(x) && Stored(off)[x].status == Disabled
      && Answer(off, enable) == Ok(y) && Stored(taken)[y].status == Active
      && Answer(taken, Update(x, None, Some(Active))) == Err(CommandTaken)
  {
    hide History, OutcomeOf, Fits;
    var enable, disable := Update(y, None, Some(Active)), Update(x, None, Some(Disabled));
    var off := ops + [disable];
    EveryHistoryFits(ops);
    UpdateAnswers(ops, y, None, Some(Active));
    UpdateAnswers(ops, x, None, Some(Disabled));
    UpdateWrites(ops, x, None, Some(Disabled));
    NobodyElse(History(ops), x, y);
    UpdateAnswers(off, y, None, Some(Active));
    UpdateWrites(off, y, None, Some(Active));
    UpdateAnswers(off + [enable], x, None, Some(Active));
    assert Stored(ops)[x].activeVersion.Some? by {
      ActiveHasVersion(History(ops), x);
    }
  }

  lemma ActiveHasVersion(c: Catalog, x: nat)
    requires Fits(c) && x in c.agents && c.agents[x].status == Active
    ensures c.agents[x].activeVersion.Some?
  {
    assert AgentFits(c.agents[x], c.next);
    hide VersionsFit;
  }

  lemma NobodyElse(c: Catalog, x: nat, y: nat)
    requires Fits(c) && x in c.agents && y in c.agents
    requires c.agents[x].status == Active && c.agents[y].command == c.agents[x].command
    ensures forall z :: z in c.agents && z != x && c.agents[z].status == Active ==> c.agents[z].command != c.agents[y].command
  {
    hide AllFit;
  }

  // ----- editing a draft -----

  predicate DraftWaits(a: Agent) {
    a.versions != [] && !a.versions[|a.versions| - 1].published
  }

  predicate SameContent(v: Version, w: Version) {
    v.settings == w.settings && v.skills == w.skills && v.tools == w.tools && v.handoffs == w.handoffs
  }

  predicate IsActiveOf(a: Agent, i: int) {
    0 <= i < |a.versions| && Some(a.versions[i].id) == a.activeVersion
  }

  /** The version an edit of the draft starts from: the draft that waits, or else a new one with the next
      number and the content of the active version, or of no version at all. */
  ghost predicate StartsFrom(a: Agent, v: Version) {
    if DraftWaits(a) then v == a.versions[|a.versions| - 1]
    else
      && v.number == |a.versions| + 1 && !v.published && v.note == None
      && (a.activeVersion.Some? ==> exists i :: IsActiveOf(a, i) && SameContent(v, a.versions[i]))
      && (a.activeVersion.None? ==>
            v.settings == Settings(None, None, "", "", "{}", "{}", "{}", true, 20, 300)
            && v.skills == [] && v.tools == map[] && v.handoffs == map[])
  }

  /** Afterwards the agent has w as its draft and is otherwise as before. */
  predicate DraftBecame(before: Agent, now: Agent, w: Version) {
    && now.slug == before.slug && now.command == before.command && now.status == before.status
    && now.activeVersion == before.activeVersion
    && now.versions == (if DraftWaits(before) then before.versions[..|before.versions| - 1] else before.versions) + [w]
  }

  predicate GivenOr<T(==)>(now: T, given: Option<T>, before: T) {
    now == match given case Some(x) => x case None => before
  }

  /** Every field is the one given, or the one it was. */
  predicate FieldsGiven(v: Settings, w: Settings, data: VersionInput) {
    && GivenOr(w.provider, data.provider, v.provider) && GivenOr(w.model, data.model, v.model)
    && GivenOr(w.instructions, data.instructions, v.instructions)
    && GivenOr(w.handoffDescription, data.handoffDescription, v.handoffDescription)
    && GivenOr(w.modelSettings, data.modelSettings, v.modelSettings)
    && GivenOr(w.inputSchema, data.inputSchema, v.inputSchema) && GivenOr(w.outputSchema, data.outputSchema, v.outputSchema)
    && GivenOr(w.canAsk, data.canAsk, v.canAsk) && GivenOr(w.maxSteps, data.maxSteps, v.maxSteps)
    && GivenOr(w.timeoutSeconds, data.timeoutSeconds, v.timeoutSeconds)
  }

  /** The priority a skill gets when none is given: that of its active version, or 100. */
  predicate DefaultsTo(s: Skill, priority: int) {
    if s.activeVersion.Some? && exists i :: 0 <= i < |s.versions| && s.versions[i].id == s.activeVersion.value
    then exists i :: 0 <= i < |s.versions| && s.versions[i].id == s.activeVersion.value && s.versions[i].defaultPriority == priority
    else priority == 100
  }

  /** What each edit does to a draft v, leaving w. */
  ghost predicate EditDid(v: Version, w: Version, e: Edit) {
    && w.id == v.id && w.number == v.number && !w.published
    && (!e.SetFields? ==> w.settings == v.settings && w.note == v.note)
    && (e.SetSkill? || e.UnsetSkill? || e.OrderSkills? || w.skills == v.skills)
    && (e.SetTool? || e.UnsetTool? || w.tools == v.tools)
    && (e.SetHandoff? || e.UnsetHandoff? || w.handoffs == v.handoffs)
    && match e
       case SetFields(data, _) =>
         FieldsGiven(v.settings, w.settings, data) && w.note == (if data.note.Some? then data.note else v.note)
       case SetSkill(skill, catalogue, pinned, priority, enabled, variables) =>
         && (exists b :: b in w.skills && b.skill == skill)
         && (forall b :: b in w.skills && b.skill == skill ==> SkillGiven(b, catalogue, pinned, priority, enabled, variables))
         && (forall b: SkillBinding :: b.skill != skill ==> (b in w.skills <==> b in v.skills))
       case UnsetSkill(skill) => forall b :: b in w.skills <==> b in v.skills && b.skill != skill
       case OrderSkills(ids) => Ranked(v.skills, w.skills, WantedOrder(v.skills, ids))
       case SetTool(tool, _, binding) =>
         tool in w.tools && w.tools[tool] == binding && w.tools - {tool} == v.tools - {tool}
       case UnsetTool(tool) => tool !in w.tools && w.tools == v.tools - {tool}
       case SetHandoff(target, handoff) =>
         target in w.handoffs && w.handoffs[target] == handoff && w.handoffs - {target} == v.handoffs - {target}
       case UnsetHandoff(target) => target !in w.handoffs && w.handoffs == v.handoffs - {target}
  }

  predicate SkillGiven(b: SkillBinding, catalogue: map<nat, Skill>, pinned: Option<nat>, priority: Option<int>,
                       enabled: bool, variables: map<string, string>) {
    && b.pinned == pinned && b.enabled == enabled && b.variables == variables
    && b.skill in catalogue
    && (match priority case Some(p) => b.priority == p case None => DefaultsTo(catalogue[b.skill], b.priority))
  }

  lemma DefaultIs(s: Skill)
    ensures DefaultsTo(s, DefaultPriority(s))
  {
    ActiveFollows(s.versions, s.activeVersion);
  }

  lemma EditIs(agents: map<nat, Agent>, id: nat, v: Version, e: Edit)
    requires EditRefused(agents, id, v, e).None? && !v.published && SkillsUnique(v.skills)
    ensures EditDid(v, EditedVersion(agents, id, v, e), e)
  {
    match e
    case SetSkill(skill, catalogue, pinned, priority, enabled, variables) => SkillSet(agents, id, v, e);
    case UnsetSkill(skill) => DropSkillIs(v.skills, skill);
    case OrderSkills(ids) =>
    case SetTool(tool, _, binding) => KeySet(v.tools, tool, binding);
    case SetHandoff(target, handoff) => KeySet(v.handoffs, target, handoff);
    case _ =>
  }

  lemma KeySet<T>(m: map<nat, T>, key: nat, value: T)
    ensures m[key := value] - {key} == m - {key}
  {
  }

  lemma SkillSet(agents: map<nat, Agent>, id: nat, v: Version, e: Edit)
    requires e.SetSkill? && EditRefused(agents, id, v, e).None? && !v.published && SkillsUnique(v.skills)
    ensures EditDid(v, EditedVersion(agents, id, v, e), e)
  {
    DefaultIs(e.catalogue[e.skill]);
    hide DefaultsTo, DefaultPriority, SkillsUnique;
    var b := SkillBinding(e.skill, e.pinned, Or(e.priority, DefaultPriority(e.catalogue[e.skill])), e.enabled, e.variables);
    PutSkillIs(v.skills, b);
    hide PutSkill;
    assert b in EditedVersion(agents, id, v, e).skills && b.skill == e.skill;
  }

  lemma DraftForStarts(a: Agent, next: nat)
    requires AgentFits(a, next)
    ensures var v := DraftIn(WithDraft(a, next)); StartsFrom(a, v) && !v.published && SkillsUnique(v.skills)
  {
    WithDraftFits(a, next);
    if !HasDraft(a.versions) && a.activeVersion.Some? {
      ActiveIsPublished(a, next);
      var i :| 0 <= i < |a.versions| && a.versions[i] == ActiveOf(a).value;
      assert IsActiveOf(a, i);
    }
  }

  lemma SetDraftBecame(a: Agent, next: nat, w: Version)
    ensures DraftBecame(a, SetDraft(WithDraft(a, next), w), w)
  {
    if HasDraft(a.versions) {
      assert a.versions[|a.versions| - 1 := w] == a.versions[..|a.versions| - 1] + [w];
    } else {
      assert (a.versions + [FreshDraft(a, next)])[|a.versions| := w] == a.versions + [w];
    }
  }

  /** What is stored after an accepted edit: the draft it started from, changed by this edit and nothing
      else, in an agent that is otherwise the same, among agents that are all the same. */
  lemma EditWrites(ops: seq<Operation>, id: nat, e: Edit) returns (v: Version, w: Version)
    requires Answer(ops, EditDraft(id, e)).Ok?
    ensures var before, now := Stored(ops), Stored(ops + [EditDraft(id, e)]);
      && id in before && id in now && OthersSame(before, now, id)
      && StartsFrom(before[id], v) && DraftBecame(before[id], now[id], w) && EditDid(v, w, e)
  {
    hide History, EditRefused, EditedVersion, WithDraft, SetDraft, StartsFrom, DraftBecame, EditDid, AllFit, CommandsUnique;
    HistoryNext(ops, EditDraft(id, e));
    EveryHistoryFits(ops);
    var c := History(ops);
    ItFits(c, id);
    v := DraftFor(c.agents, c.next, id);
    w := EditedVersion(c.agents, id, v, e);
    DraftForStarts(c.agents[id], c.next);
    EditIs(c.agents, id, v, e);
    SetDraftBecame(c.agents[id], c.next, w);
  }

  lemma ItFits(c: Catalog, id: nat)
    requires Fits(c) && id in c.agents
    ensures AgentFits(c.agents[id], c.next)
  {
  }

  predicate Binds(v: Version, skill: nat) {
    exists i :: 0 <= i < |v.skills| && v.skills[i].skill == skill
  }

  predicate HasPublished(s: Skill, id: nat) {
    exists i :: 0 <= i < |s.versions| && s.versions[i].id == id && s.versions[i].published
  }

  /** Why an edit of a draft that starts from v is refused. */
  predicate EditFails(agents: map<nat, Agent>, id: nat, v: Version, e: Edit, error: ServiceError) {
    match e
    case SetFields(data, providers) =>
      error == ProviderNotFound
      && (match data.provider case Some(Some(p)) => p !in providers case _ => false)
    case SetSkill(skill, catalogue, pinned, _, _, _) =>
      if skill !in catalogue then error == SkillNotFound
      else error == InvalidSkillVersion && pinned.Some? && !HasPublished(catalogue[skill], pinned.value)
    case UnsetSkill(skill) => error == BindingNotFound && !Binds(v, skill)
    case OrderSkills(ids) => error == BindingNotFound && exists i :: 0 <= i < |ids| && !Binds(v, ids[i])
    case SetTool(tool, tools, _) => error == ToolNotFound && tool !in tools
    case UnsetTool(tool) => error == BindingNotFound && tool !in v.tools
    case SetHandoff(target, _) => if target == id then error == SelfHandoff else error == AgentNotFound && target !in agents
    case UnsetHandoff(target) => error == HandoffNotFound && target !in v.handoffs
  }

  lemma {:induction false} BindingIs(bs: seq<SkillBinding>, id: nat)
    ensures BindingOf(bs, id).Some? <==> exists i :: 0 <= i < |bs| && bs[i].skill == id
  {
    if bs != [] && bs[|bs| - 1].skill != id {
      BindingIs(bs[..|bs| - 1], id);
    }
  }

  lemma AttachedIs(v: Version, ids: seq<nat>)
    ensures AllAttached(v.skills, ids) <==> forall i :: 0 <= i < |ids| ==> Binds(v, ids[i])
  {
    forall i | 0 <= i < |ids| ensures ids[i] in Skills(v.skills) <==> Binds(v, ids[i]) {
      if j :| 0 <= j < |v.skills| && v.skills[j].skill == ids[i] {
        assert Skills(v.skills)[j] == ids[i];
      }
    }
  }

  lemma RefusalIs(agents: map<nat, Agent>, id: nat, v: Version, e: Edit)
    ensures match EditRefused(agents, id, v, e)
      case Some(error) => EditFails(agents, id, v, e, error)
      case None => forall error :: !EditFails(agents, id, v, e, error)
  {
    match e
    case SetSkill(skill, catalogue, pinned, _, _, _) =>
      if skill in catalogue && pinned.Some? {
        PinnedFollows(catalogue[skill].versions, pinned.value);
      }
    case UnsetSkill(skill) => BindingIs(v.skills, skill);
    case OrderSkills(ids) => AttachedIs(v, ids);
    case _ =>
  }

  /** When an edit is refused, and how. */
  lemma EditAnswers(ops: seq<Operation>, id: nat, e: Edit) returns (v: Version)
    ensures var agents, answer := Stored(ops), Answer(ops, EditDraft(id, e));
      if id !in agents then answer == Err(AgentNotFound)
      else
        StartsFrom(agents[id], v)
        && (answer.Ok? ==> answer == Ok(id) && forall error :: !EditFails(agents, id, v, e, error))
        && (answer.Err? ==> EditFails(agents, id, v, e, answer.error))
  {
    hide History, EditRefused, WithDraft, StartsFrom, EditFails, AllFit, CommandsUnique;
    EveryHistoryFits(ops);
    var c := History(ops);
    v := if id in c.agents then DraftFor(c.agents, c.next, id) else Version(0, 1, false, None, DEFAULTS, [], map[], map[]);
    if id in c.agents {
      ItFits(c, id);
      DraftForStarts(c.agents[id], c.next);
      RefusalIs(c.agents, id, v, e);
    }
  }

  // ----- creating, publishing, connecting -----

  predicate SlugUsed(agents: map<nat, Agent>, slug: string) {
    exists x :: x in agents && agents[x].slug == slug
  }

  /** A slug is used once. A new agent is a draft without an active version; its first version has the
      given fields and no bindings. */
  lemma CreateWrites(ops: seq<Operation>, slug: string, command: string, data: VersionInput)
    ensures var before, answer := Stored(ops), Answer(ops, Create(slug, command, data));
      if SlugUsed(before, slug) then answer == Err(SlugTaken)
      else
        var now := Stored(ops + [Create(slug, command, data)]);
        && answer.Ok? && answer.value !in before && answer.value in now && OthersSame(before, now, answer.value)
        && var a := now[answer.value];
           && a.slug == slug && a.command == command && a.status == Draft && a.activeVersion == None && |a.versions| == 1
           && var v := a.versions[0];
              && v.number == 1 && !v.published && v.note == data.note && v.skills == [] && v.tools == map[] && v.handoffs == map[]
              && FieldsGiven(Settings(None, None, "", "", "{}", "{}", "{}", true, 20, 300), v.settings, data)
  {
    HistoryNext(ops, Create(slug, command, data));
    EveryHistoryFits(ops);
    hide History, AgentFits, CommandsUnique;
  }

  predicate Targets(v: Version, agents: map<nat, Agent>) {
    forall t :: t in v.handoffs ==> t in agents
  }

  /** A draft can be published if it has instructions, its command is free, its handoffs lead to agents
      and nothing else is wrong; it then is the active version of an active agent, as it was saved. */
  lemma PublishWrites(ops: seq<Operation>, id: nat, note: Option<string>, otherwise: bool)
    requires id in Stored(ops) && DraftWaits(Stored(ops)[id])
    ensures var before, answer := Stored(ops), Answer(ops, Publish(id, None, note, otherwise));
      var a := before[id];
      var v := a.versions[|a.versions| - 1];
      if Blank(v.settings.instructions) || otherwise || TakenBy(before, id, a.command) || !Targets(v, before)
      then answer == Err(CannotBePublished)
      else
        var now := Stored(ops + [Publish(id, None, note, otherwise)]);
        && answer == Ok(id) && id in now && OthersSame(before, now, id)
        && now[id].slug == a.slug && now[id].command == a.command && now[id].status == Active
        && now[id].activeVersion == Some(v.id) && |now[id].versions| == |a.versions|
        && now[id].versions[..|a.versions| - 1] == a.versions[..|a.versions| - 1]
        && var w := now[id].versions[|a.versions| - 1];
           w.published && w.id == v.id && w.number == v.number && SameContent(v, w)
           && w.note == (if note.Some? && note.value != "" then note else v.note)
  {
    HistoryNext(ops, Publish(id, None, note, otherwise));
    hide History, Blank;
  }

  /** Going back: a published version of the agent becomes active again, under the same conditions, and no
      version changes; any other version is refused. */
  lemma RollbackWrites(ops: seq<Operation>, id: nat, versionId: nat, note: Option<string>, otherwise: bool) returns (k: nat)
    requires id in Stored(ops)
    ensures var before, answer := Stored(ops), Answer(ops, Publish(id, Some(versionId), note, otherwise));
      var a := before[id];
      if forall i :: 0 <= i < |a.versions| && a.versions[i].id == versionId ==> !a.versions[i].published
      then answer == Err(InvalidVersion)
      else
        && k < |a.versions| && a.versions[k].id == versionId
        && if Blank(a.versions[k].settings.instructions) || otherwise || TakenBy(before, id, a.command) || !Targets(a.versions[k], before)
           then answer == Err(CannotBePublished)
           else
             var now := Stored(ops + [Publish(id, Some(versionId), note, otherwise)]);
             && answer == Ok(id) && id in now && OthersSame(before, now, id)
             && now[id] == a.(activeVersion := Some(versionId), status := Active)
  {
    hide History, Blank, Fits, AgentFits, VersionAt;
    HistoryNext(ops, Publish(id, Some(versionId), note, otherwise));
    EveryHistoryFits(ops);
    ItFits(History(ops), id);
    k := VersionNamed(Stored(ops)[id], History(ops).next, versionId);
  }

  /** An id names at most one version of an agent. */
  lemma VersionNamed(a: Agent, next: nat, versionId: nat) returns (k: nat)
    requires AgentFits(a, next)
    ensures VersionAt(a.versions, versionId).Some? ==>
      k < |a.versions| && VersionAt(a.versions, versionId) == Some(a.versions[k]) && a.versions[k].id == versionId
    ensures forall i :: 0 <= i < |a.versions| && a.versions[i].id == versionId ==> VersionAt(a.versions, versionId) == Some(a.versions[i])
  {
    hide VersionAt, SkillsUnique;
    VersionAtGives(a.versions, versionId);
    k := 0;
    if VersionAt(a.versions, versionId).Some? {
      k :| 0 <= k < |a.versions| && a.versions[k].id == versionId && a.versions[k] == VersionAt(a.versions, versionId).value;
    }
  }

  /** Nothing waits to be published. */
  lemma NothingToPublish(ops: seq<Operation>, id: nat, note: Option<string>, otherwise: bool)
    requires id !in Stored(ops) || !DraftWaits(Stored(ops)[id])
    ensures Answer(ops, Publish(id, None, note, otherwise)) == Err(if id in Stored(ops) then NoDraft else AgentNotFound)
  {
    hide History;
  }

  /** A connection looks at the instructions of the active version or, without one, of the draft. */
  predicate LacksText(a: Agent) {
    if a.activeVersion.Some? then
      forall i :: 0 <= i < |a.versions| && IsActiveOf(a, i) ==> Blank(a.versions[i].settings.instructions)
    else !DraftWaits(a) || Blank(a.versions[|a.versions| - 1].settings.instructions)
  }

  /** The draft v as a connection publishes it. */
  predicate ConnectedAs(v: Version, w: Version, lacksText: bool, text: string) {
    && w.published && w.id == v.id && w.number == v.number
    && w.skills == v.skills && w.tools == v.tools && w.handoffs == v.handoffs
    && w.settings == (if lacksText then v.settings.(instructions := text) else v.settings)
    && w.note == (if lacksText then Some("existing agent connection") else v.note)
  }

  /** Connecting an agent activates it; a draft is published with it, whatever it says, and one is written
      when the version looked at has no instructions. */
  lemma ConnectWrites(ops: seq<Operation>, id: nat, isOrigin: bool, keyRefused: bool, text: string) returns (v: Version, w: Version)
    ensures var before, answer := Stored(ops), Answer(ops, Connect(id, isOrigin, keyRefused, text));
      var now := Stored(ops + [Connect(id, isOrigin, keyRefused, text)]);
      if id !in before then answer == Err(AgentNotFound)
      else if keyRefused then answer == Err(InvalidApiKey)
      else if isOrigin then answer == Ok(id) && now == before
      else if TakenBy(before, id, before[id].command) then answer == Err(IndexViolated)
      else
        && answer == Ok(id) && id in now && OthersSame(before, now, id)
        && if DraftWaits(before[id]) || LacksText(before[id])
           then StartsFrom(before[id], v) && ConnectedAs(v, w, LacksText(before[id]), text)
                && DraftBecame(before[id].(status := Active, activeVersion := Some(w.id)), now[id], w)
           else now[id] == before[id].(status := Active)
  {
    hide History, Blank, AllFit, CommandsUnique, StartsFrom, DraftBecame, Connected;
    HistoryNext(ops, Connect(id, isOrigin, keyRefused, text));
    EveryHistoryFits(ops);
    var c := History(ops);
    v := Version(0, 1, false, None, DEFAULTS, [], map[], map[]);
    w := v;
    if id in c.agents {
      ItFits(c, id);
      v, w := ConnectedIs(c.agents[id], c.next, text);
    }
  }

  lemma LacksTextIs(a: Agent, next: nat)
    requires AgentFits(a, next)
    ensures NeedsText(a) <==> LacksText(a)
  {
    hide Blank;
    ActiveIsPublished(a, next);
    if a.activeVersion.Some? {
      VersionAtGives(a.versions, a.activeVersion.value);
      var i :| 0 <= i < |a.versions| && a.versions[i].id == a.activeVersion.value && a.versions[i] == ActiveOf(a).value;
      assert IsActiveOf(a, i);
    }
  }

  /** The draft as a connection leaves it. */
  function Finished(a: Agent, v: Version, text: string): Version {
    (if NeedsText(a) then Patched(v, InstructionsOnly(text)) else v).(published := true)
  }

  lemma ConnectedSets(a: Agent, next: nat, text: string)
    requires !DraftIn(WithDraft(a, next)).published
    ensures var d := WithDraft(a, next);
      var w := Finished(a, DraftIn(d), text);
      Connected(a, next, text) == if NeedsText(a) || DraftWaits(a)
                                  then SetDraft(d, w).(status := Active, activeVersion := Some(w.id))
                                  else a.(status := Active)
  {
    hide NeedsText, FreshDraft;
  }

  lemma FinishedAs(a: Agent, v: Version, text: string)
    ensures ConnectedAs(v, Finished(a, v, text), NeedsText(a), text)
  {
    hide NeedsText;
  }

  lemma ConnectedIs(a: Agent, next: nat, text: string) returns (v: Version, w: Version)
    requires AgentFits(a, next)
    ensures if DraftWaits(a) || LacksText(a)
      then StartsFrom(a, v) && ConnectedAs(v, w, LacksText(a), text)
           && DraftBecame(a.(status := Active, activeVersion := Some(w.id)), Connected(a, next, text), w)
      else Connected(a, next, text) == a.(status := Active)
  {
    hide AgentFits, LacksText, NeedsText, StartsFrom, FreshDraft, Connected, ConnectedAs, Finished, SetDraft;
    LacksTextIs(a, next);
    DraftForStarts(a, next);
    v := DraftIn(WithDraft(a, next));
    w := Finished(a, v, text);
    FinishedAs(a, v, text);
    ConnectedSets(a, next, text);
    SetDraftBecame(a, next, w);
  }

  // ----- deletions -----

  /** A version without what refers to a deleted row. */
  predicate Lost(v: Version, w: Version, row: Row) {
    match row
    case AgentRow(agent) => w == v.(handoffs := v.handoffs - {agent})
    case ProviderRow(provider) =>
      w == (if v.settings.provider == Some(provider) then v.(settings := v.settings.(provider := None)) else v)
    case ToolRow(tool) => w == v.(tools := v.tools - {tool})
  }

  /** All agents are still there, except this one, and are the same but for what was deleted. */
  predicate AllLost(before: map<nat, Agent>, now: map<nat, Agent>, gone: set<nat>, row: Row) {
    && now.Keys == before.Keys - gone
    && forall x :: x in now ==> now[x] == before[x].(versions := now[x].versions) && VersionsLost(before[x].versions, now[x].versions, row)
  }

  predicate VersionsLost(before: seq<Version>, now: seq<Version>, row: Row) {
    |now| == |before| && forall i :: 0 <= i < |now| ==> Lost(before[i], now[i], row)
  }

  predicate Needed(a: Agent, i: int) {
    0 <= i < |a.versions| && (Some(a.versions[i].id) == a.activeVersion || !a.versions[i].published)
  }

  /** An active version or a draft has this provider. */
  predicate NeedsProvider(a: Agent, provider: nat) {
    exists i :: Needed(a, i) && 0 <= i < |a.versions| && a.versions[i].settings.provider == Some(provider)
  }

  predicate ProviderNeeded(agents: map<nat, Agent>, provider: nat) {
    exists x :: x in agents && NeedsProvider(agents[x], provider)
  }

  /** An active version has this tool enabled. */
  predicate NeedsTool(a: Agent, tool: nat) {
    exists i :: 0 <= i < |a.versions| && IsActiveOf(a, i) && tool in a.versions[i].tools && a.versions[i].tools[tool].enabled
  }

  predicate ToolNeeded(agents: map<nat, Agent>, tool: nat) {
    exists x :: x in agents && NeedsTool(agents[x], tool)
  }

  lemma StrippedIsLost(agents: map<nat, Agent>, row: Row)
    ensures AllLost(agents, AllStripped(agents, row), {}, row)
  {
  }

  /** What a deletion asks for, and what it takes away. */
  lemma DeletionWrites(ops: seq<Operation>, op: Operation)
    requires Deletes(op)
    ensures var before, now, answer := Stored(ops), Stored(ops + [op]), Answer(ops, op);
      match op
      case DeleteAgent(id, chatted) =>
        if id !in before then answer == Err(AgentNotFound)
        else if chatted then answer == Err(AgentInUse)
        else answer == Ok(id) && AllLost(before, now, {id}, AgentRow(id))
      case DeleteProvider(id, known) =>
        if !known then answer == Err(ProviderNotFound)
        else if ProviderNeeded(before, id) then answer == Err(ProviderInUse)
        else answer == Ok(id) && AllLost(before, now, {}, ProviderRow(id))
      case DeleteTool(id, known) =>
        if !known then answer == Err(IntegrationNotFound)
        else if ToolNeeded(before, id) then answer == Err(IntegrationInUse)
        else answer == Ok(id) && AllLost(before, now, {}, ToolRow(id))
  {
    hide History, AllStripped, AllLost;
    HistoryNext(ops, op);
    var agents := Stored(ops);
    match op
    case DeleteAgent(id, chatted) => StrippedIsLost(agents - {id}, AgentRow(id)); OneGone(agents, id);
    case DeleteProvider(id, known) => ProviderIsNeeded(agents, id); StrippedIsLost(agents, ProviderRow(id));
    case DeleteTool(id, known) => ToolIsNeeded(agents, id); StrippedIsLost(agents, ToolRow(id));
  }

  lemma OneGone(agents: map<nat, Agent>, id: nat)
    ensures forall now, row :: AllLost(agents - {id}, now, {}, row) ==> AllLost(agents, now, {id}, row)
  {
  }

  lemma ProviderIsNeeded(agents: map<nat, Agent>, provider: nat)
    ensures ProviderUsed(agents, provider) <==> ProviderNeeded(agents, provider)
  {
    forall x | x in agents ensures UsesProvider(agents[x], provider) <==> NeedsProvider(agents[x], provider) {
      var a := agents[x];
      if i :| 0 <= i < |a.versions| && a.versions[i].settings.provider == Some(provider)
              && (a.activeVersion == Some(a.versions[i].id) || !a.versions[i].published) {
        assert Needed(a, i);
      }
    }
  }

  lemma ToolIsNeeded(agents: map<nat, Agent>, tool: nat)
    ensures ToolUsed(agents, tool) <==> ToolNeeded(agents, tool)
  {
    forall x | x in agents ensures UsesTool(agents[x], tool) <==> NeedsTool(agents[x], tool) {
      var a := agents[x];
      if i :| 0 <= i < |a.versions| && a.activeVersion == Some(a.versions[i].id) && tool in a.versions[i].tools
              && a.versions[i].tools[tool].enabled {
        assert IsActiveOf(a, i);
      }
    }
  }

  // ----- what holds after any requests -----

  /** Handoffs lead from every version of every agent to agents that exist, never to itself. */
  predicate HandoffsLead(agents: map<nat, Agent>) {
    forall x :: x in agents ==> AgentLeads(agents, x, agents[x])
  }

  predicate AgentLeads(agents: map<nat, Agent>, x: nat, a: Agent) {
    forall i :: 0 <= i < |a.versions| ==> VersionLeads(agents, x, a.versions[i])
  }

  predicate VersionLeads(agents: map<nat, Agent>, x: nat, v: Version) {
    forall t :: t in v.handoffs ==> t in agents && t != x
  }

  predicate SlugsUnique(agents: map<nat, Agent>) {
    forall x, y :: x in agents && y in agents && x != y ==> agents[x].slug != agents[y].slug
  }

  lemma LeadsFurther(agents: map<nat, Agent>, now: map<nat, Agent>, x: nat, a: Agent)
    requires AgentLeads(agents, x, a) && agents.Keys <= now.Keys
    ensures AgentLeads(now, x, a)
  {
  }

  /** One agent's row changes; no agent goes. */
  lemma OneLeads(before: map<nat, Agent>, now: map<nat, Agent>, id: nat)
    requires HandoffsLead(before) && OthersSame(before, now, id) && id in now && AgentLeads(now, id, now[id])
    ensures HandoffsLead(now)
  {
    assert before.Keys <= now.Keys;
    forall x | x in now ensures AgentLeads(now, x, now[x]) {
      if x != id {
        LeadsFurther(before, now, x, before[x]);
      }
    }
  }

  lemma OneSlug(before: map<nat, Agent>, now: map<nat, Agent>, id: nat)
    requires SlugsUnique(before) && OthersSame(before, now, id) && id in before && id in now && now[id].slug == before[id].slug
    ensures SlugsUnique(now)
  {
  }

  lemma StartLeads(agents: map<nat, Agent>, x: nat, a: Agent, v: Version)
    requires AgentLeads(agents, x, a) && StartsFrom(a, v)
    ensures VersionLeads(agents, x, v)
  {
  }

  lemma BecameLeads(agents: map<nat, Agent>, x: nat, before: Agent, now: Agent, w: Version)
    requires AgentLeads(agents, x, before) && DraftBecame(before, now, w) && VersionLeads(agents, x, w)
    ensures AgentLeads(agents, x, now)
  {
    hide VersionLeads;
  }

  lemma EditLeads(ops: seq<Operation>, id: nat, e: Edit)
    requires HandoffsLead(Stored(ops)) && SlugsUnique(Stored(ops)) && Answer(ops, EditDraft(id, e)).Ok?
    ensures HandoffsLead(Stored(ops + [EditDraft(id, e)])) && SlugsUnique(Stored(ops + [EditDraft(id, e)]))
  {
    hide Stored, Answer, StartsFrom, EditDid, AgentLeads, VersionLeads;
    var v, w := EditWrites(ops, id, e);
    var started := EditAnswers(ops, id, e);
    var before, now := Stored(ops), Stored(ops + [EditDraft(id, e)]);
    assert AgentLeads(before, id, before[id]);
    StartLeads(before, id, before[id], v);
    EditedLeads(before, id, v, w, e, started);
    BecameLeads(before, id, before[id], now[id], w);
    LeadsFurther(before, now, id, now[id]);
    OneLeads(before, now, id);
    OneSlug(before, now, id);
  }

  lemma EditedLeads(agents: map<nat, Agent>, id: nat, v: Version, w: Version, e: Edit, started: Version)
    requires VersionLeads(agents, id, v) && EditDid(v, w, e) && forall error :: !EditFails(agents, id, started, e, error)
    ensures VersionLeads(agents, id, w)
  {
    if e.SetHandoff? {
      assert !EditFails(agents, id, started, e, SelfHandoff) && !EditFails(agents, id, started, e, AgentNotFound);
      forall t | t in w.handoffs ensures t in agents && t != id {
        if t != e.target {
          assert t in w.handoffs - {e.target};
        }
      }
    }
  }

  lemma SameVersionsLead(agents: map<nat, Agent>, x: nat, a: Agent, b: Agent)
    requires AgentLeads(agents, x, a) && b.versions == a.versions
    ensures AgentLeads(agents, x, b)
  {
  }

  lemma PublishLeads(ops: seq<Operation>, op: Operation)
    requires HandoffsLead(Stored(ops)) && SlugsUnique(Stored(ops)) && op.Publish? && Answer(ops, op).Ok?
    ensures HandoffsLead(Stored(ops + [op])) && SlugsUnique(Stored(ops + [op]))
  {
    hide Stored, AgentLeads, VersionLeads, Blank, Targets;
    var before, now := Stored(ops), Stored(ops + [op]);
    assert op.id in before by {
      PublishKnows(ops, op);
    }
    if op.versionId.Some? {
      var k := RollbackWrites(ops, op.id, op.versionId.value, op.note, op.otherwise);
      assert AgentLeads(before, op.id, before[op.id]);
      SameVersionsLead(before, op.id, before[op.id], now[op.id]);
    } else {
      assert DraftWaits(before[op.id]) by {
        if !DraftWaits(before[op.id]) {
          NothingToPublish(ops, op.id, op.note, op.otherwise);
        }
      }
      PublishWrites(ops, op.id, op.note, op.otherwise);
      PublishedLeads(before, op.id, before[op.id], now[op.id]);
    }
    LeadsFurther(before, now, op.id, now[op.id]);
    OneLeads(before, now, op.id);
    OneSlug(before, now, op.id);
  }

  lemma PublishKnows(ops: seq<Operation>, op: Operation)
    requires op.Publish? && Answer(ops, op).Ok?
    ensures op.id in Stored(ops)
  {
    hide History;
  }

  lemma PublishedLeads(agents: map<nat, Agent>, x: nat, a: Agent, b: Agent)
    requires HandoffsLead(agents) && x in agents && a == agents[x] && DraftWaits(a) && |b.versions| == |a.versions|
    requires b.versions[..|a.versions| - 1] == a.versions[..|a.versions| - 1]
    requires b.versions[|a.versions| - 1].handoffs == a.versions[|a.versions| - 1].handoffs
    ensures AgentLeads(agents, x, b)
  {
    assert AgentLeads(agents, x, a);
    forall i | 0 <= i < |b.versions| ensures VersionLeads(agents, x, b.versions[i]) {
      assert VersionLeads(agents, x, a.versions[i]);
      if i < |a.versions| - 1 {
        assert b.versions[i] == b.versions[..|a.versions| - 1][i] && a.versions[i] == a.versions[..|a.versions| - 1][i];
      }
    }
  }

  lemma ConnectLeads(ops: seq<Operation>, op: Operation)
    requires HandoffsLead(Stored(ops)) && SlugsUnique(Stored(ops)) && op.Connect? && Answer(ops, op).Ok?
    ensures HandoffsLead(Stored(ops + [op])) && SlugsUnique(Stored(ops + [op]))
  {
    hide Stored, Answer, AgentLeads, VersionLeads, StartsFrom, LacksText, Blank, TakenBy;
    var before, now := Stored(ops), Stored(ops + [op]);
    var v, w := ConnectWrites(ops, op.id, op.isOrigin, op.keyRefused, op.text);
    if !op.isOrigin {
      assert AgentLeads(before, op.id, before[op.id]);
      if DraftWaits(before[op.id]) || LacksText(before[op.id]) {
        StartLeads(before, op.id, before[op.id], v);
        SameHandoffsLead(before, op.id, v, w);
        ActiveLeads(before, op.id, before[op.id], w.id);
        BecameLeads(before, op.id, before[op.id].(status := Active, activeVersion := Some(w.id)), now[op.id], w);
      } else {
        SameVersionsLead(before, op.id, before[op.id], now[op.id]);
      }
      LeadsFurther(before, now, op.id, now[op.id]);
      OneLeads(before, now, op.id);
      OneSlug(before, now, op.id);
    }
  }

  lemma SameHandoffsLead(agents: map<nat, Agent>, x: nat, v: Version, w: Version)
    requires VersionLeads(agents, x, v) && w.handoffs == v.handoffs
    ensures VersionLeads(agents, x, w)
  {
  }

  lemma ActiveLeads(agents: map<nat, Agent>, x: nat, a: Agent, versionId: nat)
    requires AgentLeads(agents, x, a)
    ensures AgentLeads(agents, x, a.(status := Active, activeVersion := Some(versionId)))
  {
  }

  lemma DeletionLeads(before: map<nat, Agent>, now: map<nat, Agent>, gone: set<nat>, row: Row)
    requires HandoffsLead(before) && SlugsUnique(before) && AllLost(before, now, gone, row)
    requires gone == (if row.AgentRow? then {row.agent} else {})
    ensures HandoffsLead(now) && SlugsUnique(now)
  {
    forall x | x in now ensures AgentLeads(now, x, now[x]) {
      assert AgentLeads(before, x, before[x]);
      forall i | 0 <= i < |now[x].versions| ensures VersionLeads(now, x, now[x].versions[i]) {
        assert VersionLeads(before, x, before[x].versions[i]) && Lost(before[x].versions[i], now[x].versions[i], row);
      }
    }
  }

  lemma StepLeads(ops: seq<Operation>, op: Operation)
    requires HandoffsLead(Stored(ops)) && SlugsUnique(Stored(ops))
    ensures HandoffsLead(Stored(ops + [op])) && SlugsUnique(Stored(ops + [op]))
  {
    if Answer(ops, op).Err? {
      RefusedChangesNothing(ops, op);
    } else {
      hide Stored, Answer, HandoffsLead, SlugsUnique, StartsFrom;
      match op
      case Create(slug, command, data) => CreateLeads(ops, slug, command, data);
      case Update(id, renamed, status) => UpdateLeads(ops, id, renamed, status);
      case EditDraft(id, e) => EditLeads(ops, id, e);
      case Publish(_, _, _, _) => PublishLeads(ops, op);
      case Connect(_, _, _, _) => ConnectLeads(ops, op);
      case DeleteAgent(id, _) =>
        DeletionWrites(ops, op);
        DeletionLeads(Stored(ops), Stored(ops + [op]), {id}, AgentRow(id));
      case DeleteProvider(id, _) =>
        DeletionWrites(ops, op);
        DeletionLeads(Stored(ops), Stored(ops + [op]), {}, ProviderRow(id));
      case DeleteTool(id, _) =>
        DeletionWrites(ops, op);
        DeletionLeads(Stored(ops), Stored(ops + [op]), {}, ToolRow(id));
    }
  }

  lemma CreateLeads(ops: seq<Operation>, slug: string, command: string, data: VersionInput)
    requires HandoffsLead(Stored(ops)) && SlugsUnique(Stored(ops)) && Answer(ops, Create(slug, command, data)).Ok?
    ensures var now := Stored(ops + [Create(slug, command, data)]); HandoffsLead(now) && SlugsUnique(now)
  {
    hide Stored, Answer, FieldsGiven;
    CreateWrites(ops, slug, command, data);
    var before, now, id := Stored(ops), Stored(ops + [Create(slug, command, data)]), Answer(ops, Create(slug, command, data)).value;
    assert AgentLeads(now, id, now[id]);
    hide AgentLeads;
    OneLeads(before, now, id);
  }

  lemma UpdateLeads(ops: seq<Operation>, id: nat, renamed: Option<string>, status: Option<Status>)
    requires HandoffsLead(Stored(ops)) && SlugsUnique(Stored(ops)) && Answer(ops, Update(id, renamed, status)).Ok?
    ensures var now := Stored(ops + [Update(id, renamed, status)]); HandoffsLead(now) && SlugsUnique(now)
  {
    hide Stored, Answer, AgentLeads;
    UpdateWrites(ops, id, renamed, status);
    var before, now := Stored(ops), Stored(ops + [Update(id, renamed, status)]);
    assert AgentLeads(before, id, before[id]);
    SameVersionsLead(before, id, before[id], now[id]);
    LeadsFurther(before, now, id, now[id]);
    OneLeads(before, now, id);
    OneSlug(before, now, id);
  }

  /** After any requests whatever, slugs are unique, and every handoff of every version, published or not,
      leads to another agent that exists. */
  lemma {:induction false} EveryHandoffLeads(ops: seq<Operation>)
    ensures HandoffsLead(Stored(ops)) && SlugsUnique(Stored(ops))
  {
    if ops != [] {
      EveryHandoffLeads(ops[..|ops| - 1]);
      StepLeads(ops[..|ops| - 1], ops[|ops| - 1]);
      assert ops == ops[..|ops| - 1] + [ops[|ops| - 1]];
    }
  }
}
