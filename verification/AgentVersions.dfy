/** Agents with copy-on-write drafts, immutable published versions and commands unique when active. */
module AgentVersions {
  import opened Options
  import opened SkillOrder
  import opened WhiteSpace
  import opened PromptComposition

  datatype Status = Draft | Active | Disabled

  datatype ToolBinding = ToolBinding(enabled: bool, settings: string, maxCalls: Option<nat>)

  datatype Handoff = Handoff(hint: string, failureRoute: bool)

  /** The copied fields of a version; JSON values are kept as text. */
  datatype Settings = Settings(
    provider: Option<nat>, model: Option<string>, instructions: string, handoffDescription: string,
    modelSettings: string, inputSchema: string, outputSchema: string,
    canAsk: bool, maxSteps: nat, timeoutSeconds: nat)

  const DEFAULTS := Settings(None, None, "", "", "{}", "{}", "{}", true, 20, 300)

  datatype Version = Version(
    id: nat, number: nat, published: bool, note: Option<string>, settings: Settings,
    skills: seq<SkillBinding>, tools: map<nat, ToolBinding>, handoffs: map<nat, Handoff>)

  datatype Agent = Agent(slug: string, command: string, status: Status, activeVersion: Option<nat>, versions: seq<Version>)

  /** What an admin may set on a draft; None leaves a field alone. The provider and the model can
      also be cleared. */
  datatype VersionInput = VersionInput(
    provider: Option<Option<nat>>, model: Option<Option<string>>, instructions: Option<string>,
    handoffDescription: Option<string>, modelSettings: Option<string>, inputSchema: Option<string>,
    outputSchema: Option<string>, canAsk: Option<bool>, maxSteps: Option<nat>, timeoutSeconds: Option<nat>,
    note: Option<string>)

  datatype ServiceError =
    | AgentNotFound | SlugTaken | CommandTaken | NoPublishedVersion | ProviderNotFound | InvalidVersion | NoDraft
    | CannotBePublished | SkillNotFound | InvalidSkillVersion | BindingNotFound | ToolNotFound | SelfHandoff
    | HandoffNotFound | InvalidApiKey | AgentInUse | ProviderInUse | IntegrationNotFound | IntegrationInUse
    /** The database's unique index on active commands refused the write. */
    | IndexViolated

  type Outcome = Result<nat, ServiceError>

  // ----- what is promised of an agent -----

  /** Version numbers are exactly 1..n, and only the newest version can be a draft. */
  predicate VersionsFit(versions: seq<Version>, bound: nat) {
    && (forall i :: 0 <= i < |versions| ==> versions[i].number == i + 1 && versions[i].id < bound && SkillsUnique(versions[i].skills))
    && (forall i, j :: 0 <= i < j < |versions| ==> versions[i].id != versions[j].id)
    && (forall i :: 0 <= i < |versions| - 1 ==> versions[i].published)
  }

  predicate PublishedHere(versions: seq<Version>, id: nat) {
    exists i :: 0 <= i < |versions| && versions[i].id == id && versions[i].published
  }

  predicate AgentFits(a: Agent, bound: nat) {
    && VersionsFit(a.versions, bound)
    && (a.activeVersion.Some? ==> PublishedHere(a.versions, a.activeVersion.value))
    && (a.status == Active ==> a.activeVersion.Some?)
  }

  ghost predicate CommandsUnique(agents: map<nat, Agent>) {
    forall x, y :: x in agents && y in agents && x != y && agents[x].status == agents[y].status == Active
      ==> agents[x].command != agents[y].command
  }

  /** Versions are never dropped or renumbered, and published ones never change in any way. */
  predicate Kept(before: seq<Version>, now: seq<Version>) {
    |before| <= |now| && forall i :: 0 <= i < |before| ==>
      now[i].id == before[i].id && now[i].number == before[i].number && (before[i].published ==> now[i] == before[i])
  }

  ghost predicate AllKept(before: map<nat, Agent>, now: map<nat, Agent>) {
    forall x :: x in before ==> x in now && Kept(before[x].versions, now[x].versions)
  }

  // ----- lookups -----

  predicate HasDraft(versions: seq<Version>) {
    versions != [] && !versions[|versions| - 1].published
  }

  function VersionAt(versions: seq<Version>, id: nat): Option<Version> {
    if versions == [] then None
    else if versions[0].id == id then Some(versions[0])
    else VersionAt(versions[1..], id)
  }

  function ActiveOf(a: Agent): Option<Version> {
    if a.activeVersion.Some? then VersionAt(a.versions, a.activeVersion.value) else None
  }

  lemma {:induction false} VersionAtGives(versions: seq<Version>, id: nat)
    ensures VersionAt(versions, id).Some? <==> exists i :: 0 <= i < |versions| && versions[i].id == id
    ensures VersionAt(versions, id).Some? ==>
      exists i :: 0 <= i < |versions| && versions[i].id == id && versions[i] == VersionAt(versions, id).value
  {
    if versions != [] && versions[0].id != id {
      VersionAtGives(versions[1..], id);
      if exists i :: 0 <= i < |versions| && versions[i].id == id {
        var i :| 0 <= i < |versions| && versions[i].id == id;
        assert versions[1..][i - 1] == versions[i];
      }
    }
  }

  // ----- the draft -----

  /** A new draft: the next number, and a copy of the active version's settings and bindings. */
  function FreshDraft(a: Agent, id: nat): Version {
    match ActiveOf(a)
    case None => Version(id, |a.versions| + 1, false, None, DEFAULTS, [], map[], map[])
    case Some(v) => Version(id, |a.versions| + 1, false, None, v.settings, v.skills, v.tools, v.handoffs)
  }

  /** The agent with a draft to edit. */
  function WithDraft(a: Agent, id: nat): Agent {
    if HasDraft(a.versions) then a else a.(versions := a.versions + [FreshDraft(a, id)])
  }

  function DraftIn(a: Agent): Version
    requires a.versions != []
  {
    a.versions[|a.versions| - 1]
  }

  function SetDraft(a: Agent, v: Version): Agent
    requires a.versions != []
  {
    a.(versions := a.versions[|a.versions| - 1 := v])
  }

  predicate IsActive(a: Agent, v: Version) {
    v in a.versions && v.published && Some(v.id) == a.activeVersion && SkillsUnique(v.skills)
  }

  lemma ActiveIsPublished(a: Agent, bound: nat)
    requires AgentFits(a, bound)
    ensures ActiveOf(a).Some? <==> a.activeVersion.Some?
    ensures ActiveOf(a).Some? ==> IsActive(a, ActiveOf(a).value)
  {
    if a.activeVersion.Some? {
      VersionAtGives(a.versions, a.activeVersion.value);
      var i :| 0 <= i < |a.versions| && a.versions[i].id == a.activeVersion.value && a.versions[i].published;
      var j :| 0 <= j < |a.versions| && a.versions[j].id == a.activeVersion.value && a.versions[j] == ActiveOf(a).value;
      assert i == j;
    }
  }

  lemma WithDraftFits(a: Agent, id: nat)
    requires AgentFits(a, id)
    ensures AgentFits(WithDraft(a, id), id + 1) && HasDraft(WithDraft(a, id).versions)
    ensures Kept(a.versions, WithDraft(a, id).versions)
  {
    ActiveIsPublished(a, id);
    if !HasDraft(a.versions) {
      FreshFits(a.versions, FreshDraft(a, id), id);
      hide FreshDraft, SkillsUnique, Kept, VersionsFit;
      if a.activeVersion.Some? {
        var i :| 0 <= i < |a.versions| && a.versions[i].id == a.activeVersion.value && a.versions[i].published;
        assert WithDraft(a, id).versions[i] == a.versions[i];
      }
    } else {
      FitsLater(a, id, id + 1);
    }
  }

  lemma FreshFits(versions: seq<Version>, v: Version, bound: nat)
    requires VersionsFit(versions, bound) && !HasDraft(versions)
    requires v.id == bound && v.number == |versions| + 1 && SkillsUnique(v.skills)
    ensures VersionsFit(versions + [v], bound + 1) && Kept(versions, versions + [v])
  {
    hide SkillsUnique;
  }

  /** An edited draft: same id and number, still unpublished, no skill bound twice. */
  predicate DraftEdit(v: Version, w: Version) {
    w.id == v.id && w.number == v.number && !w.published && SkillsUnique(w.skills)
  }

  lemma EditKeeps(a: Agent, w: Version, bound: nat)
    requires AgentFits(a, bound) && HasDraft(a.versions) && DraftEdit(DraftIn(a), w)
    ensures AgentFits(SetDraft(a, w), bound) && Kept(a.versions, SetDraft(a, w).versions)
  {
    if a.activeVersion.Some? {
      var i :| 0 <= i < |a.versions| && a.versions[i].id == a.activeVersion.value && a.versions[i].published;
      assert SetDraft(a, w).versions[i] == a.versions[i];
    }
  }

  lemma KeptTransitive(a: seq<Version>, b: seq<Version>, c: seq<Version>)
    requires Kept(a, b) && Kept(b, c)
    ensures Kept(a, c)
  {
  }

  /** Publishing the draft makes it the active version. */
  function Published(a: Agent, note: Option<string>): Agent
    requires a.versions != []
  {
    var v := DraftIn(a);
    SetDraft(a, v.(published := true, note := if note.Some? then note else v.note))
      .(activeVersion := Some(v.id), status := Active)
  }

  lemma PublishFits(a: Agent, note: Option<string>, bound: nat)
    requires AgentFits(a, bound) && HasDraft(a.versions)
    ensures AgentFits(Published(a, note), bound) && Kept(a.versions, Published(a, note).versions)
  {
    var b := Published(a, note);
    var k := |a.versions| - 1;
    assert b.versions[k].id == b.activeVersion.value && b.versions[k].published;
  }

  // ----- settings -----

  function Or<T>(given: Option<T>, old_: T): T {
    if given.Some? then given.value else old_
  }

  function Patched(v: Version, data: VersionInput): Version {
    v.(note := if data.note.Some? then data.note else v.note,
       settings := Settings(
         Or(data.provider, v.settings.provider), Or(data.model, v.settings.model),
         Or(data.instructions, v.settings.instructions), Or(data.handoffDescription, v.settings.handoffDescription),
         Or(data.modelSettings, v.settings.modelSettings), Or(data.inputSchema, v.settings.inputSchema),
         Or(data.outputSchema, v.settings.outputSchema), Or(data.canAsk, v.settings.canAsk),
         Or(data.maxSteps, v.settings.maxSteps), Or(data.timeoutSeconds, v.settings.timeoutSeconds)))
  }

  // ----- bindings -----

  function PutSkill(bs: seq<SkillBinding>, b: SkillBinding): seq<SkillBinding> {
    if bs == [] then [b]
    else if bs[0].skill == b.skill then [b] + bs[1..]
    else [bs[0]] + PutSkill(bs[1..], b)
  }

  function DropSkill(bs: seq<SkillBinding>, id: nat): seq<SkillBinding> {
    if bs == [] then []
    else if bs[0].skill == id then bs[1..]
    else [bs[0]] + DropSkill(bs[1..], id)
  }

  lemma UniqueRest(bs: seq<SkillBinding>)
    requires bs != [] && SkillsUnique(bs)
    ensures SkillsUnique(bs[1..]) && forall x :: x in bs[1..] ==> x.skill != bs[0].skill
    ensures forall x :: x in bs <==> x == bs[0] || x in bs[1..]
  {
    assert forall i :: 0 < i < |bs| ==> bs[i] == bs[1..][i - 1] && bs[0].skill != bs[i].skill;
    assert bs == [bs[0]] + bs[1..];
  }

  lemma UniqueFront(b: SkillBinding, bs: seq<SkillBinding>)
    requires SkillsUnique(bs) && forall x :: x in bs ==> x.skill != b.skill
    ensures SkillsUnique([b] + bs)
  {
  }

  lemma {:induction false} PutSkillIs(bs: seq<SkillBinding>, b: SkillBinding)
    requires SkillsUnique(bs)
    ensures SkillsUnique(PutSkill(bs, b))
    ensures forall x :: x in PutSkill(bs, b) <==> x == b || (x in bs && x.skill != b.skill)
  {
    hide SkillsUnique;
    if bs == [] {
      UniqueFront(b, bs);
      assert [b] + bs == [b];
    } else {
      UniqueRest(bs);
      if bs[0].skill == b.skill {
        UniqueFront(b, bs[1..]);
      } else {
        PutSkillIs(bs[1..], b);
        UniqueFront(bs[0], PutSkill(bs[1..], b));
      }
    }
  }

  lemma {:induction false} DropSkillIs(bs: seq<SkillBinding>, id: nat)
    requires SkillsUnique(bs)
    ensures SkillsUnique(DropSkill(bs, id))
    ensures forall x :: x in DropSkill(bs, id) <==> x in bs && x.skill != id
  {
    hide SkillsUnique;
    if bs != [] {
      UniqueRest(bs);
      if bs[0].skill != id {
        DropSkillIs(bs[1..], id);
        UniqueFront(bs[0], DropSkill(bs[1..], id));
      }
    }
  }

  // ----- the commit -----

  ghost predicate AllFit(agents: map<nat, Agent>, bound: nat) {
    forall x :: x in agents ==> x < bound && AgentFits(agents[x], bound)
  }

  /** Another active agent has the command. */
  predicate Taken(agents: map<nat, Agent>, id: nat, command: string) {
    exists x :: x in agents && x != id && agents[x].status == Active && agents[x].command == command
  }

  lemma FitsLater(a: Agent, bound: nat, later: nat)
    requires AgentFits(a, bound) && bound <= later
    ensures AgentFits(a, later)
  {
  }

  lemma KeptItself(versions: seq<Version>)
    ensures Kept(versions, versions)
  {
  }

  /** One agent's row is replaced; the others stay. */
  lemma OneReplaced(agents: map<nat, Agent>, bound: nat, id: nat, a: Agent, later: nat)
    requires AllFit(agents, bound) && CommandsUnique(agents) && id < later && bound <= later
    requires AgentFits(a, later) && (id in agents ==> Kept(agents[id].versions, a.versions))
    requires a.status == Active ==> !Taken(agents, id, a.command)
    ensures AllFit(agents[id := a], later) && CommandsUnique(agents[id := a]) && AllKept(agents, agents[id := a])
  {
    hide AgentFits, Kept;
    var now := agents[id := a];
    forall x | x in now ensures x < later && AgentFits(now[x], later) {
      if x != id {
        FitsLater(agents[x], bound, later);
      }
    }
    forall x | x in agents ensures x in now && Kept(agents[x].versions, now[x].versions) {
      if x != id {
        KeptItself(agents[x].versions);
      }
    }
  }

  lemma OwnCommandIsFree(agents: map<nat, Agent>, id: nat)
    requires CommandsUnique(agents) && id in agents && agents[id].status == Active
    ensures !Taken(agents, id, agents[id].command)
  {
  }

  /** The draft an edit of this agent works on. */
  function DraftFor(agents: map<nat, Agent>, next: nat, id: nat): Version
    requires id in agents
  {
    DraftIn(WithDraft(agents[id], next))
  }

  /** The agents after that draft became w. */
  function Edited(agents: map<nat, Agent>, next: nat, id: nat, w: Version): map<nat, Agent>
    requires id in agents
  {
    agents[id := SetDraft(WithDraft(agents[id], next), w)]
  }

  lemma EditedAgentFits(a: Agent, next: nat, w: Version)
    requires AgentFits(a, next) && DraftEdit(DraftIn(WithDraft(a, next)), w)
    ensures var b := SetDraft(WithDraft(a, next), w);
      && AgentFits(b, next + 1) && Kept(a.versions, b.versions) && b.status == a.status && b.command == a.command
  {
    WithDraftFits(a, next);
    hide AgentFits, Kept, FreshDraft, DraftEdit;
    EditKeeps(WithDraft(a, next), w, next + 1);
    KeptTransitive(a.versions, WithDraft(a, next).versions, SetDraft(WithDraft(a, next), w).versions);
  }

  lemma EditedFits(agents: map<nat, Agent>, next: nat, id: nat, w: Version)
    requires AllFit(agents, next) && CommandsUnique(agents) && id in agents && DraftEdit(DraftFor(agents, next, id), w)
    ensures AllFit(Edited(agents, next, id, w), next + 1) && CommandsUnique(Edited(agents, next, id, w))
    ensures AllKept(agents, Edited(agents, next, id, w))
  {
    var a := agents[id];
    assert AgentFits(a, next);
    EditedAgentFits(a, next, w);
    hide AgentFits, Kept, DraftEdit, AllFit, AllKept, WithDraft, SetDraft;
    if a.status == Active {
      OwnCommandIsFree(agents, id);
    }
    hide CommandsUnique, Taken;
    OneReplaced(agents, next, id, SetDraft(WithDraft(a, next), w), next + 1);
  }

  // ----- connecting an existing agent -----

  function InstructionsOnly(text: string): VersionInput {
    VersionInput(None, None, Some(text), None, None, None, None, None, None, None, Some("existing agent connection"))
  }

  /** The version whose instructions the connection looks at: the active one, or else the draft. */
  function Consulted(a: Agent): Option<Version> {
    if ActiveOf(a).Some? then ActiveOf(a)
    else if HasDraft(a.versions) then Some(DraftIn(a))
    else None
  }

  function NeedsText(a: Agent): bool {
    Consulted(a).None? || Blank(Consulted(a).value.settings.instructions)
  }

  /** Connecting publishes whatever draft there is by then, without validating it. */
  function Connected(a: Agent, next: nat, text: string): Agent {
    var b := if NeedsText(a) then
               var d := WithDraft(a, next);
               SetDraft(d, Patched(DraftIn(d), InstructionsOnly(text)))
             else a;
    if HasDraft(b.versions) then Published(b, None) else b.(status := Active)
  }

  lemma ConnectedFits(a: Agent, next: nat, text: string)
    requires AgentFits(a, next)
    ensures AgentFits(Connected(a, next, text), next + 1) && Kept(a.versions, Connected(a, next, text).versions)
    ensures Connected(a, next, text).status == Active && Connected(a, next, text).command == a.command
  {
    if NeedsText(a) {
      RewrittenFits(a, next, text);
    } else {
      FitsLater(a, next, next + 1);
      KeptItself(a.versions);
      ActiveIsPublished(a, next);
      hide VersionsFit, Kept, PublishedHere;
      if HasDraft(a.versions) {
        PublishFits(a, None, next + 1);
      }
    }
  }

  lemma RewrittenFits(a: Agent, next: nat, text: string)
    requires AgentFits(a, next)
    ensures var d := WithDraft(a, next);
      var b := SetDraft(d, Patched(DraftIn(d), InstructionsOnly(text)));
      && HasDraft(b.versions) && AgentFits(Published(b, None), next + 1)
      && Kept(a.versions, Published(b, None).versions)
  {
    var d := WithDraft(a, next);
    var w := Patched(DraftIn(d), InstructionsOnly(text));
    WithDraftFits(a, next);
    assert DraftEdit(DraftIn(d), w);
    hide AgentFits, Kept, WithDraft, Patched;
    EditKeeps(d, w, next + 1);
    KeptTransitive(a.versions, d.versions, SetDraft(d, w).versions);
    PublishFits(SetDraft(d, w), None, next + 1);
    KeptTransitive(a.versions, SetDraft(d, w).versions, Published(SetDraft(d, w), None).versions);
  }

  /** An agent is left active with blank instructions exactly when a blank draft was waiting beside a
      version that had instructions: only the active version is looked at, but the draft is published. */
  lemma BlankDraftSlipsThrough(a: Agent, next: nat, text: string)
    requires AgentFits(a, next) && !Blank(text)
    ensures var b := Connected(a, next, text);
      ActiveOf(b).Some? && (Blank(ActiveOf(b).value.settings.instructions) <==>
        ActiveOf(a).Some? && !Blank(ActiveOf(a).value.settings.instructions)
        && HasDraft(a.versions) && Blank(DraftIn(a).settings.instructions))
  {
    ConnectedFits(a, next, text);
    var b := Connected(a, next, text);
    ActiveIsPublished(a, next);
    if NeedsText(a) {
      var d := WithDraft(a, next);
      WithDraftFits(a, next);
      PublishedIsActive(SetDraft(d, Patched(DraftIn(d), InstructionsOnly(text))), next + 1);
    } else if HasDraft(a.versions) {
      PublishedIsActive(a, next);
    }
  }

  lemma PublishedIsActive(a: Agent, bound: nat)
    requires HasDraft(a.versions) && AgentFits(Published(a, None), bound)
    ensures ActiveOf(Published(a, None)).Some?
    ensures ActiveOf(Published(a, None)).value.settings == DraftIn(a).settings
  {
    var b := Published(a, None);
    VersionAtGives(b.versions, b.activeVersion.value);
    var j :| 0 <= j < |b.versions| && b.versions[j].id == b.activeVersion.value && b.versions[j] == ActiveOf(b).value;
    assert b.versions[|a.versions| - 1].id == b.activeVersion.value;
    assert j == |a.versions| - 1;
  }

  // ----- publishing -----

  /** The version a publish request names: the draft, or a published version to go back to. */
  function Target(a: Agent, versionId: Option<nat>): Result<Version, ServiceError> {
    match versionId
    case None => if HasDraft(a.versions) then Ok(DraftIn(a)) else Err(NoDraft)
    case Some(id) =>
      var v := VersionAt(a.versions, id);
      if v.Some? && v.value.published then Ok(v.value) else Err(InvalidVersion)
  }

  /** What keeps a version from being published; `otherwise` stands for the provider, model, skill
      and tool checks. */
  predicate Problems(agents: map<nat, Agent>, id: nat, v: Version, otherwise: bool)
    requires id in agents
  {
    Blank(v.settings.instructions) || otherwise || Taken(agents, id, agents[id].command)
    || exists t :: t in v.handoffs && t !in agents
  }

  lemma RolledBackFits(a: Agent, versionId: nat, bound: nat)
    requires AgentFits(a, bound) && Target(a, Some(versionId)).Ok?
    ensures AgentFits(a.(activeVersion := Some(versionId), status := Active), bound)
    ensures Target(a, Some(versionId)).value.id == versionId
  {
    VersionAtGives(a.versions, versionId);
    var i :| 0 <= i < |a.versions| && a.versions[i].id == versionId && a.versions[i] == VersionAt(a.versions, versionId).value;
  }

  function NoteOf(note: Option<string>): Option<string> {
    if note == Some("") then None else note
  }

  // ----- results of the checked operations -----

  function FirstAgent(slug: string, command: string, data: VersionInput, versionId: nat): Agent {
    Agent(slug, command, Draft, None,
          [Patched(Version(versionId, 1, false, None, DEFAULTS, [], map[], map[]), data)])
  }

  function Updated(a: Agent, command: Option<string>, status: Option<Status>): Agent {
    a.(command := Or(command, a.command), status := Or(status, a.status))
  }

  function UpdateResult(agents: map<nat, Agent>, id: nat, command: Option<string>, status: Option<Status>): Outcome {
    if id !in agents then Err(AgentNotFound)
    else
      var a := agents[id];
      if command.Some? && a.status == Active && Taken(agents, id, command.value) then Err(CommandTaken)
      else if status == Some(Active) && a.activeVersion.None? then Err(NoPublishedVersion)
      else if status == Some(Active) && Taken(agents, id, Or(command, a.command)) then Err(CommandTaken)
      else Ok(id)
  }

  /** After a successful update an active agent's command is free, whichever field changed. */
  lemma UpdatedFits(agents: map<nat, Agent>, bound: nat, id: nat, command: Option<string>, status: Option<Status>)
    requires AllFit(agents, bound) && CommandsUnique(agents) && UpdateResult(agents, id, command, status).Ok?
    ensures var a := Updated(agents[id], command, status);
      && !(a.status == Active && Taken(agents, id, a.command))
      && AllFit(agents[id := a], bound) && CommandsUnique(agents[id := a]) && AllKept(agents, agents[id := a])
  {
    var a := agents[id];
    if a.status == Active && command.None? {
      OwnCommandIsFree(agents, id);
    }
    assert AgentFits(a, bound);
    KeptItself(a.versions);
    hide VersionsFit, PublishedHere, Kept, Taken;
    OneReplaced(agents, bound, id, Updated(a, command, status), bound);
  }

  predicate NamesUnknownProvider(data: VersionInput, providers: set<nat>) {
    data.provider.Some? && data.provider.value.Some? && data.provider.value.value !in providers
  }

  function PublishResult(agents: map<nat, Agent>, id: nat, versionId: Option<nat>, otherwise: bool): Outcome {
    if id !in agents then Err(AgentNotFound)
    else
      match Target(agents[id], versionId)
      case Err(e) => Err(e)
      case Ok(v) => if Problems(agents, id, v, otherwise) then Err(CannotBePublished) else Ok(id)
  }

  /** What a publish or a rollback makes of the agent. */
  function Put(a: Agent, versionId: Option<nat>, note: Option<string>): Agent
    requires Target(a, versionId).Ok?
  {
    match versionId
    case None => Published(a, NoteOf(note))
    case Some(id) => a.(activeVersion := Some(id), status := Active)
  }

  lemma PutFits(agents: map<nat, Agent>, bound: nat, id: nat, versionId: Option<nat>, note: Option<string>)
    requires AllFit(agents, bound) && CommandsUnique(agents) && id in agents
    requires Target(agents[id], versionId).Ok? && !Taken(agents, id, agents[id].command)
    ensures var a := Put(agents[id], versionId, note);
      && !Taken(agents, id, a.command)
      && AllFit(agents[id := a], bound) && CommandsUnique(agents[id := a]) && AllKept(agents, agents[id := a])
  {
    var a := agents[id];
    assert AgentFits(a, bound);
    hide AgentFits, Kept, Taken;
    if versionId.None? {
      PublishFits(a, NoteOf(note), bound);
    } else {
      RolledBackFits(a, versionId.value, bound);
      KeptItself(a.versions);
    }
    OneReplaced(agents, bound, id, Put(a, versionId, note), bound);
  }

  /** A version that was published is one with instructions, unlike after a connection. */
  lemma PublishedHasInstructions(agents: map<nat, Agent>, id: nat, versionId: Option<nat>, note: Option<string>, bound: nat)
    requires AllFit(agents, bound) && PublishResult(agents, id, versionId, false).Ok?
    ensures var a := Put(agents[id], versionId, note);
      ActiveOf(a).Some? && !Blank(ActiveOf(a).value.settings.instructions)
  {
    var a := agents[id];
    assert AgentFits(a, bound);
    var b := Put(a, versionId, note);
    if versionId.None? {
      PublishFits(a, NoteOf(note), bound);
      VersionAtGives(b.versions, b.activeVersion.value);
      var j :| 0 <= j < |b.versions| && b.versions[j].id == b.activeVersion.value && b.versions[j] == ActiveOf(b).value;
      assert b.versions[|a.versions| - 1].id == b.activeVersion.value;
      assert j == |a.versions| - 1;
    }
  }

  lemma ConnectedAllFit(agents: map<nat, Agent>, next: nat, id: nat, text: string)
    requires AllFit(agents, next) && CommandsUnique(agents) && id in agents
    ensures var a := Connected(agents[id], next, text);
      && a.status == Active && a.command == agents[id].command
      && (!Taken(agents, id, a.command) ==>
            AllFit(agents[id := a], next + 1) && CommandsUnique(agents[id := a]) && AllKept(agents, agents[id := a]))
  {
    hide AgentFits, Kept, Connected, Taken;
    ConnectedFits(agents[id], next, text);
    var a := Connected(agents[id], next, text);
    if !Taken(agents, id, a.command) {
      OneReplaced(agents, next, id, a, next + 1);
    }
  }

  lemma NothingChanged(agents: map<nat, Agent>)
    ensures AllKept(agents, agents)
  {
  }

  /** The draft that an edit opens can be edited: it is unpublished and binds no skill twice. */
  lemma DraftIsSound(agents: map<nat, Agent>, next: nat, id: nat)
    requires AllFit(agents, next) && id in agents
    ensures DraftEdit(DraftFor(agents, next, id), DraftFor(agents, next, id))
  {
    WithDraftFits(agents[id], next);
  }

  /** A draft starts as a copy of the active version, not of the newest one. */
  lemma FreshDraftCopiesActive(agents: map<nat, Agent>, next: nat, id: nat)
    requires AllFit(agents, next) && id in agents && !HasDraft(agents[id].versions) && agents[id].activeVersion.Some?
    ensures var v, w := ActiveOf(agents[id]), DraftFor(agents, next, id);
      && v.Some? && IsActive(agents[id], v.value)
      && w.settings == v.value.settings && w.skills == v.value.skills && w.tools == v.value.tools && w.handoffs == v.value.handoffs
      && !w.published && w.number == |agents[id].versions| + 1
  {
    ActiveIsPublished(agents[id], next);
  }

  function DefaultPriority(skill: Skill): int {
    match VersionById(skill.versions, skill.activeVersion)
    case None => 100
    case Some(v) => v.defaultPriority
  }

  lemma RankedUnique(bs: seq<SkillBinding>, now: seq<SkillBinding>, order: seq<nat>)
    requires SkillsUnique(bs) && Ranked(bs, now, order)
    ensures SkillsUnique(now)
  {
  }

  // ----- deletions elsewhere -----

  /** What foreign keys of versions and their bindings refer to. */
  datatype Row = AgentRow(agent: nat) | ProviderRow(provider: nat) | ToolRow(tool: nat)

  /** The foreign keys: a deleted provider is set to null, bindings of a deleted tool and handoffs to a
      deleted agent are removed with it, in every version. */
  function Without(v: Version, row: Row): Version {
    match row
    case AgentRow(agent) => v.(handoffs := v.handoffs - {agent})
    case ProviderRow(provider) =>
      if v.settings.provider == Some(provider) then v.(settings := v.settings.(provider := None)) else v
    case ToolRow(tool) => v.(tools := v.tools - {tool})
  }

  function Stripped(a: Agent, row: Row): Agent {
    a.(versions := seq(|a.versions|, i requires 0 <= i < |a.versions| => Without(a.versions[i], row)))
  }

  function AllStripped(agents: map<nat, Agent>, row: Row): map<nat, Agent> {
    map x | x in agents :: Stripped(agents[x], row)
  }

  predicate Refers(v: Version, row: Row) {
    match row
    case AgentRow(agent) => agent in v.handoffs
    case ProviderRow(provider) => v.settings.provider == Some(provider)
    case ToolRow(tool) => tool in v.tools
  }

  /** Some active version or draft has this provider. */
  predicate ProviderUsed(agents: map<nat, Agent>, provider: nat) {
    exists x :: x in agents && UsesProvider(agents[x], provider)
  }

  predicate UsesProvider(a: Agent, provider: nat) {
    exists i :: 0 <= i < |a.versions| && a.versions[i].settings.provider == Some(provider)
      && (a.activeVersion == Some(a.versions[i].id) || !a.versions[i].published)
  }

  /** Some active version has an enabled binding of this tool. */
  predicate ToolUsed(agents: map<nat, Agent>, tool: nat) {
    exists x :: x in agents && UsesTool(agents[x], tool)
  }

  predicate UsesTool(a: Agent, tool: nat) {
    exists i :: 0 <= i < |a.versions| && a.activeVersion == Some(a.versions[i].id)
      && tool in a.versions[i].tools && a.versions[i].tools[tool].enabled
  }

  lemma WithoutIs(v: Version, row: Row)
    ensures !Refers(v, row) <==> Without(v, row) == v
    ensures !Refers(Without(v, row), row)
    ensures forall other :: Refers(Without(v, row), other) ==> Refers(v, other)
    ensures var w := Without(v, row);
      w.id == v.id && w.number == v.number && w.published == v.published && w.skills == v.skills
  {
    match row
    case AgentRow(agent) => KeyRemoved(v.handoffs, agent);
    case ToolRow(tool) => KeyRemoved(v.tools, tool);
    case ProviderRow(provider) =>
  }

  lemma KeyRemoved<T>(m: map<nat, T>, key: nat)
    ensures key !in m <==> m - {key} == m
  {
    if key in m {
      assert key !in m - {key};
    }
  }

  lemma StrippedFits(a: Agent, row: Row, bound: nat)
    requires AgentFits(a, bound)
    ensures AgentFits(Stripped(a, row), bound)
  {
    hide SkillsUnique, Without;
    var b := Stripped(a, row);
    forall i | 0 <= i < |a.versions|
      ensures var w, v := b.versions[i], a.versions[i];
        w.id == v.id && w.number == v.number && w.published == v.published && w.skills == v.skills
    {
      WithoutIs(a.versions[i], row);
    }
    if a.activeVersion.Some? {
      var i :| 0 <= i < |a.versions| && a.versions[i].id == a.activeVersion.value && a.versions[i].published;
      assert b.versions[i].id == a.activeVersion.value && b.versions[i].published;
    }
  }

  lemma AllStrippedFit(agents: map<nat, Agent>, row: Row, bound: nat)
    requires AllFit(agents, bound) && CommandsUnique(agents)
    ensures AllFit(AllStripped(agents, row), bound) && CommandsUnique(AllStripped(agents, row))
  {
    hide AgentFits;
    var now := AllStripped(agents, row);
    forall x | x in now ensures x < bound && AgentFits(now[x], bound) {
      StrippedFits(agents[x], row, bound);
    }
  }

  lemma FewerFit(agents: map<nat, Agent>, id: nat, bound: nat)
    requires AllFit(agents, bound) && CommandsUnique(agents)
    ensures AllFit(agents - {id}, bound) && CommandsUnique(agents - {id})
  {
    hide AgentFits;
  }
}
