/** One run as the database stores it, and every commit that can change it: the API service, the
    executor and the two recovery paths each move it by one atomic step. */
module RunModel {
  import opened Options
  import opened RunStates
  import opened NodeIds

  const SAVE_NODE_INDEX := 1000
  const MAX_PLAN_STEPS := 12

  datatype NodeKind = Parse | Context | AgentStep | Manager | Select | Files | Gateway | Save

  datatype AgentRef = AgentRef(id: nat, slug: string)

  /** One step of a run. `answered` says that a clarification answer is stored. */
  datatype Node = Node(
    id: NodeId,
    index: int,
    kind: NodeKind,
    status: NodeState,
    agent: Option<nat>,
    answered: bool)

  datatype EventType =
    | RunStarted | NodeStarted | ContextLoaded | AgentStarted | ToolStarted | ToolCompleted
    | ArtifactCreated | ArtifactPreview | ClarificationRequested | ClarificationReceived
    | NodeCompleted | NodeFailed | RunCompleted | RunFailedEvent | RunCancelledEvent
    | ProviderRetry | AgentSelected | FilesPrepared | ResponseStreaming | Heartbeat

  datatype Event = Event(sequenceNo: nat, kind: EventType, nodeId: Option<NodeId>, nodeIndex: Option<int>)

  /** The executor that owns the run, if one is alive, and where it stands in its loop.
      `next` is the number its recorder will give to the next event. */
  datatype Worker =
    | Gone
    | AtTop(next: nat)
    | Decided(next: nat, choice: Option<NodeId>)
    | InNode(next: nat, node: NodeId)

  datatype Run = Run(
    status: RunState,
    nodes: seq<Node>,
    cancelRequested: bool,
    revisions: nat,
    maxRevisions: int,
    qcExhausted: bool,
    attempt: nat,
    log: seq<Event>,
    replies: nat,
    worker: Worker)

  /** What an agent returned when it did not ask for clarification: a quality report, if any,
      and the plan a manager proposed. */
  datatype Outcome = Outcome(qcPassed: Option<bool>, plan: seq<AgentRef>)

  datatype Action =
    | Claim | ObserveCancel | ChooseNext | StartNode | Progress(kind: EventType) | Pause
    | FinishNode(outcome: Outcome) | FailNode | Complete | Crash
    | AnswerClarification | RequestCancel | Retry | Reap | RecoverStale

  // ----- plans -----

  function PlanStep(id: NodeId, index: int, kind: NodeKind, agent: Option<nat>): Node {
    Node(id, index, kind, Pending, agent, false)
  }

  function PlanFor(agent: AgentRef, isManager: bool): seq<Node> {
    [ PlanStep(Fixed("parse"), 0, Parse, None),
      PlanStep(Fixed("context"), 1, Context, None),
      PlanStep(Entry(agent.slug), 2, if isManager then Manager else AgentStep, Some(agent.id)),
      PlanStep(Fixed("save"), SAVE_NODE_INDEX, Save, None) ]
  }

  function PlanForExisting(agent: AgentRef): seq<Node> {
    [ PlanStep(Fixed("request"), 0, Parse, None),
      PlanStep(Fixed("select"), 1, Select, Some(agent.id)),
      PlanStep(Fixed("context"), 2, Context, None),
      PlanStep(Fixed("files"), 3, Files, None),
      PlanStep(GatewayOf(agent.slug), 4, Gateway, Some(agent.id)),
      PlanStep(Fixed("save"), SAVE_NODE_INDEX, Save, None) ]
  }

  function Create(agent: AgentRef, isManager: bool, isOrigin: bool, maxRevisions: int): Run {
    Run(RunQueued, if isOrigin then PlanFor(agent, isManager) else PlanForExisting(agent),
        false, 0, maxRevisions, false, 1, [], 0, Gone)
  }

  // ----- node lists -----

  function Ids(nodes: seq<Node>): set<NodeId> {
    set n | n in nodes :: n.id
  }

  function WithStatus(nodes: seq<Node>, id: NodeId, status: NodeState): seq<Node> {
    seq(|nodes|, i requires 0 <= i < |nodes| =>
      if nodes[i].id == id then nodes[i].(status := status) else nodes[i])
  }

  function WithAnswer(nodes: seq<Node>, id: NodeId, answered: bool): seq<Node> {
    seq(|nodes|, i requires 0 <= i < |nodes| =>
      if nodes[i].id == id then nodes[i].(answered := answered) else nodes[i])
  }

  function SkipOpen(nodes: seq<Node>): seq<Node> {
    seq(|nodes|, i requires 0 <= i < |nodes| =>
      if nodes[i].status in {Pending, Waiting} then nodes[i].(status := Skipped) else nodes[i])
  }

  function FailRunning(nodes: seq<Node>): seq<Node> {
    seq(|nodes|, i requires 0 <= i < |nodes| =>
      if nodes[i].status == Running then nodes[i].(status := Failed) else nodes[i])
  }

  function ResetFailed(nodes: seq<Node>): seq<Node> {
    seq(|nodes|, i requires 0 <= i < |nodes| =>
      if nodes[i].status == Failed then nodes[i].(status := Pending) else nodes[i])
  }

  /** The executor may start a node that is pending, or that waits and has its answer. */
  predicate Runnable(n: Node) {
    n.status == Pending || (n.status == Waiting && n.answered)
  }

  /** The first runnable node in index order. */
  function NextNode(nodes: seq<Node>): Option<NodeId> {
    if nodes == [] then None
    else if Runnable(nodes[0]) then Some(nodes[0].id)
    else NextNode(nodes[1..])
  }

  function FirstWaiting(nodes: seq<Node>): Option<NodeId> {
    if nodes == [] then None
    else if nodes[0].status == Waiting then Some(nodes[0].id)
    else FirstWaiting(nodes[1..])
  }

  function Find(nodes: seq<Node>, id: NodeId): Option<Node> {
    if nodes == [] then None
    else if nodes[0].id == id then Some(nodes[0])
    else Find(nodes[1..], id)
  }

  /** Where a row with this index goes: after every row that is not above it. */
  function Position(nodes: seq<Node>, index: int): (p: nat)
    ensures p <= |nodes|
    ensures p > 0 ==> nodes[p - 1].index <= index
    ensures forall i :: p <= i < |nodes| ==> nodes[i].index > index
  {
    if nodes == [] || nodes[|nodes| - 1].index <= index then |nodes|
    else Position(nodes[..|nodes| - 1], index)
  }

  /** The list is stored ordered by index. */
  function InsertByIndex(nodes: seq<Node>, n: Node): seq<Node> {
    var p := Position(nodes, n.index);
    nodes[..p] + [n] + nodes[p..]
  }

  /** The highest index below the save node, if any node is below it. */
  function HighestBelowSave(nodes: seq<Node>): Option<int> {
    if nodes == [] then None
    else
      var rest := HighestBelowSave(nodes[..|nodes| - 1]);
      var last := nodes[|nodes| - 1].index;
      if last >= SAVE_NODE_INDEX then rest
      else if rest.Some? && rest.value > last then rest
      else Some(last)
  }

  function NextIndex(nodes: seq<Node>, default: int): int {
    match HighestBelowSave(nodes)
    case None => default + 1
    case Some(highest) => highest + 1
  }

  // ----- nodes added while the run executes -----

  predicate IsProducer(n: Node, qc: Node) {
    n.kind == AgentStep && n.status == Succeeded && n.agent != qc.agent && n.index < qc.index
  }

  /** The last producing node before the quality check, in index order. */
  function Producer(nodes: seq<Node>, qc: Node): Option<Node> {
    if nodes == [] then None
    else if IsProducer(nodes[|nodes| - 1], qc) then Some(nodes[|nodes| - 1])
    else Producer(nodes[..|nodes| - 1], qc)
  }

  datatype Revision = Revision(nodes: seq<Node>, revisions: nat, qcExhausted: bool)

  function Revise(nodes: seq<Node>, qc: Node, revisions: nat, maxRevisions: int, qcExhausted: bool): Revision {
    if revisions >= maxRevisions then Revision(nodes, revisions, true)
    else
      match Producer(nodes, qc)
      case None => Revision(nodes, revisions, qcExhausted)
      case Some(producer) =>
        var next := NextIndex(nodes, qc.index);
        var rev := revisions + 1;
        var again := Node(Rev(producer.id, rev), next, AgentStep, Pending, producer.agent, false);
        var recheck := Node(Rev(qc.id, rev), next + 1, AgentStep, Pending, qc.agent, false);
        Revision(InsertByIndex(InsertByIndex(nodes, again), recheck), rev, qcExhausted)
  }

  /** Steps i, i+1, ... of a manager's plan become nodes; at most twelve are taken. */
  function AddSteps(nodes: seq<Node>, existing: set<NodeId>, plan: seq<AgentRef>, i: nat, next: int): seq<Node>
    decreases |plan| - i
  {
    if i >= |plan| || i >= MAX_PLAN_STEPS then nodes
    else
      var id := Step(plan[i].slug, i + 1);
      if id in existing then AddSteps(nodes, existing, plan, i + 1, next)
      else
        var added := Node(id, next, AgentStep, Pending, Some(plan[i].id), false);
        AddSteps(InsertByIndex(nodes, added), existing, plan, i + 1, next + 1)
  }

  /** Everything an agent's or manager's result does to the run before the node is marked done. */
  function AfterResult(s: Run, node: Node, outcome: Outcome): Revision {
    var r := if node.kind in {AgentStep, Manager} && outcome.qcPassed == Some(false)
             then Revise(s.nodes, node, s.revisions, s.maxRevisions, s.qcExhausted)
             else Revision(s.nodes, s.revisions, s.qcExhausted);
    if node.kind == Manager
    then r.(nodes := AddSteps(r.nodes, Ids(s.nodes), outcome.plan, 0, NextIndex(s.nodes, node.index)))
    else r
  }

  // ----- the event log -----

  /** The number a fresh recorder starts from. */
  function LastSequence(log: seq<Event>): nat {
    if log == [] then 0
    else
      var m := LastSequence(log[..|log| - 1]);
      if log[|log| - 1].sequenceNo > m then log[|log| - 1].sequenceNo else m
  }

  function RunEvent(next: nat, kind: EventType): Event {
    Event(next, kind, None, None)
  }

  function NodeEvent(next: nat, kind: EventType, n: Node): Event {
    Event(next, kind, Some(n.id), Some(n.index))
  }

  /** The reaper reports every node it fails, without the node's index. */
  function ReapEvents(nodes: seq<Node>, next: nat): seq<Event> {
    if nodes == [] then []
    else if nodes[0].status == Running
    then [Event(next, NodeFailed, Some(nodes[0].id), None)] + ReapEvents(nodes[1..], next + 1)
    else ReapEvents(nodes[1..], next)
  }

  // ----- the steps -----

  /** Event kinds a node emits on the way, none of which the executor's state depends on. */
  predicate Informational(kind: EventType) {
    kind in {ContextLoaded, AgentStarted, ToolStarted, ToolCompleted, ArtifactCreated, ArtifactPreview,
             ProviderRetry, AgentSelected, FilesPrepared, ResponseStreaming, Heartbeat}
  }

  predicate Enabled(s: Run, a: Action) {
    match a
    case Claim => s.status == RunQueued && s.worker == Gone
    case ObserveCancel => s.worker.AtTop? && s.cancelRequested
    case ChooseNext => s.worker.AtTop? && !s.cancelRequested
    case StartNode => s.worker.Decided? && s.worker.choice.Some? && Find(s.nodes, s.worker.choice.value).Some?
    case Complete => s.worker.Decided? && s.worker.choice.None?
    case Progress(kind) => s.worker.InNode? && Informational(kind)
    case Pause => s.worker.InNode? && Find(s.nodes, s.worker.node).Some?
                  && Find(s.nodes, s.worker.node).value.kind in {AgentStep, Manager}
    case FinishNode(_) => s.worker.InNode? && Find(s.nodes, s.worker.node).Some?
    case FailNode => s.worker.InNode? && Find(s.nodes, s.worker.node).Some?
    case Crash => s.worker != Gone
    case AnswerClarification => s.status == RunWaiting && FirstWaiting(s.nodes).Some?
    case RequestCancel => !IsTerminal(s.status)
    case Retry => s.status == RunFailed
    case Reap => s.status == RunRunning && s.worker == Gone
    case RecoverStale => s.status == RunRunning && s.worker == Gone
  }

  function Apply(s: Run, a: Action): Run
    requires Enabled(s, a)
  {
    match a
    case Claim =>
      var next := LastSequence(s.log) + 1;
      s.(status := RunRunning, log := s.log + [RunEvent(next, RunStarted)], worker := AtTop(next + 1))
    case ObserveCancel =>
      s.(status := RunCancelled, nodes := SkipOpen(s.nodes),
         log := s.log + [RunEvent(s.worker.next, RunCancelledEvent)], worker := Gone)
    case ChooseNext =>
      s.(worker := Decided(s.worker.next, NextNode(s.nodes)))
    case StartNode =>
      var id := s.worker.choice.value;
      var node := Find(s.nodes, id).value;
      s.(nodes := WithStatus(s.nodes, id, Running),
         log := s.log + [NodeEvent(s.worker.next, NodeStarted, node)],
         worker := InNode(s.worker.next + 1, id))
    case Complete =>
      s.(status := RunSucceeded, log := s.log + [RunEvent(s.worker.next, RunCompleted)], worker := Gone)
    case Progress(kind) =>
      s.(log := s.log + [Event(s.worker.next, kind, Some(s.worker.node), None)],
         worker := InNode(s.worker.next + 1, s.worker.node))
    case Pause =>
      s.(status := RunWaiting,
         nodes := WithAnswer(WithStatus(s.nodes, s.worker.node, Waiting), s.worker.node, false),
         log := s.log + [Event(s.worker.next, ClarificationRequested, Some(s.worker.node), None)],
         worker := Gone)
    case FinishNode(outcome) =>
      var node := Find(s.nodes, s.worker.node).value;
      var r := AfterResult(s, node, outcome);
      s.(nodes := WithStatus(r.nodes, node.id, Succeeded), revisions := r.revisions, qcExhausted := r.qcExhausted,
         replies := if node.kind == Save then s.replies + 1 else s.replies,
         log := s.log + [NodeEvent(s.worker.next, NodeCompleted, node)],
         worker := AtTop(s.worker.next + 1))
    case FailNode =>
      var node := Find(s.nodes, s.worker.node).value;
      s.(status := RunFailed, nodes := WithStatus(s.nodes, node.id, Failed),
         log := s.log + [NodeEvent(s.worker.next, NodeFailed, node), RunEvent(s.worker.next + 1, RunFailedEvent)],
         worker := Gone)
    case Crash =>
      s.(worker := Gone)
    case AnswerClarification =>
      var id := FirstWaiting(s.nodes).value;
      s.(status := RunQueued, nodes := WithAnswer(s.nodes, id, true),
         log := s.log + [Event(LastSequence(s.log) + 1, ClarificationReceived, Some(id), None)])
    case RequestCancel =>
      if s.status in {RunQueued, RunWaiting}
      then s.(status := RunCancelled, cancelRequested := true, nodes := SkipOpen(s.nodes),
              log := s.log + [RunEvent(LastSequence(s.log) + 1, RunCancelledEvent)])
      else s.(cancelRequested := true)
    case Retry =>
      s.(status := RunQueued, nodes := ResetFailed(s.nodes), attempt := s.attempt + 1,
         cancelRequested := false)
    case Reap =>
      var next := LastSequence(s.log) + 1;
      var failed := ReapEvents(s.nodes, next);
      s.(status := RunFailed, nodes := FailRunning(s.nodes),
         log := s.log + failed + [RunEvent(next + |failed|, RunFailedEvent)])
    case RecoverStale =>
      s.(status := RunFailed, nodes := FailRunning(s.nodes),
         log := s.log + [RunEvent(LastSequence(s.log) + 1, RunFailedEvent)])
  }

  /** A whole run: the state after a list of steps, if every one of them could be taken. */
  function Replay(s: Run, actions: seq<Action>): Option<Run> {
    if actions == [] then Some(s)
    else
      var before := Replay(s, actions[..|actions| - 1]);
      if before.Some? && Enabled(before.value, actions[|actions| - 1])
      then Some(Apply(before.value, actions[|actions| - 1]))
      else None
  }

  lemma ReplayAppend(s: Run, actions: seq<Action>, a: Action)
    requires Replay(s, actions).Some? && Enabled(Replay(s, actions).value, a)
    ensures Replay(s, actions + [a]) == Some(Apply(Replay(s, actions).value, a))
  {
    assert (actions + [a])[..|actions|] == actions;
  }

  /** Some interleaving of commits leads from one state to another. */
  ghost predicate Reaches(s: Run, t: Run) {
    exists actions: seq<Action> :: Replay(s, actions) == Some(t)
  }

  lemma ReachesItself(s: Run)
    ensures Reaches(s, s)
  {
    assert Replay(s, []) == Some(s);
  }

  lemma ReachesNext(s0: Run, s: Run, a: Action)
    requires Reaches(s0, s) && Enabled(s, a)
    ensures Reaches(s0, Apply(s, a))
  {
    var actions :| Replay(s0, actions) == Some(s);
    ReplayAppend(s0, actions, a);
  }
}
