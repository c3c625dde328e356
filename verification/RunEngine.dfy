/** The run as a mutable record, and the code that writes it: the API service, the executor with
    its loop, and the recovery paths. Every method is shown to take exactly one step of the model,
    and the executor's loop a finite sequence of them. */
module RunEngine {
  import opened Options
  import opened RunStates
  import opened NodeIds
  import opened RunModel
  import opened RunInvariant
  import opened RunTermination

  datatype ApiError = RunFinished | RunNotWaiting | RunNotFailed

  /** How one node's work ended. */
  datatype NodeResult = Returned(outcome: Outcome) | AskedUser | Raised

  /** What the outside world does during one turn of the executor's loop: cancel requests that
      arrive before and after the flag is read and while the node works, the events the node
      emits, how it ends, and whether the worker dies and where. */
  datatype Tick = Tick(
    cancelBefore: bool, cancelAfter: bool, cancelDuring: bool,
    dieAtTop: bool, dieDecided: bool, dieInNode: bool,
    notes: seq<EventType>,
    result: NodeResult)

  class WorkflowRun {
    var status: RunState
    var nodes: seq<Node>
    var cancelRequested: bool
    var revisions: nat
    var maxRevisions: int
    var qcExhausted: bool
    var attempt: nat
    var log: seq<Event>
    var replies: nat
    ghost var worker: Worker

    ghost function Snapshot(): Run
      reads this
    {
      Run(status, nodes, cancelRequested, revisions, maxRevisions, qcExhausted, attempt, log, replies, worker)
    }

    /** The run service stores the plan of the routed agent as pending nodes. */
    constructor (agent: AgentRef, isManager: bool, isOrigin: bool, maxRevisions: int)
      ensures Snapshot() == Create(agent, isManager, isOrigin, maxRevisions)
    {
      status := RunQueued;
      cancelRequested := false;
      revisions := 0;
      this.maxRevisions := maxRevisions;
      qcExhausted := false;
      attempt := 1;
      log := [];
      replies := 0;
      worker := Gone;
      nodes := [];
      new;
      var plan := if isOrigin then PlanFor(agent, isManager) else PlanForExisting(agent);
      for i := 0 to |plan|
        invariant nodes == plan[..i]
        invariant Snapshot() == Create(agent, isManager, isOrigin, maxRevisions).(nodes := plan[..i])
      {
        nodes := nodes + [plan[i]];
      }
    }

    // ----- the API service -----

    /** Cancelling skips what had not started; of a running run it only leaves a request. */
    method Cancel() returns (r: Result<(), ApiError>)
      modifies this
      ensures r.Ok? <==> old(status) !in {RunSucceeded, RunFailed, RunCancelled}
      ensures r.Ok? ==> Enabled(old(Snapshot()), RequestCancel)
      ensures Snapshot() == if r.Ok? then Apply(old(Snapshot()), RequestCancel) else old(Snapshot())
    {
      if IsTerminal(status) {
        return Err(RunFinished);
      }
      cancelRequested := true;
      if status in {RunQueued, RunWaiting} {
        status := RunCancelled;
        SkipOpenNodes();
        var recorder := new EventRecorder(this);
        recorder.Add(RunCancelledEvent, None, None);
      }
      return Ok(());
    }

    method SkipOpenNodes()
      modifies this`nodes
      ensures nodes == SkipOpen(old(nodes))
    {
      ghost var before := nodes;
      for i := 0 to |nodes|
        invariant |nodes| == |before|
        invariant nodes == SkipOpen(before)[..i] + before[i..]
      {
        if nodes[i].status in {Pending, Waiting} {
          nodes := nodes[i := nodes[i].(status := Skipped)];
        }
      }
    }

    method Retry() returns (r: Result<(), ApiError>)
      modifies this
      ensures r.Ok? <==> old(status) == RunFailed
      ensures r.Ok? ==> Enabled(old(Snapshot()), Action.Retry) && !cancelRequested
      ensures Snapshot() == if r.Ok? then Apply(old(Snapshot()), Action.Retry) else old(Snapshot())
    {
      if status != RunFailed {
        return Err(RunNotFailed);
      }
      ResetFailedNodes();
      status := RunQueued;
      attempt := attempt + 1;
      cancelRequested := false;
      return Ok(());
    }

    method ResetFailedNodes()
      modifies this`nodes
      ensures nodes == ResetFailed(old(nodes))
    {
      ghost var before := nodes;
      for i := 0 to |nodes|
        invariant |nodes| == |before|
        invariant nodes == ResetFailed(before)[..i] + before[i..]
      {
        if nodes[i].status == Failed {
          nodes := nodes[i := nodes[i].(status := Pending)];
        }
      }
    }

    /** The answer is stored on the first waiting node, whose status stays; the run is queued again. */
    method AnswerClarification() returns (r: Result<(), ApiError>)
      modifies this
      ensures r.Ok? <==> old(status) == RunWaiting && exists i :: 0 <= i < |old(nodes)| && old(nodes)[i].status == Waiting
      ensures r.Ok? ==> Enabled(old(Snapshot()), Action.AnswerClarification)
      ensures Snapshot() == if r.Ok? then Apply(old(Snapshot()), Action.AnswerClarification) else old(Snapshot())
    {
      if status != RunWaiting {
        return Err(RunNotWaiting);
      }
      var k := 0;
      while k < |nodes| && nodes[k].status != Waiting
        invariant 0 <= k <= |nodes| && forall i :: 0 <= i < k ==> nodes[i].status != Waiting
        invariant FirstWaiting(nodes[k..]) == FirstWaiting(nodes)
      {
        assert nodes[k..][1..] == nodes[k + 1..];
        k := k + 1;
      }
      if k == |nodes| {
        return Err(RunNotWaiting);
      }
      var id := nodes[k].id;
      nodes := WithAnswer(nodes, id, true);
      status := RunQueued;
      var recorder := new EventRecorder(this);
      recorder.Add(ClarificationReceived, Some(id), None);
      return Ok(());
    }

    // ----- recovery -----

    /** Run on read: a running run without progress for too long has lost its executor. */
    method ReapIfStale(stale: bool) returns (reaped: bool)
      requires stale && status == RunRunning ==> worker == Gone
      modifies this
      ensures reaped <==> stale && old(status) == RunRunning
      ensures Snapshot() == if reaped then Apply(old(Snapshot()), Reap) else old(Snapshot())
    {
      if status != RunRunning || !stale {
        return false;
      }
      var recorder := new EventRecorder(this);
      FailAndReportRunningNodes(recorder);
      assert recorder.next.None? ==> log == old(log);
      status := RunFailed;
      recorder.Add(RunFailedEvent, None, None);
      return true;
    }

    method FailAndReportRunningNodes(recorder: EventRecorder)
      requires recorder.run == this && recorder.next == None
      modifies this`nodes, this`log, recorder
      ensures nodes == FailRunning(old(nodes))
      ensures var failed := ReapEvents(old(nodes), LastSequence(old(log)) + 1);
        && log == old(log) + failed
        && (recorder.next == if failed == [] then None else Some(LastSequence(old(log)) + 1 + |failed|))
    {
      ghost var before, events, next := nodes, log, LastSequence(log) + 1;
      ReapedStart(before, events, next);
      hide ReapEvents, LastSequence, FailRunning, Reaped;
      for i := 0 to |nodes|
        invariant |nodes| == |before|
        invariant Reaped(before, events, next, i, nodes, log, recorder.next)
      {
        ReapedNext(before, events, next, i, nodes, log, recorder.next);
        if nodes[i].status == Running {
          FailOne(i);
          recorder.Add(NodeFailed, Some(nodes[i].id), None);
        }
      }
      ReapedEnd(before, events, next, nodes, log, recorder.next);
    }

    /** The first i nodes have been looked at. */
    static predicate Reaped(before: seq<Node>, events: seq<Event>, next: nat, i: nat,
                            nodes: seq<Node>, log: seq<Event>, cached: Option<nat>) {
      i <= |before|
      && nodes == FailRunning(before[..i]) + before[i..]
      && log == events + ReapEvents(before[..i], next)
      && cached == if log == events then None else Some(next + |log| - |events|)
    }

    static lemma ReapedStart(before: seq<Node>, events: seq<Event>, next: nat)
      ensures Reaped(before, events, next, 0, before, events, None)
    {
      assert before[..0] == [];
    }

    static lemma ReapedNext(before: seq<Node>, events: seq<Event>, next: nat, i: nat,
                            nodes: seq<Node>, log: seq<Event>, cached: Option<nat>)
      requires i < |before| && Reaped(before, events, next, i, nodes, log, cached)
      ensures |nodes| == |before| && nodes[i] == before[i]
      ensures var number := if cached.Some? then cached.value else next;
        if nodes[i].status == Running
        then Reaped(before, events, next, i + 1, nodes[i := nodes[i].(status := Failed)],
                    log + [Event(number, NodeFailed, Some(nodes[i].id), None)], Some(number + 1))
        else Reaped(before, events, next, i + 1, nodes, log, cached)
    {
      ReapEventsNext(before, i, next);
      hide ReapEvents;
      assert before[..i + 1] == before[..i] + [before[i]];
    }

    static lemma ReapedEnd(before: seq<Node>, events: seq<Event>, next: nat,
                           nodes: seq<Node>, log: seq<Event>, cached: Option<nat>)
      requires Reaped(before, events, next, |before|, nodes, log, cached)
      ensures nodes == FailRunning(before) && log == events + ReapEvents(before, next)
      ensures cached == if ReapEvents(before, next) == [] then None else Some(next + |ReapEvents(before, next)|)
    {
      assert before[..|before|] == before;
      hide ReapEvents;
    }

    method FailOne(i: nat)
      requires i < |nodes|
      modifies this`nodes
      ensures nodes == old(nodes)[i := old(nodes)[i].(status := Failed)]
    {
      nodes := nodes[i := nodes[i].(status := Failed)];
    }

    static lemma {:induction false} ReapEventsNext(nodes: seq<Node>, i: nat, next: nat)
      requires i < |nodes|
      ensures var so := ReapEvents(nodes[..i], next);
        ReapEvents(nodes[..i + 1], next) ==
        if nodes[i].status == Running then so + [Event(next + |so|, NodeFailed, Some(nodes[i].id), None)] else so
      decreases i
    {
      if i == 0 {
        assert nodes[..1] == [nodes[0]] && nodes[..0] == [];
        assert ReapEvents(nodes[..1][1..], next) == [];
      } else {
        assert nodes[..i][1..] == nodes[1..][..i - 1] && nodes[..i + 1][1..] == nodes[1..][..i];
        ReapEventsNext(nodes[1..], i - 1, if nodes[0].status == Running then next + 1 else next);
      }
    }

    /** Run at startup: the running nodes fail without an event of their own. */
    method RecoverIfStale(stale: bool) returns (failed: bool)
      requires stale && status == RunRunning ==> worker == Gone
      modifies this
      ensures failed <==> stale && old(status) == RunRunning
      ensures Snapshot() == if failed then Apply(old(Snapshot()), RecoverStale) else old(Snapshot())
    {
      if status != RunRunning || !stale {
        return false;
      }
      FailRunningNodes();
      status := RunFailed;
      var recorder := new EventRecorder(this);
      recorder.Add(RunFailedEvent, None, None);
      return true;
    }

    method FailRunningNodes()
      modifies this`nodes
      ensures nodes == FailRunning(old(nodes))
    {
      ghost var before := nodes;
      for i := 0 to |nodes|
        invariant |nodes| == |before|
        invariant nodes == FailRunning(before)[..i] + before[i..]
      {
        if nodes[i].status == Running {
          nodes := nodes[i := nodes[i].(status := Failed)];
        }
      }
    }

    // ----- the executor -----

    /** The first node that is pending, or waits and has its answer. */
    method PickNode() returns (choice: Option<NodeId>)
      ensures choice == NextNode(nodes)
    {
      var i := 0;
      while i < |nodes| && !Runnable(nodes[i])
        invariant 0 <= i <= |nodes|
        invariant NextNode(nodes[i..]) == NextNode(nodes)
      {
        assert nodes[i..][1..] == nodes[i + 1..];
        i := i + 1;
      }
      choice := if i < |nodes| then Some(nodes[i].id) else None;
    }

    method FindNode(id: NodeId) returns (node: Option<Node>)
      ensures node == Find(nodes, id)
    {
      var i := 0;
      while i < |nodes| && nodes[i].id != id
        invariant 0 <= i <= |nodes|
        invariant Find(nodes[i..], id) == Find(nodes, id)
      {
        assert nodes[i..][1..] == nodes[i + 1..];
        i := i + 1;
      }
      node := if i < |nodes| then Some(nodes[i]) else None;
    }

    /** max(index below the save node) + 1, over the nodes as last read. */
    method NextFreeIndex(default: int) returns (next: int)
      ensures next == NextIndex(nodes, default)
    {
      var highest: Option<int> := None;
      for i := 0 to |nodes|
        invariant highest == HighestBelowSave(nodes[..i])
      {
        assert nodes[..i + 1][..i] == nodes[..i];
        if nodes[i].index < SAVE_NODE_INDEX && (highest.None? || highest.value <= nodes[i].index) {
          highest := Some(nodes[i].index);
        }
      }
      assert nodes[..|nodes|] == nodes;
      next := if highest.Some? then highest.value + 1 else default + 1;
    }

    /** Quality control failed: the producer and the check are queued once more, if revisions are
        left and an earlier node of another agent succeeded. */
    method MaybeRequestRevision(qc: Node)
      modifies this`nodes, this`revisions, this`qcExhausted
      ensures Revision(nodes, revisions, qcExhausted)
           == Revise(old(nodes), qc, old(revisions), maxRevisions, old(qcExhausted))
    {
      if revisions >= maxRevisions {
        qcExhausted := true;
        return;
      }
      var producer := PickProducer(qc);
      if producer.None? {
        return;
      }
      hide InsertByIndex, NextIndex, Producer;
      var next := NextFreeIndex(qc.index);
      var rev := revisions + 1;
      nodes := InsertByIndex(nodes, Node(Rev(producer.value.id, rev), next, AgentStep, Pending, producer.value.agent, false));
      nodes := InsertByIndex(nodes, Node(Rev(qc.id, rev), next + 1, AgentStep, Pending, qc.agent, false));
      revisions := rev;
    }

    /** The last producing node before the quality check. */
    method PickProducer(qc: Node) returns (producer: Option<Node>)
      ensures producer == Producer(nodes, qc)
    {
      var i := |nodes|;
      assert nodes[..i] == nodes;
      while i > 0 && !IsProducer(nodes[i - 1], qc)
        invariant 0 <= i <= |nodes|
        invariant Producer(nodes[..i], qc) == Producer(nodes, qc)
      {
        assert nodes[..i][..i - 1] == nodes[..i - 1];
        i := i - 1;
      }
      assert i > 0 ==> nodes[..i][i - 1] == nodes[i - 1];
      producer := if i > 0 then Some(nodes[i - 1]) else None;
    }

    /** The first twelve steps of a manager's plan become nodes, unless a node has that id. */
    method ExpandManagerPlan(existing: set<NodeId>, first: int, plan: seq<AgentRef>)
      modifies this`nodes
      ensures nodes == AddSteps(old(nodes), existing, plan, 0, first)
    {
      var next, i := first, 0;
      while i < |plan| && i < MAX_PLAN_STEPS
        invariant 0 <= i <= |plan|
        invariant AddSteps(nodes, existing, plan, i, next) == AddSteps(old(nodes), existing, plan, 0, first)
      {
        var id := Step(plan[i].slug, i + 1);
        if id !in existing {
          nodes := InsertByIndex(nodes, Node(id, next, AgentStep, Pending, Some(plan[i].id), false));
          next := next + 1;
        }
        i := i + 1;
      }
    }

    /** What an agent's or manager's result schedules. */
    method ScheduleFollowUps(node: Node, outcome: Outcome)
      modifies this`nodes, this`revisions, this`qcExhausted
      ensures Revision(nodes, revisions, qcExhausted) == AfterResult(old(Snapshot()), node, outcome)
    {
      var existing := set n | n in nodes :: n.id;
      var first := NextFreeIndex(node.index);
      if node.kind in {AgentStep, Manager} && outcome.qcPassed == Some(false) {
        MaybeRequestRevision(node);
      }
      if node.kind == Manager {
        ExpandManagerPlan(existing, first, outcome.plan);
      }
    }

    /** The node's result is stored, its consequences are scheduled, and it is marked done. */
    method FinishNode(recorder: EventRecorder, node: Node, outcome: Outcome)
      requires recorder.run == this && worker.InNode? && worker.node == node.id
      requires Find(nodes, node.id) == Some(node) && recorder.next == Some(worker.next)
      modifies this, recorder
      ensures Snapshot() == Apply(old(Snapshot()), Action.FinishNode(outcome))
      ensures worker.AtTop? && recorder.next == Some(worker.next)
    {
      hide AfterResult, WithStatus, Find;
      ScheduleFollowUps(node, outcome);
      if node.kind == Save {
        replies := replies + 1;
      }
      nodes := WithStatus(nodes, node.id, Succeeded);
      recorder.Add(NodeCompleted, Some(node.id), Some(node.index));
      worker := AtTop(worker.next + 1);
    }

    method StartChosen(recorder: EventRecorder, node: Node)
      requires recorder.run == this && worker.Decided? && worker.choice == Some(node.id)
      requires Find(nodes, node.id) == Some(node) && recorder.next == Some(worker.next)
      modifies this, recorder
      ensures Snapshot() == Apply(old(Snapshot()), StartNode)
      ensures worker.InNode? && recorder.next == Some(worker.next) && worker.node == node.id
    {
      nodes := WithStatus(nodes, node.id, Running);
      recorder.Add(NodeStarted, Some(node.id), Some(node.index));
      worker := InNode(worker.next + 1, node.id);
    }

    /** The run pauses: the node keeps its question and loses any earlier answer. */
    method PauseForUser(recorder: EventRecorder, node: Node)
      requires recorder.run == this && worker.InNode? && worker.node == node.id
      requires Find(nodes, node.id) == Some(node) && recorder.next == Some(worker.next) && node.kind in {AgentStep, Manager}
      modifies this, recorder
      ensures Snapshot() == Apply(old(Snapshot()), Pause)
    {
      nodes := WithStatus(nodes, node.id, Waiting);
      nodes := WithAnswer(nodes, node.id, false);
      status := RunWaiting;
      recorder.Add(ClarificationRequested, Some(node.id), None);
      worker := Gone;
    }

    method FailRun(recorder: EventRecorder, node: Node)
      requires recorder.run == this && worker.InNode? && worker.node == node.id
      requires Find(nodes, node.id) == Some(node) && recorder.next == Some(worker.next)
      modifies this, recorder
      ensures Snapshot() == Apply(old(Snapshot()), FailNode)
    {
      nodes := WithStatus(nodes, node.id, Failed);
      status := RunFailed;
      recorder.Add(NodeFailed, Some(node.id), Some(node.index));
      recorder.Add(RunFailedEvent, None, None);
      worker := Gone;
    }

    method CancelAtTop(recorder: EventRecorder)
      requires recorder.run == this && worker.AtTop? && recorder.next == Some(worker.next) && cancelRequested
      modifies this, recorder
      ensures Snapshot() == Apply(old(Snapshot()), ObserveCancel)
    {
      SkipOpenNodes();
      status := RunCancelled;
      recorder.Add(RunCancelledEvent, None, None);
      worker := Gone;
    }

    method EmitNote(recorder: EventRecorder, id: NodeId, kind: EventType)
      requires recorder.run == this && worker.InNode? && worker.node == id && recorder.next == Some(worker.next)
      requires Informational(kind)
      modifies this`log, this`worker, recorder
      ensures Snapshot() == Apply(old(Snapshot()), Progress(kind))
      ensures worker.InNode? && worker.node == id && recorder.next == Some(worker.next)
    {
      recorder.Add(kind, Some(id), None);
      worker := InNode(worker.next + 1, worker.node);
    }

    /** The events a node emits while it works. */
    method EmitNotes(recorder: EventRecorder, id: NodeId, notes: seq<EventType>, ghost s0: Run, ghost before: seq<Action>)
      returns (ghost trace: seq<Action>)
      requires recorder.run == this && worker.InNode? && worker.node == id && recorder.next == Some(worker.next)
      requires Replay(s0, before) == Some(Snapshot())
      modifies this`log, this`worker, recorder
      ensures Replay(s0, trace) == Some(Snapshot())
      ensures worker.InNode? && worker.node == id && recorder.next == Some(worker.next)
    {
      trace := before;
      for i := 0 to |notes|
        invariant Replay(s0, trace) == Some(Snapshot())
        invariant worker.InNode? && worker.node == id && recorder.next == Some(worker.next)
      {
        if Informational(notes[i]) {
          ReplayAppend(s0, trace, Progress(notes[i]));
          trace := trace + [Progress(notes[i])];
          EmitNote(recorder, id, notes[i]);
        }
      }
    }

    /** A cancel request that may arrive from the API while the executor holds the run. */
    method MaybeCancelled(arrives: bool, ghost s0: Run, ghost before: seq<Action>) returns (ghost trace: seq<Action>)
      requires status == RunRunning && Replay(s0, before) == Some(Snapshot())
      modifies this
      ensures Replay(s0, trace) == Some(Snapshot())
      ensures Snapshot() == old(Snapshot()).(cancelRequested := cancelRequested)
    {
      trace := before;
      if arrives {
        ReplayAppend(s0, trace, RequestCancel);
        trace := trace + [RequestCancel];
        var _ := Cancel();
      }
    }

    /** The worker process dies; whatever was committed stays. */
    method Die(ghost s0: Run, ghost before: seq<Action>) returns (ghost trace: seq<Action>)
      requires worker != Gone && Replay(s0, before) == Some(Snapshot())
      modifies this`worker
      ensures Replay(s0, trace) == Some(Snapshot()) && worker == Gone
      ensures trace == before + [Crash]
    {
      ReplayAppend(s0, before, Crash);
      trace := before + [Crash];
      worker := Gone;
    }

    /** How a turn of the loop may end: the loop goes on, nearer to its end; or the executor has
        let go of the run, and the run is only still marked running if the worker died. */
    ghost predicate TurnEnds(goOn: bool, recorder: EventRecorder, measure: nat, s0: Run, trace: seq<Action>)
      reads this, recorder
    {
      && Replay(s0, trace) == Some(Snapshot())
      && (goOn ==> worker.AtTop? && recorder.next == Some(worker.next) && Measure(Snapshot()) < measure)
      && (!goOn ==> worker == Gone && (status == RunRunning ==> trace != [] && trace[|trace| - 1] == Crash))
    }

    /** The chosen node is started, works, and ends in one of the ways it can. */
    method RunNode(recorder: EventRecorder, node: Node, tick: Tick, ghost s0: Run, ghost before: seq<Action>)
      returns (goOn: bool, ghost trace: seq<Action>)
      requires recorder.run == this && worker.Decided? && worker.choice == Some(node.id)
      requires Find(nodes, node.id) == Some(node) && recorder.next == Some(worker.next)
      requires CoreInv(s0) && Replay(s0, before) == Some(Snapshot())
      modifies this, recorder
      ensures TurnEnds(goOn, recorder, Measure(old(Snapshot())), s0, trace)
    {
      hide Replay, Find, NextNode, SortedByIndex, UniqueIds, OneSaveNode, RevisionsBounded, StatusesFit, SaveDone, Numbered;
      CoreInvAlong(s0, before);
      StartKeepsMeasure(Snapshot());
      ReplayAppend(s0, before, StartNode);
      StartChosen(recorder, node);
      trace := before + [StartNode];
      CoreInvAlong(s0, trace);
      trace := EmitNotes(recorder, node.id, tick.notes, s0, trace);
      CoreInvAlong(s0, trace);
      trace := MaybeCancelled(tick.cancelDuring, s0, trace);
      if tick.dieInNode {
        trace := Die(s0, trace);
        return false, trace;
      }
      CoreInvAlong(s0, trace);
      FindTheRunningNode(Snapshot());
      var running := FindNode(node.id);
      goOn, trace := EndNode(recorder, running.value, tick.result, s0, trace);
    }

    method EndNode(recorder: EventRecorder, node: Node, result: NodeResult, ghost s0: Run, ghost before: seq<Action>)
      returns (goOn: bool, ghost trace: seq<Action>)
      requires recorder.run == this && worker.InNode? && worker.node == node.id
      requires Find(nodes, node.id) == Some(node) && recorder.next == Some(worker.next)
      requires CoreInv(Snapshot()) && Replay(s0, before) == Some(Snapshot())
      modifies this, recorder
      ensures TurnEnds(goOn, recorder, Measure(old(Snapshot())), s0, trace)
    {
      if result.Raised? {
        ReplayAppend(s0, before, FailNode);
        FailRun(recorder, node);
        return false, before + [FailNode];
      }
      if result.AskedUser? && node.kind in {AgentStep, Manager} {
        ReplayAppend(s0, before, Pause);
        PauseForUser(recorder, node);
        return false, before + [Pause];
      }
      // Only agents and managers can ask; for the other kinds there is no outcome to look at.
      var outcome := if result.Returned? then result.outcome else Outcome(None, []);
      FinishDecreases(Snapshot(), outcome);
      ReplayAppend(s0, before, Action.FinishNode(outcome));
      FinishNode(recorder, node, outcome);
      return true, before + [Action.FinishNode(outcome)];
    }

    /** One turn of the executor's loop, with everything that may interfere. */
    method Turn(recorder: EventRecorder, tick: Tick, ghost s0: Run, ghost before: seq<Action>)
      returns (goOn: bool, ghost trace: seq<Action>)
      requires recorder.run == this && worker.AtTop? && status == RunRunning && recorder.next == Some(worker.next)
      requires CoreInv(s0) && Replay(s0, before) == Some(Snapshot())
      modifies this, recorder
      ensures TurnEnds(goOn, recorder, Measure(old(Snapshot())), s0, trace)
    {
      hide Replay, Find, NextNode, SortedByIndex, UniqueIds, OneSaveNode, RevisionsBounded, StatusesFit, SaveDone, Numbered;
      trace := MaybeCancelled(tick.cancelBefore, s0, before);
      if tick.dieAtTop {
        trace := Die(s0, trace);
        return false, trace;
      }
      if cancelRequested {
        ReplayAppend(s0, trace, ObserveCancel);
        CancelAtTop(recorder);
        return false, trace + [ObserveCancel];
      }
      goOn, trace := ChooseAndRun(recorder, tick, s0, trace);
    }

    /** The second half of a turn: pick a node and run it, or complete the run. */
    method ChooseAndRun(recorder: EventRecorder, tick: Tick, ghost s0: Run, ghost before: seq<Action>)
      returns (goOn: bool, ghost trace: seq<Action>)
      requires recorder.run == this && worker.AtTop? && status == RunRunning && recorder.next == Some(worker.next)
      requires CoreInv(s0) && Replay(s0, before) == Some(Snapshot()) && !cancelRequested
      modifies this, recorder
      ensures TurnEnds(goOn, recorder, Measure(old(Snapshot())), s0, trace)
    {
      hide Replay, Find, NextNode, SortedByIndex, UniqueIds, OneSaveNode, RevisionsBounded, StatusesFit, SaveDone, Numbered;
      trace := before;
      var choice := PickNode();
      ReplayAppend(s0, trace, ChooseNext);
      worker := Decided(worker.next, choice);
      trace := trace + [ChooseNext];
      trace := MaybeCancelled(tick.cancelAfter, s0, trace);
      if tick.dieDecided {
        trace := Die(s0, trace);
        return false, trace;
      }
      if choice.None? {
        ReplayAppend(s0, trace, Complete);
        status := RunSucceeded;
        recorder.Add(RunCompleted, None, None);
        worker := Gone;
        return false, trace + [Complete];
      }
      CoreInvAlong(s0, trace);
      var k := ChosenNodeAt(Snapshot());
      var node := FindNode(choice.value);
      goOn, trace := RunNode(recorder, node.value, tick, s0, trace);
    }

    method ClaimRun(recorder: EventRecorder)
      requires recorder.run == this && recorder.next == None && status == RunQueued && worker == Gone
      modifies this, recorder
      ensures Snapshot() == Apply(old(Snapshot()), Claim)
      ensures worker.AtTop? && recorder.next == Some(worker.next) && status == RunRunning
    {
      status := RunRunning;
      recorder.Add(RunStarted, None, None);
      worker := AtTop(LastSequence(old(log)) + 2);
    }

    /** Turn after turn, until the run ends, pauses, fails, is cancelled, or the worker dies. */
    method Loop(recorder: EventRecorder, world: nat -> Tick, ghost s0: Run, ghost before: seq<Action>)
      returns (ghost trace: seq<Action>)
      requires recorder.run == this && worker.AtTop? && status == RunRunning && recorder.next == Some(worker.next)
      requires CoreInv(s0) && Replay(s0, before) == Some(Snapshot())
      modifies this, recorder
      ensures Replay(s0, trace) == Some(Snapshot()) && worker == Gone
      ensures status == RunRunning ==> trace != [] && trace[|trace| - 1] == Crash
    {
      trace := before;
      var goOn, turn: nat := true, 0;
      while goOn
        invariant Replay(s0, trace) == Some(Snapshot())
        invariant goOn ==> worker.AtTop? && recorder.next == Some(worker.next) && status == RunRunning
        invariant !goOn ==> worker == Gone && (status == RunRunning ==> trace != [] && trace[|trace| - 1] == Crash)
        decreases goOn, Measure(Snapshot())
      {
        goOn, trace := Turn(recorder, world(turn), s0, trace);
        StillRunning(s0, trace);
        turn := turn + 1;
      }
    }

    lemma StillRunning(s0: Run, trace: seq<Action>)
      requires CoreInv(s0) && Replay(s0, trace) == Some(Snapshot())
      ensures worker != Gone ==> status == RunRunning
    {
      CoreInvAlong(s0, trace);
    }

    /** The whole job: claim the run if it is queued, then loop. It terminates for every behaviour of
        the agents, the users and the machine, and what it does is a sequence of steps of the model. */
    method Execute(world: nat -> Tick) returns (claimed: bool, ghost trace: seq<Action>)
      requires CoreInv(Snapshot()) && worker == Gone
      modifies this
      ensures claimed <==> old(status) == RunQueued
      ensures Replay(old(Snapshot()), trace) == Some(Snapshot())
      ensures worker == Gone
      ensures claimed && status == RunRunning ==> trace != [] && trace[|trace| - 1] == Crash
      ensures !claimed ==> Snapshot() == old(Snapshot())
    {
      ghost var s0 := Snapshot();
      assert Replay(s0, []) == Some(s0);
      if status != RunQueued {
        return false, [];
      }
      var recorder := new EventRecorder(this);
      ReplayAppend(s0, [], Claim);
      ClaimRun(recorder);
      claimed := true;
      trace := Loop(recorder, world, s0, [] + [Claim]);
    }
  }

  /** Numbers a run's events. The last number is read from the log once and then cached. */
  class EventRecorder {
    const run: WorkflowRun
    var next: Option<nat>

    constructor (run: WorkflowRun)
      ensures this.run == run && next == None
    {
      this.run := run;
      next := None;
    }

    method Add(kind: EventType, nodeId: Option<NodeId>, nodeIndex: Option<int>)
      modifies this, run`log
      ensures var number := if old(next).Some? then old(next).value else LastSequence(old(run.log)) + 1;
        next == Some(number + 1) && run.log == old(run.log) + [Event(number, kind, nodeId, nodeIndex)]
    {
      if next.None? {
        var last := LastNumber(run.log);
        next := Some(last + 1);
      }
      var number := next.value;
      next := Some(number + 1);
      run.log := run.log + [Event(number, kind, nodeId, nodeIndex)];
    }

    /** The query max(sequence_no), or 0 when the run has no events. */
    static method LastNumber(log: seq<Event>) returns (last: nat)
      ensures last == LastSequence(log)
    {
      last := 0;
      for i := 0 to |log|
        invariant last == LastSequence(log[..i])
      {
        assert log[..i + 1][..i] == log[..i];
        if log[i].sequenceNo > last {
          last := log[i].sequenceNo;
        }
      }
      assert log[..|log|] == log;
    }
  }
}
