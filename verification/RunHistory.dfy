/** What the whole history of a run's commits says about its flags, its counters and its log. */
module RunHistory {
  import opened Options
  import opened RunStates
  import opened NodeIds
  import opened RunModel
  import opened RunInvariant
  import opened RunSteps
  import opened RunHead
  import opened RunOrder
  import opened RunResults

  // ----- a new run -----

  /** A row is new: it reads like this and waits for its turn. */
  predicate NewRow(n: Node, id: string, index: int, kind: NodeKind, agent: Option<nat>) {
    Render(n.id) == id && n.index == index && n.kind == kind && n.agent == agent && n.status == Pending && !n.answered
  }

  /** The rows of both plans, as the database shows them. */
  lemma PlansRead(agent: AgentRef, isManager: bool, maxRevisions: int)
    ensures var rows := Create(agent, isManager, true, maxRevisions).nodes;
      && |rows| == 4
      && NewRow(rows[0], "parse", 0, Parse, None) && NewRow(rows[1], "context", 1, Context, None)
      && NewRow(rows[2], "agent:" + agent.slug, 2, if isManager then Manager else AgentStep, Some(agent.id))
      && NewRow(rows[3], "save", 1000, Save, None)
    ensures var rows := Create(agent, isManager, false, maxRevisions).nodes;
      && |rows| == 6
      && NewRow(rows[0], "request", 0, Parse, None) && NewRow(rows[1], "select", 1, Select, Some(agent.id))
      && NewRow(rows[2], "context", 2, Context, None) && NewRow(rows[3], "files", 3, Files, None)
      && NewRow(rows[4], "gateway:" + agent.slug, 4, Gateway, Some(agent.id)) && NewRow(rows[5], "save", 1000, Save, None)
  {
    assert "agent" + [':'] == "agent:" && "gateway" + [':'] == "gateway:";
  }

  // ----- which statuses follow which -----

  predicate RunMoves(current: RunState, target: RunState) {
    match current
    case RunQueued => target in {RunRunning, RunCancelled}
    case RunRunning => target in {RunWaiting, RunSucceeded, RunFailed, RunCancelled}
    case RunWaiting => target in {RunQueued, RunCancelled}
    case RunFailed => target == RunQueued
    case _ => false
  }

  predicate RowMoves(current: NodeState, target: NodeState) {
    match current
    case Pending => target in {Running, Skipped}
    case Running => target in {Succeeded, Failed, Waiting}
    case Waiting => target in {Running, Skipped}
    case Failed => target == Pending
    case _ => false
  }

  predicate RowMovedOn(n: Node, m: Node) {
    m.id == n.id && (m.status == n.status || RowMoves(n.status, m.status))
  }

  /** These are the only changes of status any commit makes: fewer than the tables allow. No queued or
      waiting run fails, and neither does a node that does not run. */
  lemma OnlyTheseMoves(s: Run, a: Action)
    requires CoreInv(s) && Enabled(s, a)
    ensures Apply(s, a).status == s.status || RunMoves(s.status, Apply(s, a).status)
    ensures forall n <- s.nodes :: exists m <- Apply(s, a).nodes :: RowMovedOn(n, m)
  {
    StatusMoves(s, a);
    RowsMove(s, a);
  }

  lemma StatusMoves(s: Run, a: Action)
    requires CoreInv(s) && Enabled(s, a)
    ensures Apply(s, a).status == s.status || RunMoves(s.status, Apply(s, a).status)
  {
    hide AfterResult, WithStatus, WithAnswer, SkipOpen, FailRunning, ResetFailed, Find, FirstWaiting, NextNode, LastSequence, ReapEvents,
      UniqueIds, SortedByIndex, OneSaveNode, RevisionsBounded, StatusesFit, Numbered, SaveDone;
  }

  lemma RowsMove(s: Run, a: Action)
    requires CoreInv(s) && Enabled(s, a)
    ensures forall n <- s.nodes :: exists m <- Apply(s, a).nodes :: RowMovedOn(n, m)
  {
    hide CoreInv, Apply, Enabled;
    match a
    case StartNode => var k := StartShape(s); OneRowMoves(s.nodes, k, s.nodes[k].(status := Running));
    case Pause => var k := PauseShape(s); OneRowMoves(s.nodes, k, s.nodes[k].(status := Waiting, answered := false));
    case FailNode => var k := FailShape(s); OneRowMoves(s.nodes, k, s.nodes[k].(status := Failed));
    case AnswerClarification => var k := AnswerShape(s); OneRowMoves(s.nodes, k, s.nodes[k].(answered := true));
    case FinishNode(outcome) =>
      var k, grown := FinishShape(s, outcome);
      GrownMove(s.nodes, grown, k);
    case _ => PlainRowsMove(s, a);
  }

  lemma OneRowMoves(nodes: seq<Node>, k: nat, m: Node)
    requires k < |nodes| && RowMovedOn(nodes[k], m)
    ensures forall n <- nodes :: exists x <- nodes[k := m] :: RowMovedOn(n, x)
  {
    hide RowMoves;
    forall n | n in nodes ensures exists x <- nodes[k := m] :: RowMovedOn(n, x) {
      var i :| 0 <= i < |nodes| && nodes[i] == n;
      var x := nodes[k := m][i];
      assert x in nodes[k := m] && RowMovedOn(n, x);
    }
  }

  lemma SameRowsMove(before: seq<Node>, now: seq<Node>)
    requires |now| == |before| && forall i :: 0 <= i < |before| ==> RowMovedOn(before[i], now[i])
    ensures forall n <- before :: exists m <- now :: RowMovedOn(n, m)
  {
    hide RowMovedOn;
    forall n | n in before ensures exists m <- now :: RowMovedOn(n, m) {
      var i :| 0 <= i < |before| && before[i] == n;
      assert now[i] in now;
    }
  }

  lemma PlainRowsMove(s: Run, a: Action)
    requires Enabled(s, a) && a !in {StartNode, Pause, FailNode, AnswerClarification} && !a.FinishNode?
    ensures forall n <- s.nodes :: exists m <- Apply(s, a).nodes :: RowMovedOn(n, m)
  {
    hide RowMovedOn, SkipOpen, FailRunning, ResetFailed, ReapEvents, LastSequence, NextNode, Find, FirstWaiting;
    AllRowsMove(s.nodes);
  }

  lemma AllRowsMove(nodes: seq<Node>)
    ensures forall n <- nodes :: exists m <- nodes :: RowMovedOn(n, m)
    ensures forall n <- nodes :: exists m <- SkipOpen(nodes) :: RowMovedOn(n, m)
    ensures forall n <- nodes :: exists m <- FailRunning(nodes) :: RowMovedOn(n, m)
    ensures forall n <- nodes :: exists m <- ResetFailed(nodes) :: RowMovedOn(n, m)
  {
    SameRowsMove(nodes, nodes);
    SameRowsMove(nodes, SkipOpen(nodes));
    SameRowsMove(nodes, FailRunning(nodes));
    SameRowsMove(nodes, ResetFailed(nodes));
  }

  lemma GrownMove(before: seq<Node>, grown: seq<Node>, k: nat)
    requires GrownFrom(before, grown) && k < |before| && before[k].status == Running
    ensures forall n <- before :: exists m <- WithStatus(grown, before[k].id, Succeeded) :: RowMovedOn(n, m)
  {
    var now := WithStatus(grown, before[k].id, Succeeded);
    forall n | n in before ensures exists m <- now :: RowMovedOn(n, m) {
      assert n in grown;
      var i :| 0 <= i < |grown| && grown[i] == n;
      assert now[i] in now;
    }
  }

  // ----- cancelling and retrying -----

  /** A cancel was requested, and the run has not been retried since. */
  predicate AskedSinceRetry(actions: seq<Action>) {
    exists i :: 0 <= i < |actions| && actions[i] == RequestCancel && NoRetryAfter(actions, i)
  }

  predicate NoRetryAfter(actions: seq<Action>, i: int) {
    forall j :: i < j < |actions| && 0 <= j ==> actions[j] != Retry
  }

  lemma AskedNext(actions: seq<Action>, a: Action)
    ensures AskedSinceRetry(actions + [a]) <==> a == RequestCancel || (AskedSinceRetry(actions) && a != Retry)
  {
    var now := actions + [a];
    if AskedSinceRetry(actions) && a != Retry {
      var i :| 0 <= i < |actions| && actions[i] == RequestCancel && NoRetryAfter(actions, i);
      assert now[i] == RequestCancel && NoRetryAfter(now, i);
    }
    if a == RequestCancel {
      assert now[|actions|] == RequestCancel && NoRetryAfter(now, |actions|);
    }
    if i :| 0 <= i < |now| && now[i] == RequestCancel && NoRetryAfter(now, i) {
      if i < |actions| {
        assert now[|actions|] == a;
        forall j | i < j < |actions| ensures actions[j] != Retry {
          assert now[j] == actions[j];
        }
        assert actions[i] == RequestCancel && NoRetryAfter(actions, i);
      }
    }
  }

  function Retries(actions: seq<Action>): nat {
    if actions == [] then 0 else Retries(actions[..|actions| - 1]) + (if actions[|actions| - 1] == Retry then 1 else 0)
  }

  predicate FlagFits(s: Run, asked: bool, attempt: nat) {
    (s.cancelRequested <==> asked) && s.attempt == attempt && (s.status == RunCancelled ==> asked)
  }

  lemma StepKeepsFlag(s: Run, a: Action, asked: bool, attempt: nat)
    requires Enabled(s, a) && FlagFits(s, asked, attempt) && (s.worker != Gone ==> s.status == RunRunning)
    ensures FlagFits(Apply(s, a), a == RequestCancel || (asked && a != Retry), if a == Retry then attempt + 1 else attempt)
  {
    hide AfterResult, WithStatus, WithAnswer, SkipOpen, FailRunning, ResetFailed, Find, FirstWaiting, NextNode, LastSequence, ReapEvents;
  }

  /** The request stands exactly from a cancel request to the next retry, a run is only ever cancelled
      while it stands, and the attempt counts the retries. */
  lemma {:induction false} CancelNeedsRequest(
      agent: AgentRef, isManager: bool, isOrigin: bool, maxRevisions: int, actions: seq<Action>)
    requires Replay(Create(agent, isManager, isOrigin, maxRevisions), actions).Some?
    ensures var s := Replay(Create(agent, isManager, isOrigin, maxRevisions), actions).value;
      && (s.cancelRequested <==> AskedSinceRetry(actions))
      && (s.status == RunCancelled ==> AskedSinceRetry(actions))
      && s.attempt == 1 + Retries(actions)
  {
    hide CoreInv, Apply, Enabled, AskedSinceRetry;
    var s0 := Create(agent, isManager, isOrigin, maxRevisions);
    if actions == [] {
      NeverAsked(s0);
    } else {
      var front, last := actions[..|actions| - 1], actions[|actions| - 1];
      assert actions == front + [last];
      hide Create;
      CancelNeedsRequest(agent, isManager, isOrigin, maxRevisions, front);
      CreateEstablishesCore(agent, isManager, isOrigin, maxRevisions);
      ExecutorRuns(s0, front);
      AskedNext(front, last);
      StepKeepsFlag(Replay(s0, front).value, last, AskedSinceRetry(front), 1 + Retries(front));
    }
  }

  lemma NeverAsked(s: Run)
    ensures !AskedSinceRetry([]) && Replay(s, []) == Some(s)
  {
  }

  lemma ExecutorRuns(s0: Run, actions: seq<Action>)
    requires CoreInv(s0) && Replay(s0, actions).Some?
    ensures Replay(s0, actions).value.worker != Gone ==> Replay(s0, actions).value.status == RunRunning
  {
    hide Replay;
    CoreInvAlong(s0, actions);
  }

  lemma ReplayTwo(s0: Run, actions: seq<Action>, a: Action, b: Action)
    requires Replay(s0, actions).Some? && Enabled(Replay(s0, actions).value, a)
    requires Enabled(Apply(Replay(s0, actions).value, a), b)
    ensures Replay(s0, actions + [a, b]) == Some(Apply(Apply(Replay(s0, actions).value, a), b))
  {
    ReplayAppend(s0, actions, a);
    ReplayAppend(s0, actions + [a], b);
    assert actions + [a, b] == (actions + [a]) + [b];
  }

  /** After a retry the next executor can go on: it claims the run and chooses a node, whatever was
      requested before. */
  lemma RetryGoesOn(agent: AgentRef, isManager: bool, isOrigin: bool, maxRevisions: int, actions: seq<Action>)
    requires Replay(Create(agent, isManager, isOrigin, maxRevisions), actions).Some?
    requires actions != [] && actions[|actions| - 1] == Retry
    ensures var s0 := Create(agent, isManager, isOrigin, maxRevisions);
      && Replay(s0, actions + [Claim, ChooseNext]).Some? && Replay(s0, actions + [Claim, ObserveCancel]).None?
  {
    var s0 := Create(agent, isManager, isOrigin, maxRevisions);
    CancelNeedsRequest(agent, isManager, isOrigin, maxRevisions, actions);
    NothingAskedYet(actions);
    CreateEstablishesCore(agent, isManager, isOrigin, maxRevisions);
    CoreInvAlong(s0, actions);
    JustQueued(s0, actions);
    hide Create, CoreInv, AskedSinceRetry, Replay;
    ClaimGoesOn(s0, actions);
  }

  lemma NothingAskedYet(actions: seq<Action>)
    requires actions != [] && actions[|actions| - 1] == Retry
    ensures !AskedSinceRetry(actions)
  {
  }

  lemma ClaimGoesOn(s0: Run, actions: seq<Action>)
    requires Replay(s0, actions).Some?
    requires var s := Replay(s0, actions).value; s.status == RunQueued && s.worker == Gone && !s.cancelRequested
    ensures Replay(s0, actions + [Claim, ChooseNext]).Some? && Replay(s0, actions + [Claim, ObserveCancel]).None?
  {
    hide NextNode, LastSequence;
    ReplayTwo(s0, actions, Claim, ChooseNext);
    ReplayAppend(s0, actions, Claim);
    var all := actions + [Claim, ObserveCancel];
    assert all[..|all| - 1] == actions + [Claim];
  }

  lemma JustQueued(s0: Run, actions: seq<Action>)
    requires Replay(s0, actions).Some? && actions != [] && actions[|actions| - 1] == Retry && CoreInv(Replay(s0, actions).value)
    ensures Replay(s0, actions).value.status == RunQueued && Replay(s0, actions).value.worker == Gone
  {
  }

  /** The node that failed is the one that runs again, and nothing that succeeded is touched. */
  lemma FailedNodeRunsAgain(
      agent: AgentRef, isManager: bool, isOrigin: bool, maxRevisions: int, actions: seq<Action>, k: nat)
    requires Replay(Create(agent, isManager, isOrigin, maxRevisions), actions).Some?
    requires var s := Replay(Create(agent, isManager, isOrigin, maxRevisions), actions).value;
      k < |s.nodes| && s.nodes[k].status == Failed
    ensures var s0 := Create(agent, isManager, isOrigin, maxRevisions);
      var t := Replay(s0, actions + [Retry, Claim, ChooseNext, StartNode]);
      && t.Some? && t.value.nodes == Replay(s0, actions).value.nodes[k := Replay(s0, actions).value.nodes[k].(status := Running)]
      && t.value.worker.InNode? && t.value.worker.node == Replay(s0, actions).value.nodes[k].id
  {
    hide Create, Replay, Apply, Enabled;
    var s0 := Create(agent, isManager, isOrigin, maxRevisions);
    var s := Replay(s0, actions).value;
    assert Reaches(s0, s);
    ReachableHeadFits(agent, isManager, isOrigin, maxRevisions, s);
    hide CoreInv, HeadFits;
    HeadIsFirst(s);
    hide OpenFirst, UniqueIds;
    OneReset(s, k);
    var again := OnlyFailedFails(s, k);
    ReplayAppend(s0, actions, Retry);
    RetryGoesOn(agent, isManager, isOrigin, maxRevisions, actions + [Retry]);
    StartAgain(s0, actions + [Retry], s, k);
    assert actions + [Retry, Claim, ChooseNext, StartNode] == (actions + [Retry]) + [Claim, ChooseNext, StartNode];
  }

  lemma HeadIsFirst(s: Run)
    requires CoreInv(s) && HeadFits(s)
    ensures OpenFirst(s.nodes) && UniqueIds(s.nodes)
  {
  }

  lemma OneReset(s: Run, k: nat)
    requires OpenFirst(s.nodes) && k < |s.nodes| && s.nodes[k].status == Failed
    ensures ResetFailed(s.nodes) == s.nodes[k := s.nodes[k].(status := Pending)]
  {
    OneOpen(s.nodes, k);
  }

  lemma OnlyFailedFails(s: Run, k: nat) returns (t: Run)
    requires CoreInv(s) && k < |s.nodes| && s.nodes[k].status == Failed
    ensures Enabled(s, Retry) && t == Apply(s, Retry) && t.nodes == ResetFailed(s.nodes)
  {
    assert NodeFits(s.status, s.worker, s.nodes[k]);
    t := Apply(s, Retry);
  }

  lemma StartAgain(s0: Run, retried: seq<Action>, before: Run, k: nat)
    requires Replay(s0, retried).Some? && Replay(s0, retried + [Claim, ChooseNext]).Some?
    requires UniqueIds(before.nodes) && OpenFirst(before.nodes) && k < |before.nodes| && before.nodes[k].status == Failed
    requires Replay(s0, retried).value.nodes == before.nodes[k := before.nodes[k].(status := Pending)]
    ensures var t := Replay(s0, retried + [Claim, ChooseNext, StartNode]);
      && t.Some? && t.value.nodes == before.nodes[k := before.nodes[k].(status := Running)]
      && t.value.worker.InNode? && t.value.worker.node == before.nodes[k].id
  {
    var now := before.nodes[k := before.nodes[k].(status := Pending)];
    assert IsOpen(before.nodes[k]);
    NextIsFirst(now, k);
    FindIsAt(now, k);
    WithStatusIsUpdate(now, k, Running);
    hide Find, NextNode, WithStatus, UniqueIds, OpenFirst;
    ClaimedAndChosen(s0, retried);
    var chosen := Replay(s0, retried + [Claim, ChooseNext]).value;
    ReplayAppend(s0, retried + [Claim, ChooseNext], StartNode);
    assert retried + [Claim, ChooseNext, StartNode] == (retried + [Claim, ChooseNext]) + [StartNode];
  }

  lemma ClaimedAndChosen(s0: Run, actions: seq<Action>)
    requires Replay(s0, actions).Some? && Replay(s0, actions + [Claim, ChooseNext]).Some?
    ensures var s, t := Replay(s0, actions).value, Replay(s0, actions + [Claim, ChooseNext]).value;
      t.nodes == s.nodes && t.worker.Decided? && t.worker.choice == NextNode(s.nodes)
  {
    var all := actions + [Claim, ChooseNext];
    assert all[..|all| - 1] == actions + [Claim] && (actions + [Claim])[..|actions|] == actions;
    hide NextNode, LastSequence;
  }

  // ----- exhausted revisions -----

  /** A check fails and no revision is left. */
  predicate OutOfRevisions(s: Run, a: Action) {
    && a.FinishNode? && a.outcome.qcPassed == Some(false) && s.revisions >= s.maxRevisions
    && exists k :: 0 <= k < |s.nodes| && s.nodes[k].status == Running && s.nodes[k].kind in {AgentStep, Manager}
  }

  ghost predicate RanOut(s0: Run, actions: seq<Action>) {
    exists i :: 0 <= i < |actions| && OutAt(s0, actions, i)
  }

  predicate OutAt(s0: Run, actions: seq<Action>, i: int) {
    0 <= i < |actions| && Replay(s0, actions[..i]).Some? && OutOfRevisions(Replay(s0, actions[..i]).value, actions[i])
  }

  lemma RanOutNext(s0: Run, actions: seq<Action>, a: Action)
    requires Replay(s0, actions).Some?
    ensures RanOut(s0, actions + [a]) <==> RanOut(s0, actions) || OutOfRevisions(Replay(s0, actions).value, a)
  {
    hide OutOfRevisions, Replay;
    var now := actions + [a];
    assert now[..|actions|] == actions && now[|actions|] == a;
    assert forall i :: 0 <= i < |actions| ==> now[..i] == actions[..i] && now[i] == actions[i];
    if i :| 0 <= i < |actions| && OutAt(s0, actions, i) {
      assert OutAt(s0, now, i);
    }
    if OutOfRevisions(Replay(s0, actions).value, a) {
      assert OutAt(s0, now, |actions|);
    }
    if i :| 0 <= i < |now| && OutAt(s0, now, i) {
      if i < |actions| {
        assert OutAt(s0, actions, i);
      }
    }
  }

  lemma StepExhausts(agent: AgentRef, isManager: bool, isOrigin: bool, maxRevisions: int, s: Run, a: Action)
    requires Reaches(Create(agent, isManager, isOrigin, maxRevisions), s) && Enabled(s, a)
    ensures Apply(s, a).qcExhausted <==> s.qcExhausted || OutOfRevisions(s, a)
  {
    if a.FinishNode? {
      FinishExhausts(agent, isManager, isOrigin, maxRevisions, s, a.outcome);
    } else {
      hide Create, Reaches, WithStatus, WithAnswer, SkipOpen, FailRunning, ResetFailed, Find, FirstWaiting, NextNode, LastSequence,
        ReapEvents;
    }
  }

  lemma OneRuns(s: Run) returns (k: nat)
    requires CoreInv(s) && s.worker.InNode?
    ensures k < |s.nodes| && forall i :: 0 <= i < |s.nodes| ==> (s.nodes[i].status == Running <==> i == k)
  {
    k := RunningNodeAt(s);
  }

  lemma OutIs(s: Run, k: nat, outcome: Outcome)
    requires k < |s.nodes| && forall i :: 0 <= i < |s.nodes| ==> (s.nodes[i].status == Running <==> i == k)
    ensures OutOfRevisions(s, FinishNode(outcome)) <==>
      outcome.qcPassed == Some(false) && s.revisions >= s.maxRevisions && s.nodes[k].kind in {AgentStep, Manager}
  {
  }

  lemma FinishExhausts(agent: AgentRef, isManager: bool, isOrigin: bool, maxRevisions: int, s: Run, outcome: Outcome)
    requires Reaches(Create(agent, isManager, isOrigin, maxRevisions), s) && Enabled(s, FinishNode(outcome))
    ensures Apply(s, FinishNode(outcome)).qcExhausted <==> s.qcExhausted || OutOfRevisions(s, FinishNode(outcome))
  {
    assert s.worker.InNode?;
    hide Create, Reaches, Apply, Enabled, Ordered, HeadFits, CoreInv, SentBack, LastSentBack, SendsBack, OutOfRevisions;
    ReachableOrdered(agent, isManager, isOrigin, maxRevisions, s);
    var k := OneRuns(s);
    OutIs(s, k, outcome);
    if s.nodes[k].kind == Manager {
      ManagerNoRevision(agent, isManager, isOrigin, maxRevisions, s, k);
      PlanIsLaidOut(agent, isManager, isOrigin, maxRevisions, s, k, outcome);
    } else if s.nodes[k].kind == AgentStep && outcome.qcPassed == Some(false) {
      FailedCheckMeans(agent, isManager, isOrigin, maxRevisions, s, k, outcome);
    } else {
      PassedCheckMeans(agent, isManager, isOrigin, maxRevisions, s, k, outcome);
    }
  }

  lemma ManagerNoRevision(agent: AgentRef, isManager: bool, isOrigin: bool, maxRevisions: int, s: Run, k: nat)
    requires Reaches(Create(agent, isManager, isOrigin, maxRevisions), s)
    requires k < |s.nodes| && s.nodes[k].kind == Manager && s.nodes[k].status == Running
    ensures s.revisions == 0
  {
    ReachableOrdered(agent, isManager, isOrigin, maxRevisions, s);
    hide Create, Reaches;
  }

  /** The mark for exhausted revisions is set if and only if at some time a check failed with none left. */
  lemma {:induction false} ExhaustedExactly(
      agent: AgentRef, isManager: bool, isOrigin: bool, maxRevisions: int, actions: seq<Action>)
    requires Replay(Create(agent, isManager, isOrigin, maxRevisions), actions).Some?
    ensures var s0 := Create(agent, isManager, isOrigin, maxRevisions);
      Replay(s0, actions).value.qcExhausted <==> RanOut(s0, actions)
  {
    hide Apply, Enabled, OutOfRevisions, RanOut;
    var s0 := Create(agent, isManager, isOrigin, maxRevisions);
    if actions == [] {
      NeverRanOut(s0);
    } else {
      var front, last := actions[..|actions| - 1], actions[|actions| - 1];
      assert actions == front + [last];
      hide Create;
      ExhaustedExactly(agent, isManager, isOrigin, maxRevisions, front);
      assert Reaches(s0, Replay(s0, front).value);
      StepExhausts(agent, isManager, isOrigin, maxRevisions, Replay(s0, front).value, last);
      RanOutNext(s0, front, last);
    }
  }

  lemma NeverRanOut(s: Run)
    ensures !RanOut(s, [])
  {
  }

  // ----- each node completes once -----

  predicate CompletesNode(e: Event, n: Node) {
    e.kind == NodeCompleted && e.nodeId == Some(n.id) && e.nodeIndex == Some(n.index)
  }

  predicate OncePerNode(log: seq<Event>) {
    forall i, j :: 0 <= i < j < |log| && log[i].kind == log[j].kind == NodeCompleted ==> log[i].nodeId != log[j].nodeId
  }

  predicate HasNode(e: Event, nodes: seq<Node>) {
    exists n <- nodes :: n.status == Succeeded && CompletesNode(e, n)
  }

  predicate HasEvent(n: Node, log: seq<Event>) {
    exists e <- log :: CompletesNode(e, n)
  }

  predicate EventsHaveNodes(log: seq<Event>, nodes: seq<Node>) {
    forall e <- log :: e.kind == NodeCompleted ==> HasNode(e, nodes)
  }

  predicate NodesHaveEvents(nodes: seq<Node>, log: seq<Event>) {
    forall n <- nodes :: n.status == Succeeded ==> HasEvent(n, log)
  }

  /** Exactly the succeeded nodes have an event of their completion, and only one. */
  predicate CompletionsFit(s: Run) {
    OncePerNode(s.log) && EventsHaveNodes(s.log, s.nodes) && NodesHaveEvents(s.nodes, s.log)
  }

  lemma QuietOnce(before: seq<Event>, now: seq<Event>)
    requires before <= now && NoneCompleted(now[|before|..]) && OncePerNode(before)
    ensures OncePerNode(now)
    ensures forall e <- now :: e.kind == NodeCompleted ==> e in before
    ensures forall e <- before :: e in now
  {
    assert now == before + now[|before|..];
    forall e | e in now && e.kind == NodeCompleted ensures e in before {
      var i :| 0 <= i < |now| && now[i] == e;
    }
  }

  lemma SameDoneNodes(before: seq<Node>, now: seq<Node>)
    requires SameDone(before, now)
    ensures forall e: Event :: HasNode(e, before) ==> HasNode(e, now)
    ensures forall log: seq<Event> :: NodesHaveEvents(before, log) ==> NodesHaveEvents(now, log)
  {
    forall e: Event | HasNode(e, before) ensures HasNode(e, now) {
      var n :| n in before && n.status == Succeeded && CompletesNode(e, n);
      var i :| 0 <= i < |before| && before[i] == n;
      assert now[i] in now && CompletesNode(e, now[i]);
    }
    forall log: seq<Event> | NodesHaveEvents(before, log) ensures NodesHaveEvents(now, log) {
      forall n | n in now && n.status == Succeeded ensures HasEvent(n, log) {
        var i :| 0 <= i < |now| && now[i] == n;
        assert before[i] in before && HasEvent(before[i], log);
        var e :| e in log && CompletesNode(e, before[i]);
        assert CompletesNode(e, n);
      }
    }
  }

  lemma MoreEvents(nodes: seq<Node>, before: seq<Event>, now: seq<Event>)
    requires NodesHaveEvents(nodes, before) && forall e <- before :: e in now
    ensures NodesHaveEvents(nodes, now)
  {
    forall n | n in nodes && n.status == Succeeded ensures HasEvent(n, now) {
      var e :| e in before && CompletesNode(e, n);
      assert e in now;
    }
  }

  lemma QuietCompletions(s: Run, t: Run)
    requires CompletionsFit(s) && SameDone(s.nodes, t.nodes) && s.log <= t.log && NoneCompleted(t.log[|s.log|..])
    ensures CompletionsFit(t)
  {
    hide NoneCompleted, OncePerNode, HasNode, NodesHaveEvents, SameDone;
    QuietOnce(s.log, t.log);
    SameDoneNodes(s.nodes, t.nodes);
    MoreEvents(t.nodes, s.log, t.log);
  }

  /** The rows after a node is done: those that had succeeded, and that one. */
  predicate OneMoreDone(before: seq<Node>, now: seq<Node>, k: nat)
    requires k < |before|
  {
    && (forall i :: 0 <= i < |before| && before[i].status == Succeeded ==> before[i] in now)
    && before[k].(status := Succeeded) in now
    && (forall m <- now :: m.status == Succeeded ==> m == before[k].(status := Succeeded) || m in before)
  }

  lemma DoneRows(before: seq<Node>, grown: seq<Node>, k: nat)
    requires k < |before| && before[k].status == Running && UniqueIds(before) && GrownFrom(before, grown)
    ensures OneMoreDone(before, WithStatus(grown, before[k].id, Succeeded), k)
  {
    var node, now := before[k], WithStatus(grown, before[k].id, Succeeded);
    assert node in grown;
    var p :| 0 <= p < |grown| && grown[p] == node;
    WithStatusIsUpdate(grown, p, Succeeded);
    hide WithStatus;
    assert now[p] in now;
    forall i | 0 <= i < |before| && before[i].status == Succeeded ensures before[i] in now {
      assert before[i] in grown;
      var q :| 0 <= q < |grown| && grown[q] == before[i];
      assert now[q] == before[i];
    }
    forall m | m in now && m.status == Succeeded ensures m == node.(status := Succeeded) || m in before {
      var q :| 0 <= q < |now| && now[q] == m;
      assert q != p ==> grown[q] in grown;
    }
  }

  lemma DoneHasEvents(before: seq<Node>, now: seq<Node>, k: nat, log: seq<Event>, e: Event)
    requires NodesHaveEvents(before, log) && k < |before| && OneMoreDone(before, now, k)
    requires CompletesNode(e, before[k].(status := Succeeded))
    ensures NodesHaveEvents(now, log + [e])
  {
    forall n | n in now && n.status == Succeeded ensures HasEvent(n, log + [e]) {
      if n == before[k].(status := Succeeded) {
        assert e in log + [e];
      } else {
        var c :| c in log && CompletesNode(c, n);
        assert c in log + [e];
      }
    }
  }

  lemma DoneHasNodes(before: seq<Node>, now: seq<Node>, k: nat, log: seq<Event>, e: Event)
    requires EventsHaveNodes(log, before) && k < |before| && OneMoreDone(before, now, k)
    requires CompletesNode(e, before[k].(status := Succeeded))
    ensures EventsHaveNodes(log + [e], now)
  {
    forall c | c in log + [e] && c.kind == NodeCompleted ensures HasNode(c, now) {
      if c in log {
        var n :| n in before && n.status == Succeeded && CompletesNode(c, n);
        var i :| 0 <= i < |before| && before[i] == n;
        assert n in now;
      }
    }
  }

  lemma DoneOnce(nodes: seq<Node>, k: nat, log: seq<Event>, e: Event)
    requires OncePerNode(log) && EventsHaveNodes(log, nodes) && UniqueIds(nodes) && k < |nodes| && nodes[k].status == Running
    requires CompletesNode(e, nodes[k].(status := Succeeded))
    ensures OncePerNode(log + [e])
  {
    forall i | 0 <= i < |log| && log[i].kind == NodeCompleted ensures log[i].nodeId != e.nodeId {
      assert log[i] in log && HasNode(log[i], nodes);
      var n :| n in nodes && n.status == Succeeded && CompletesNode(log[i], n);
      var m :| 0 <= m < |nodes| && nodes[m] == n;
      assert m != k;
    }
  }

  lemma FinishCompletions(s: Run, t: Run, k: nat)
    requires CompletionsFit(s) && UniqueIds(s.nodes) && k < |s.nodes| && s.nodes[k].status == Running
    requires OneMoreDone(s.nodes, t.nodes, k)
    requires t.log == s.log + [NodeEvent(|s.log| + 1, NodeCompleted, s.nodes[k])]
    ensures CompletionsFit(t)
  {
    hide OncePerNode, EventsHaveNodes, NodesHaveEvents, OneMoreDone, UniqueIds;
    var e := NodeEvent(|s.log| + 1, NodeCompleted, s.nodes[k]);
    DoneOnce(s.nodes, k, s.log, e);
    DoneHasNodes(s.nodes, t.nodes, k, s.log, e);
    DoneHasEvents(s.nodes, t.nodes, k, s.log, e);
  }

  lemma StepKeepsCompletions(s: Run, a: Action)
    requires CoreInv(s) && Enabled(s, a) && CompletionsFit(s)
    ensures CompletionsFit(Apply(s, a))
  {
    hide CompletionsFit, Apply, Enabled;
    if a.FinishNode? {
      var k, grown := FinishShape(s, a.outcome);
      DoneRows(s.nodes, grown, k);
      hide OneMoreDone, GrownFrom;
      FinishCompletions(s, Apply(s, a), k);
    } else {
      QuietStep(s, a);
      QuietCompletions(s, Apply(s, a));
    }
  }

  lemma {:induction false} CompletionsAlong(s0: Run, actions: seq<Action>)
    requires CoreInv(s0) && CompletionsFit(s0) && Replay(s0, actions).Some?
    ensures CompletionsFit(Replay(s0, actions).value)
  {
    hide CoreInv, CompletionsFit, Apply, Enabled;
    if actions != [] {
      CompletionsAlong(s0, actions[..|actions| - 1]);
      CoreInvAlong(s0, actions[..|actions| - 1]);
      StepKeepsCompletions(Replay(s0, actions[..|actions| - 1]).value, actions[|actions| - 1]);
    }
  }

  /** In every reachable run each node that succeeded has exactly one event of its completion, however
      often the run was retried, recovered or reaped, and no other node has any. */
  lemma EachNodeCompletesOnce(agent: AgentRef, isManager: bool, isOrigin: bool, maxRevisions: int, s: Run)
    requires Reaches(Create(agent, isManager, isOrigin, maxRevisions), s)
    ensures CompletionsFit(s)
  {
    var s0 := Create(agent, isManager, isOrigin, maxRevisions);
    CreateEstablishesCore(agent, isManager, isOrigin, maxRevisions);
    CreateEstablishesHead(agent, isManager, isOrigin, maxRevisions);
    assert CompletionsFit(s0);
    hide Create, CoreInv, CompletionsFit, Replay, HeadFits;
    var actions :| Replay(s0, actions) == Some(s);
    CompletionsAlong(s0, actions);
  }
}
