/** The node in progress, in every reachable run and for every value of max_revisions. */
module RunHead {
  import opened Options
  import opened RunStates
  import opened NodeIds
  import opened RunModel
  import opened RunInvariant
  import opened RunSteps

  /** A node that runs, waits or has failed. */
  predicate IsOpen(n: Node) {
    n.status in {Running, Waiting, Failed}
  }

  /** Everything in front of an open node has succeeded, so there is at most one. */
  predicate OpenFirst(nodes: seq<Node>) {
    forall i, p :: 0 <= i < p < |nodes| && IsOpen(nodes[p]) ==> nodes[i].status == Succeeded
  }

  predicate SomeWaiting(nodes: seq<Node>) {
    exists i :: 0 <= i < |nodes| && nodes[i].status == Waiting
  }

  predicate AllIn(nodes: seq<Node>, statuses: set<NodeState>) {
    forall i :: 0 <= i < |nodes| ==> nodes[i].status in statuses
  }

  /** A node waits without an answer only while its run waits. */
  predicate AnsweredUnless(nodes: seq<Node>, waiting: bool) {
    forall i :: 0 <= i < |nodes| && nodes[i].status == Waiting && !nodes[i].answered ==> waiting
  }

  predicate HeadFits(s: Run) {
    && s.nodes != [] && OpenFirst(s.nodes)
    && AnsweredUnless(s.nodes, s.status == RunWaiting)
    && (s.status == RunWaiting ==> SomeWaiting(s.nodes))
    && (s.status == RunSucceeded ==> AllIn(s.nodes, {Succeeded}))
    && (s.status == RunCancelled ==> AllIn(s.nodes, {Succeeded, Skipped}))
  }

  // ----- the next node -----

  lemma {:induction false} NextIsFirst(nodes: seq<Node>, k: nat)
    requires k <= |nodes|
    requires forall i :: 0 <= i < k ==> !Runnable(nodes[i])
    requires k < |nodes| ==> Runnable(nodes[k])
    ensures NextNode(nodes) == if k < |nodes| then Some(nodes[k].id) else None
  {
    if nodes != [] && !Runnable(nodes[0]) {
      NextIsFirst(nodes[1..], k - 1);
    }
  }

  lemma {:induction false} NextNodeIsFirst(nodes: seq<Node>) returns (k: nat)
    ensures k <= |nodes| && forall i :: 0 <= i < k ==> !Runnable(nodes[i])
    ensures if k < |nodes| then Runnable(nodes[k]) && NextNode(nodes) == Some(nodes[k].id) else NextNode(nodes) == None
  {
    if nodes == [] || Runnable(nodes[0]) {
      k := 0;
    } else {
      var rest := NextNodeIsFirst(nodes[1..]);
      k := rest + 1;
    }
  }

  /** While the executor chooses, a node that is not runnable has succeeded. */
  lemma NotRunnableMeansDone(s: Run, n: Node)
    requires HeadFits(s) && StatusesFit(s) && s.status == RunRunning && s.worker.Decided?
    requires n in s.nodes && !Runnable(n)
    ensures n.status == Succeeded
  {
    var i :| 0 <= i < |s.nodes| && s.nodes[i] == n;
    assert NodeFits(s.status, s.worker, s.nodes[i]);
  }

  // ----- the steps -----

  /** A node with only succeeded ones in front of it, itself not succeeded, changes. */
  lemma HeadMoves(nodes: seq<Node>, k: nat, n: Node)
    requires OpenFirst(nodes) && k < |nodes| && nodes[k].status != Succeeded
    requires forall i :: 0 <= i < k ==> nodes[i].status == Succeeded
    ensures OpenFirst(nodes[k := n])
  {
    assert forall p :: k < p < |nodes| ==> !IsOpen(nodes[p]);
  }

  lemma StartKeepsHead(s: Run)
    requires CoreInv(s) && HeadFits(s) && Enabled(s, StartNode)
    ensures HeadFits(Apply(s, StartNode))
  {
    var k := NextNodeIsFirst(s.nodes);
    FindIsAt(s.nodes, k);
    WithStatusIsUpdate(s.nodes, k, Running);
    forall i | 0 <= i < k ensures s.nodes[i].status == Succeeded {
      NotRunnableMeansDone(s, s.nodes[i]);
    }
    HeadMoves(s.nodes, k, s.nodes[k].(status := Running));
  }

  lemma PauseKeepsHead(s: Run)
    requires CoreInv(s) && HeadFits(s) && Enabled(s, Pause)
    ensures HeadFits(Apply(s, Pause))
  {
    var k := PauseShape(s);
    var t := Apply(s, Pause);
    HeadMoves(s.nodes, k, t.nodes[k]);
    assert t.nodes[k].status == Waiting;
  }

  lemma FailKeepsHead(s: Run)
    requires CoreInv(s) && HeadFits(s) && Enabled(s, FailNode)
    ensures HeadFits(Apply(s, FailNode))
  {
    var k := FailShape(s);
    HeadMoves(s.nodes, k, Apply(s, FailNode).nodes[k]);
  }

  /** The only waiting node gets its answer. */
  lemma AnswerKeepsHead(s: Run)
    requires CoreInv(s) && HeadFits(s) && Enabled(s, AnswerClarification)
    ensures HeadFits(Apply(s, AnswerClarification))
  {
    var k := AnswerShape(s);
    var t := Apply(s, AnswerClarification);
    HeadMoves(s.nodes, k, t.nodes[k]);
    forall i | 0 <= i < |t.nodes| && i != k ensures t.nodes[i].status != Waiting {
      assert t.nodes[i] == s.nodes[i] && IsOpen(s.nodes[k]);
    }
  }

  /** When the running node is done, no node is open, whatever was added. */
  lemma FinishKeepsHead(s: Run, outcome: Outcome)
    requires CoreInv(s) && HeadFits(s) && Enabled(s, FinishNode(outcome))
    ensures HeadFits(Apply(s, FinishNode(outcome)))
    ensures AllIn(Apply(s, FinishNode(outcome)).nodes, {Succeeded, Pending})
  {
    hide UniqueIds, SortedByIndex, OneSaveNode, RevisionsBounded, SaveDone, GrownFrom, WithStatus, AllIn, StatusesFit, AfterResult, OpenFirst;
    var k, grown := FinishShape(s, outcome);
    FinishedAllIn(s, k, grown);
    NoneOpenFits(Apply(s, FinishNode(outcome)));
  }

  lemma NoneOpenFits(t: Run)
    requires t.nodes != [] && t.status == RunRunning && AllIn(t.nodes, {Succeeded, Pending})
    ensures HeadFits(t)
  {
  }

  lemma FinishedAllIn(s: Run, k: nat, grown: seq<Node>)
    requires OpenFirst(s.nodes) && StatusesFit(s) && s.status == RunRunning
    requires k < |s.nodes| && s.nodes[k].status == Running && GrownFrom(s.nodes, grown)
    ensures WithStatus(grown, s.nodes[k].id, Succeeded) != []
    ensures AllIn(WithStatus(grown, s.nodes[k].id, Succeeded), {Succeeded, Pending})
  {
    assert s.nodes[k] in grown;
    forall i | 0 <= i < |grown|
      ensures WithStatus(grown, s.nodes[k].id, Succeeded)[i].status in {Succeeded, Pending}
    {
      assert grown[i] in grown;
      if grown[i] in s.nodes {
        var j :| 0 <= j < |s.nodes| && s.nodes[j] == grown[i];
        assert NodeFits(s.status, s.worker, s.nodes[j]) && IsOpen(s.nodes[k]);
      }
    }
  }

  /** The executor completes a run when it finds nothing to do, and then everything has succeeded. */
  lemma CompleteKeepsHead(s: Run)
    requires CoreInv(s) && HeadFits(s) && Enabled(s, Complete)
    ensures HeadFits(Apply(s, Complete))
  {
    var k := NextNodeIsFirst(s.nodes);
    forall i | 0 <= i < |s.nodes| ensures s.nodes[i].status == Succeeded {
      NotRunnableMeansDone(s, s.nodes[i]);
    }
  }

  lemma CancelKeepsHead(s: Run, a: Action)
    requires a == ObserveCancel || a == RequestCancel
    requires CoreInv(s) && HeadFits(s) && Enabled(s, a)
    ensures HeadFits(Apply(s, a))
  {
    var t := Apply(s, a);
    if t.status == RunCancelled {
      forall i | 0 <= i < |t.nodes| ensures t.nodes[i].status in {Succeeded, Skipped} {
        assert NodeFits(s.status, s.worker, s.nodes[i]);
      }
    }
  }

  lemma RecoveryKeepsHead(s: Run, a: Action)
    requires a in {Retry, Reap, RecoverStale}
    requires CoreInv(s) && HeadFits(s) && Enabled(s, a)
    ensures HeadFits(Apply(s, a))
  {
    var t := Apply(s, a);
    assert t.nodes == if a == Retry then ResetFailed(s.nodes) else FailRunning(s.nodes);
    assert t.status == if a == Retry then RunQueued else RunFailed;
    forall i, p | 0 <= i < p < |t.nodes| && IsOpen(t.nodes[p]) ensures t.nodes[i].status == Succeeded {
      assert IsOpen(s.nodes[p]);
    }
  }

  lemma StepKeepsHead(s: Run, a: Action)
    requires CoreInv(s) && HeadFits(s) && Enabled(s, a)
    ensures HeadFits(Apply(s, a))
  {
    match a
    case StartNode => StartKeepsHead(s);
    case Pause => PauseKeepsHead(s);
    case FailNode => FailKeepsHead(s);
    case FinishNode(outcome) => FinishKeepsHead(s, outcome);
    case AnswerClarification => AnswerKeepsHead(s);
    case Complete => CompleteKeepsHead(s);
    case ObserveCancel => CancelKeepsHead(s, a);
    case RequestCancel => CancelKeepsHead(s, a);
    case Retry => RecoveryKeepsHead(s, a);
    case Reap => RecoveryKeepsHead(s, a);
    case RecoverStale => RecoveryKeepsHead(s, a);
    case _ =>
  }

  lemma {:induction false} HeadFitsAlong(s0: Run, actions: seq<Action>)
    requires CoreInv(s0) && HeadFits(s0) && Replay(s0, actions).Some?
    ensures CoreInv(Replay(s0, actions).value) && HeadFits(Replay(s0, actions).value)
  {
    hide CoreInv, HeadFits, Enabled;
    if actions != [] {
      var front, last := actions[..|actions| - 1], actions[|actions| - 1];
      HeadFitsAlong(s0, front);
      StepKeepsCore(Replay(s0, front).value, last);
      StepKeepsHead(Replay(s0, front).value, last);
    }
  }

  lemma CreateEstablishesHead(agent: AgentRef, isManager: bool, isOrigin: bool, maxRevisions: int)
    ensures HeadFits(Create(agent, isManager, isOrigin, maxRevisions))
    ensures AllIn(Create(agent, isManager, isOrigin, maxRevisions).nodes, {Pending})
  {
    PlansArePending(agent, isManager);
    var nodes := Create(agent, isManager, isOrigin, maxRevisions).nodes;
    assert nodes != [];
    hide PlanFor, PlanForExisting;
    assert forall i :: 0 <= i < |nodes| ==> nodes[i].status == Pending;
  }

  /** In every reachable state of every run. */
  lemma ReachableHeadFits(agent: AgentRef, isManager: bool, isOrigin: bool, maxRevisions: int, s: Run)
    requires Reaches(Create(agent, isManager, isOrigin, maxRevisions), s)
    ensures CoreInv(s) && HeadFits(s)
  {
    hide Create, CoreInv, HeadFits, Replay;
    var s0 := Create(agent, isManager, isOrigin, maxRevisions);
    CreateEstablishesCore(agent, isManager, isOrigin, maxRevisions);
    CreateEstablishesHead(agent, isManager, isOrigin, maxRevisions);
    var actions :| Replay(s0, actions) == Some(s);
    HeadFitsAlong(s0, actions);
  }

  /** At most one node runs, waits or has failed, and everything in front of it has succeeded; none
      runs unless its run does; a succeeded run has only succeeded nodes and a cancelled one only
      succeeded and skipped ones. */
  lemma ReachableRunsHaveOneHead(agent: AgentRef, isManager: bool, isOrigin: bool, maxRevisions: int, s: Run)
    requires Reaches(Create(agent, isManager, isOrigin, maxRevisions), s)
    ensures OpenFirst(s.nodes)
    ensures forall i :: 0 <= i < |s.nodes| && s.nodes[i].status == Running ==> s.status == RunRunning
    ensures s.status == RunSucceeded ==> AllIn(s.nodes, {Succeeded})
    ensures s.status == RunCancelled ==> AllIn(s.nodes, {Succeeded, Skipped})
  {
    ReachableHeadFits(agent, isManager, isOrigin, maxRevisions, s);
    assert forall i :: 0 <= i < |s.nodes| ==> NodeFits(s.status, s.worker, s.nodes[i]);
  }

  // ----- the projection rule -----

  function States(nodes: seq<Node>): (states: seq<NodeState>)
    ensures |states| == |nodes|
  {
    seq(|nodes|, i requires 0 <= i < |nodes| => nodes[i].status)
  }

  lemma StatesHold(nodes: seq<Node>, status: NodeState)
    ensures status in States(nodes) <==> SomeIs(nodes, status)
  {
    if status in States(nodes) {
      var i :| 0 <= i < |nodes| && States(nodes)[i] == status;
      assert nodes[i].status == status;
    }
    if i :| 0 <= i < |nodes| && nodes[i].status == status {
      assert States(nodes)[i] == status;
    }
  }

  /** The rule, for any list of nodes: a question comes before a failure, and a failure before anything
      that runs; only a list that is done succeeds, and only one that has not begun is queued. */
  lemma RuleMeans(states: seq<NodeState>, cancelled: bool)
    ensures var d := DeriveRunState(states, cancelled);
      && (d == RunCancelled <==> cancelled)
      && (d == RunWaiting <==> !cancelled && Waiting in states)
      && (d == RunFailed <==> !cancelled && Failed in states && Waiting !in states)
      && (d == RunSucceeded <==> !cancelled && states != [] && forall i :: 0 <= i < |states| ==> states[i] in {Succeeded, Skipped})
      && (d == RunQueued <==> !cancelled && forall i :: 0 <= i < |states| ==> states[i] == Pending)
  {
    if states != [] {
      assert states[0] in states;
    }
    assert forall i :: 0 <= i < |states| ==> states[i] in states;
    assert (forall x <- states :: x == Pending) <==> forall i :: 0 <= i < |states| ==> states[i] == Pending;
  }

  /** The stored status is the one the rule derives while the run waits, has succeeded or is
      cancelled. */
  lemma DerivedStatusAgrees(agent: AgentRef, isManager: bool, isOrigin: bool, maxRevisions: int, s: Run)
    requires Reaches(Create(agent, isManager, isOrigin, maxRevisions), s)
    requires s.status in {RunWaiting, RunSucceeded, RunCancelled}
    ensures DeriveRunState(States(s.nodes), s.status == RunCancelled) == s.status
  {
    ReachableHeadFits(agent, isManager, isOrigin, maxRevisions, s);
    StatesHold(s.nodes, Waiting);
    if s.status == RunSucceeded {
      assert forall x <- States(s.nodes) :: x == Succeeded;
    }
  }

  predicate SomeIs(nodes: seq<Node>, status: NodeState) {
    exists i :: 0 <= i < |nodes| && nodes[i].status == status
  }

  /** A queued run agrees with the rule if and only if no node has started; one that was retried or had its
      question answered does not. */
  lemma DerivedWhileQueued(agent: AgentRef, isManager: bool, isOrigin: bool, maxRevisions: int, s: Run)
    requires Reaches(Create(agent, isManager, isOrigin, maxRevisions), s) && s.status == RunQueued
    ensures DeriveRunState(States(s.nodes), false) == RunQueued <==> forall n <- s.nodes :: n.status == Pending
  {
    ReachableHeadFits(agent, isManager, isOrigin, maxRevisions, s);
    hide HeadFits, Reaches, Create;
    NoneIsUnlike(s);
    RuleIs(s.nodes);
  }

  /** A running run agrees with the rule if and only if a node runs, or some have succeeded, some are to
      come, and none waits with its answer. */
  lemma DerivedWhileRunning(agent: AgentRef, isManager: bool, isOrigin: bool, maxRevisions: int, s: Run)
    requires Reaches(Create(agent, isManager, isOrigin, maxRevisions), s) && s.status == RunRunning
    ensures DeriveRunState(States(s.nodes), false) == RunRunning <==>
      !SomeIs(s.nodes, Waiting) && (SomeIs(s.nodes, Running) || (SomeIs(s.nodes, Succeeded) && SomeIs(s.nodes, Pending)))
  {
    ReachableHeadFits(agent, isManager, isOrigin, maxRevisions, s);
    hide HeadFits, Reaches, Create;
    NoneIsUnlike(s);
    RuleIs(s.nodes);
  }

  lemma NoneIsUnlike(s: Run)
    requires StatusesFit(s)
    ensures SomeIs(s.nodes, Running) ==> s.status == RunRunning
    ensures SomeIs(s.nodes, Failed) ==> s.status == RunFailed
    ensures SomeIs(s.nodes, Skipped) ==> s.status == RunCancelled
  {
    if i :| 0 <= i < |s.nodes| && s.nodes[i].status in {Running, Failed, Skipped} {
      assert NodeFits(s.status, s.worker, s.nodes[i]);
    }
  }

  /** The rule, for nodes none of which has failed or was skipped. */
  lemma RuleIs(nodes: seq<Node>)
    requires !SomeIs(nodes, Failed) && !SomeIs(nodes, Skipped)
    ensures DeriveRunState(States(nodes), false) == RunQueued <==> forall n <- nodes :: n.status == Pending
    ensures DeriveRunState(States(nodes), false) == RunRunning <==>
      !SomeIs(nodes, Waiting) && (SomeIs(nodes, Running) || (SomeIs(nodes, Succeeded) && SomeIs(nodes, Pending)))
  {
    StatesHold(nodes, Waiting);
    StatesHold(nodes, Running);
    StatesHold(nodes, Failed);
    StatesHold(nodes, Skipped);
    StatesHold(nodes, Succeeded);
    StatesHold(nodes, Pending);
    assert (forall n <- nodes :: n.status == Pending) <==> forall x <- States(nodes) :: x == Pending by {
      AllPendingStates(nodes);
    }
    hide States, SomeIs;
    var states := States(nodes);
    assert states == [] || states[0] in states;
  }

  lemma AllPendingStates(nodes: seq<Node>)
    ensures (forall n <- nodes :: n.status == Pending) <==> forall x <- States(nodes) :: x == Pending
  {
    forall i | 0 <= i < |nodes| ensures States(nodes)[i] in States(nodes) && nodes[i] in nodes {
    }
    if forall x <- States(nodes) :: x == Pending {
      forall n | n in nodes ensures n.status == Pending {
        var i :| 0 <= i < |nodes| && nodes[i] == n;
        assert States(nodes)[i] == n.status;
      }
    }
  }

  predicate SomeRunningNode(nodes: seq<Node>) {
    exists i :: 0 <= i < |nodes| && nodes[i].status == Running
  }

  /** A run that has just failed agrees with the rule if it failed with its node; if it was reaped or
      recovered, exactly when a node was running. */
  lemma DerivedFailureAgrees(agent: AgentRef, isManager: bool, isOrigin: bool, maxRevisions: int, s: Run, a: Action)
    requires Reaches(Create(agent, isManager, isOrigin, maxRevisions), s)
    requires a in {FailNode, Reap, RecoverStale} && Enabled(s, a)
    ensures Apply(s, a).status == RunFailed
    ensures DeriveRunState(States(Apply(s, a).nodes), false) == RunFailed <==> a == FailNode || SomeRunningNode(s.nodes)
  {
    ReachableHeadFits(agent, isManager, isOrigin, maxRevisions, s);
    StepKeepsHead(s, a);
    if a == FailNode {
      var k := FailShape(s);
      OneFailedDerives(Apply(s, a).nodes, k);
    } else {
      RecoveryDerives(s, a);
    }
  }

  lemma RecoveryDerives(s: Run, a: Action)
    requires HeadFits(s) && StatusesFit(s) && a in {Reap, RecoverStale} && Enabled(s, a)
    ensures DeriveRunState(States(Apply(s, a).nodes), false) == RunFailed <==> SomeRunningNode(s.nodes)
  {
    var now := FailRunning(s.nodes);
    assert Apply(s, a).nodes == now;
    assert OpenFirst(now) by {
      assert forall i :: 0 <= i < |now| ==> (IsOpen(now[i]) <==> IsOpen(s.nodes[i]));
    }
    hide DeriveRunState, OpenFirst, HeadFits;
    if SomeRunningNode(s.nodes) {
      var k :| 0 <= k < |s.nodes| && s.nodes[k].status == Running;
      OneFailedDerives(now, k);
    } else {
      forall i | 0 <= i < |now| ensures now[i].status != Failed {
        assert NodeFits(s.status, s.worker, s.nodes[i]);
      }
      NoneFailedDerives(now);
    }
  }

  lemma OneFailedDerives(nodes: seq<Node>, k: nat)
    requires OpenFirst(nodes) && k < |nodes| && nodes[k].status == Failed
    ensures DeriveRunState(States(nodes), false) == RunFailed
  {
    StatesHold(nodes, Failed);
    StatesHold(nodes, Waiting);
    OneOpen(nodes, k);
  }

  lemma NoneFailedDerives(nodes: seq<Node>)
    requires forall i :: 0 <= i < |nodes| ==> nodes[i].status != Failed
    ensures DeriveRunState(States(nodes), false) != RunFailed
  {
    StatesHold(nodes, Failed);
  }

  lemma OneOpen(nodes: seq<Node>, k: nat)
    requires OpenFirst(nodes) && k < |nodes| && IsOpen(nodes[k])
    ensures forall i :: 0 <= i < |nodes| && i != k ==> !IsOpen(nodes[i])
  {
  }

  /** Every run can fail with no node to show for it: its executor dies before the first node. */
  lemma FailureWithoutNode(agent: AgentRef, isManager: bool, isOrigin: bool, maxRevisions: int, a: Action)
    requires a in {Reap, RecoverStale}
    ensures var t := Replay(Create(agent, isManager, isOrigin, maxRevisions), [Claim, Crash, a]);
      t.Some? && t.value.status == RunFailed && DeriveRunState(States(t.value.nodes), false) == RunQueued
  {
    var s := Create(agent, isManager, isOrigin, maxRevisions);
    CreateEstablishesHead(agent, isManager, isOrigin, maxRevisions);
    assert s.status == RunQueued && s.worker == Gone && s.nodes != [];
    hide Create, HeadFits;
    var crashed := Apply(Apply(s, Claim), Crash);
    NobodyRan(crashed, a);
    hide Apply, AllIn, DeriveRunState, States;
    assert Replay(s, []) == Some(s);
    ReplayAppend(s, [], Claim);
    assert [] + [Claim] == [Claim] && [Claim] + [Crash] == [Claim, Crash] && [Claim, Crash] + [a] == [Claim, Crash, a];
    hide Replay;
    ReplayAppend(s, [Claim], Crash);
    ReplayAppend(s, [Claim, Crash], a);
  }

  lemma NobodyRan(s: Run, a: Action)
    requires a in {Reap, RecoverStale} && Enabled(s, a) && s.nodes != [] && AllIn(s.nodes, {Pending})
    ensures var t := Apply(s, a); t.status == RunFailed && DeriveRunState(States(t.nodes), false) == RunQueued
  {
    assert Apply(s, a).nodes == FailRunning(s.nodes);
    AllPendingIsQueued(FailRunning(s.nodes));
  }

  lemma AllPendingIsQueued(nodes: seq<Node>)
    requires AllIn(nodes, {Pending}) && nodes != []
    ensures DeriveRunState(States(nodes), false) == RunQueued
  {
    var states := States(nodes);
    assert states[0] in states;
    forall x | x in states ensures x == Pending {
      var i :| 0 <= i < |states| && states[i] == x;
    }
  }
}
