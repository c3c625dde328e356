/** The order of a run's nodes: their indices for every value of max_revisions, and their statuses up
    to the value from which revisions may be queued in front of nodes that are done. */
module RunOrder {
  import opened Options
  import opened RunStates
  import opened NodeIds
  import opened RunModel
  import opened RunInvariant
  import opened RunSteps
  import opened RunHead

  /** Up to 492 revisions no index reaches that of the save node. */
  predicate IndexesFit(maxRevisions: int) {
    14 + 2 * maxRevisions < 1000
  }

  /** Up to 494 revisions no node is queued in front of one that has succeeded. */
  predicate StatusesFollow(maxRevisions: int) {
    10 + 2 * maxRevisions < 1000
  }

  // ----- indices -----

  /** Where the save node stands among n nodes: last, until a thousand nodes are in front of it. */
  function SavePlace(n: int): int {
    if n <= SAVE_NODE_INDEX + 1 then n - 1 else SAVE_NODE_INDEX
  }

  /** In front of the save node indices run 0, 1, 2, ... without gaps; the agent steps behind it share
      its index or have the next one. */
  predicate Layout(nodes: seq<Node>) {
    && |nodes| >= 4
    && (forall i :: 0 <= i < SavePlace(|nodes|) ==> nodes[i].index == i && nodes[i].kind != Save)
    && nodes[SavePlace(|nodes|)].index == SAVE_NODE_INDEX && nodes[SavePlace(|nodes|)].kind == Save
    && (forall i :: SavePlace(|nodes|) < i < |nodes| ==>
          SAVE_NODE_INDEX <= nodes[i].index <= SAVE_NODE_INDEX + 1 && nodes[i].kind == AgentStep)
    && (forall i :: 0 <= i < |nodes| && i != 2 ==> nodes[i].kind != Manager)
    && nodes[0].kind != AgentStep && nodes[1].kind != AgentStep
  }

  predicate ManagerOpen(nodes: seq<Node>) {
    |nodes| > 2 && nodes[2].kind == Manager && nodes[2].status != Succeeded
  }

  function Cap(maxRevisions: int): nat {
    if maxRevisions > 0 then maxRevisions else 0
  }

  /** A manager adds at most twelve nodes, once; every revision adds exactly two. */
  predicate Size(s: Run) {
    && s.revisions <= Cap(s.maxRevisions)
    && |s.nodes| <= 16 + 2 * s.revisions
    && (ManagerOpen(s.nodes) ==> |s.nodes| == 4 && s.revisions == 0)
    && Beyond(s.nodes, s.revisions)
  }

  /** An index above the save node's appears with the 494th revision. */
  predicate Beyond(nodes: seq<Node>, revisions: nat) {
    forall i :: 0 <= i < |nodes| && nodes[i].index > SAVE_NODE_INDEX ==> revisions >= 494
  }

  /** In front of a succeeded node all have succeeded. */
  predicate Tidy(nodes: seq<Node>) {
    forall i, j :: 0 <= i < j < |nodes| && nodes[j].status == Succeeded ==> nodes[i].status == Succeeded
  }

  predicate Ordered(s: Run) {
    Layout(s.nodes) && Size(s) && (StatusesFollow(s.maxRevisions) ==> Tidy(s.nodes))
  }

  lemma SameRowsLayout(before: seq<Node>, now: seq<Node>)
    requires SameRows(before, now) && Layout(before)
    ensures Layout(now)
  {
  }

  lemma {:induction false} HighestOfFront(nodes: seq<Node>, m: nat)
    requires 0 < m <= |nodes| && m <= SAVE_NODE_INDEX
    requires forall i :: 0 <= i < m ==> nodes[i].index == i
    requires forall i :: m <= i < |nodes| ==> nodes[i].index >= SAVE_NODE_INDEX
    ensures HighestBelowSave(nodes) == Some(m - 1)
  {
    if |nodes| > m {
      HighestOfFront(nodes[..|nodes| - 1], m);
    } else if m > 1 {
      HighestOfFront(nodes[..m - 1], m - 1);
    } else {
      assert HighestBelowSave(nodes[..0]) == None;
    }
  }

  lemma NextIndexInLayout(nodes: seq<Node>, default: int)
    requires Layout(nodes)
    ensures NextIndex(nodes, default) == SavePlace(|nodes|)
  {
    HighestOfFront(nodes, SavePlace(|nodes|));
  }

  /** The indices a new row may get: the next free one, or, behind a thousand nodes, the one after it. */
  predicate Fresh(nodes: seq<Node>, n: Node) {
    n.kind == AgentStep
    && (n.index == SavePlace(|nodes|) || (SavePlace(|nodes|) == SAVE_NODE_INDEX && n.index == SAVE_NODE_INDEX + 1))
  }

  lemma InsertKeepsLayout(nodes: seq<Node>, n: Node)
    requires Layout(nodes) && SortedByIndex(nodes) && Fresh(nodes, n)
    ensures Layout(InsertByIndex(nodes, n)) && |InsertByIndex(nodes, n)| == |nodes| + 1
  {
    var p, q := Position(nodes, n.index), SavePlace(|nodes|);
    assert q < SAVE_NODE_INDEX ==> q == |nodes| - 1 && nodes[q - 1].index == q - 1 && p == q;
    assert q == SAVE_NODE_INDEX ==> p > q;
  }

  /** A row that is not below row k goes in behind it. */
  lemma InsertBehind(nodes: seq<Node>, n: Node, k: nat)
    requires SortedByIndex(nodes) && k < |nodes| && nodes[k].index <= n.index
    ensures var now := InsertByIndex(nodes, n);
      && |now| == |nodes| + 1 && (forall i :: 0 <= i <= k ==> now[i] == nodes[i])
      && (forall i :: k < i < |now| ==> now[i] == n || now[i] in nodes[k + 1..])
  {
    var p := Position(nodes, n.index);
    assert p > k;
    var now := InsertByIndex(nodes, n);
    forall i | k < i < |now| ensures now[i] == n || now[i] in nodes[k + 1..] {
      if i < p {
        assert now[i] == nodes[k + 1..][i - k - 1];
      } else if i > p {
        assert now[i] == nodes[k + 1..][i - k - 2];
      }
    }
  }

  /** `now` is `before` with pending rows added behind row k, where all rows are pending. */
  predicate GrownBehind(before: seq<Node>, now: seq<Node>, k: nat) {
    && k < |before| <= |now|
    && (forall i :: 0 <= i <= k ==> now[i] == before[i])
    && (forall i :: k < i < |now| ==> now[i].status == Pending)
  }

  lemma InsertGrowsBehind(before: seq<Node>, now: seq<Node>, n: Node, k: nat)
    requires GrownBehind(before, now, k) && SortedByIndex(now) && before[k].index <= n.index && n.status == Pending
    ensures GrownBehind(before, InsertByIndex(now, n), k)
  {
    InsertBehind(now, n, k);
    hide InsertByIndex;
    assert forall m :: m in now[k + 1..] ==> m.status == Pending;
  }

  // ----- what a result adds -----

  /** Rows added to `before` until it has become `now`; behind row k, if `tidy`. */
  predicate Growing(before: seq<Node>, now: seq<Node>, k: nat, tidy: bool) {
    Layout(now) && SortedByIndex(now) && (tidy ==> GrownBehind(before, now, k))
  }

  lemma OneMore(before: seq<Node>, now: seq<Node>, n: Node, k: nat, tidy: bool)
    requires Growing(before, now, k, tidy) && Fresh(now, n) && n.status == Pending
    requires tidy ==> before[k].index <= n.index
    ensures Growing(before, InsertByIndex(now, n), k, tidy) && |InsertByIndex(now, n)| == |now| + 1
  {
    hide Layout, InsertByIndex, SortedByIndex, GrownBehind, Fresh;
    InsertKeepsLayout(now, n);
    InsertKeeps(now, n);
    if tidy {
      InsertGrowsBehind(before, now, n, k);
    }
  }

  lemma {:induction false} AddStepsGrow(
      before: seq<Node>, now: seq<Node>, k: nat, tidy: bool, existing: set<NodeId>, plan: seq<AgentRef>, i: nat)
    requires Growing(before, now, k, tidy) && i <= MAX_PLAN_STEPS && |now| + (MAX_PLAN_STEPS - i) <= SAVE_NODE_INDEX
    requires tidy ==> before[k].index < |now|
    ensures var all := AddSteps(now, existing, plan, i, |now| - 1);
      Growing(before, all, k, tidy) && |all| <= |now| + (MAX_PLAN_STEPS - i)
    decreases |plan| - i
  {
    hide InsertByIndex, Growing;
    if i < |plan| && i < MAX_PLAN_STEPS {
      var id := Step(plan[i].slug, i + 1);
      if id in existing {
        AddStepsGrow(before, now, k, tidy, existing, plan, i + 1);
      } else {
        var added := Node(id, |now| - 1, AgentStep, Pending, Some(plan[i].id), false);
        OneMore(before, now, added, k, tidy);
        AddStepsGrow(before, InsertByIndex(now, added), k, tidy, existing, plan, i + 1);
      }
    }
  }

  lemma ReviseGrow(nodes: seq<Node>, k: nat, tidy: bool, revisions: nat, maxRevisions: int, qcExhausted: bool)
    requires k < |nodes| && nodes[k].kind != Save && Growing(nodes, nodes, k, tidy)
    requires Beyond(nodes, revisions) && |nodes| <= 16 + 2 * revisions
    requires tidy ==> StatusesFollow(maxRevisions)
    ensures var r := Revise(nodes, nodes[k], revisions, maxRevisions, qcExhausted);
      && Growing(nodes, r.nodes, k, tidy) && Beyond(r.nodes, r.revisions)
      && |r.nodes| - 2 * r.revisions == |nodes| - 2 * revisions
      && revisions <= r.revisions <= (if maxRevisions > revisions then revisions + 1 else revisions)
  {
    if revisions < maxRevisions && Producer(nodes, nodes[k]).Some? {
      ReviseIs(nodes, nodes[k], revisions, maxRevisions, qcExhausted);
      NextIndexInLayout(nodes, nodes[k].index);
      NotBelow(nodes, k, revisions);
      hide Growing, InsertByIndex, Beyond, Producer, NextIndex, Revise;
      TwoMore(nodes, k, tidy, revisions, Again(nodes, nodes[k], revisions), Recheck(nodes, nodes[k], revisions));
    }
  }

  /** The two rows of a revision. */
  function Again(nodes: seq<Node>, qc: Node, revisions: nat): Node
    requires Producer(nodes, qc).Some?
  {
    var producer := Producer(nodes, qc).value;
    Node(Rev(producer.id, revisions + 1), NextIndex(nodes, qc.index), AgentStep, Pending, producer.agent, false)
  }

  function Recheck(nodes: seq<Node>, qc: Node, revisions: nat): Node {
    Node(Rev(qc.id, revisions + 1), NextIndex(nodes, qc.index) + 1, AgentStep, Pending, qc.agent, false)
  }

  lemma ReviseIs(nodes: seq<Node>, qc: Node, revisions: nat, maxRevisions: int, qcExhausted: bool)
    requires revisions < maxRevisions && Producer(nodes, qc).Some?
    ensures Revise(nodes, qc, revisions, maxRevisions, qcExhausted)
         == Revision(InsertByIndex(InsertByIndex(nodes, Again(nodes, qc, revisions)), Recheck(nodes, qc, revisions)),
                     revisions + 1, qcExhausted)
  {
    hide InsertByIndex, Producer, NextIndex;
  }

  lemma TwoMore(nodes: seq<Node>, k: nat, tidy: bool, revisions: nat, again: Node, recheck: Node)
    requires k < |nodes| && Growing(nodes, nodes, k, tidy) && Beyond(nodes, revisions) && |nodes| <= 16 + 2 * revisions
    requires tidy ==> nodes[k].index <= SavePlace(|nodes|)
    requires again.index == SavePlace(|nodes|) && recheck.index == again.index + 1
    requires again.kind == recheck.kind == AgentStep && again.status == recheck.status == Pending
    ensures var now := InsertByIndex(InsertByIndex(nodes, again), recheck);
      Growing(nodes, now, k, tidy) && |now| == |nodes| + 2 && Beyond(now, revisions + 1)
  {
    hide Growing, InsertByIndex, Beyond;
    OneMore(nodes, nodes, again, k, tidy);
    BeyondInsert(nodes, again, revisions, revisions + 1);
    var once := InsertByIndex(nodes, again);
    OneMore(nodes, once, recheck, k, tidy);
    BeyondInsert(once, recheck, revisions + 1, revisions + 1);
  }

  /** Before the 494th revision the next index is not below that of any node that can be running. */
  lemma NotBelow(nodes: seq<Node>, k: nat, revisions: nat)
    requires Layout(nodes) && Beyond(nodes, revisions) && k < |nodes| && nodes[k].kind != Save
    ensures revisions < 494 ==> nodes[k].index <= SavePlace(|nodes|)
  {
  }

  lemma BeyondInsert(nodes: seq<Node>, n: Node, revisions: nat, later: nat)
    requires Beyond(nodes, revisions) && revisions <= later && (n.index > SAVE_NODE_INDEX ==> later >= 494)
    ensures Beyond(InsertByIndex(nodes, n), later)
  {
  }

  /** No agent has succeeded before a manager, so a manager never starts a revision. */
  lemma {:induction false} NoProducerBelow(nodes: seq<Node>, qc: Node)
    requires forall i :: 0 <= i < |nodes| ==> nodes[i].kind != AgentStep || nodes[i].index >= qc.index
    ensures Producer(nodes, qc) == None
  {
    if nodes != [] {
      NoProducerBelow(nodes[..|nodes| - 1], qc);
    }
  }

  /** A run with its running node. */
  predicate At(s: Run, k: nat) {
    && s.status == RunRunning && k < |s.nodes| && s.nodes[k].status == Running
    && SortedByIndex(s.nodes) && OpenFirst(s.nodes) && Ordered(s)
    && (StatusesFollow(s.maxRevisions) ==> GrownBehind(s.nodes, s.nodes, k))
  }

  lemma BehindHeadPending(s: Run, k: nat)
    requires s.status == RunRunning && StatusesFit(s) && OpenFirst(s.nodes) && Tidy(s.nodes)
    requires k < |s.nodes| && s.nodes[k].status == Running
    ensures GrownBehind(s.nodes, s.nodes, k)
  {
    forall i | k < i < |s.nodes| ensures s.nodes[i].status == Pending {
      assert NodeFits(s.status, s.worker, s.nodes[i]);
      assert !IsOpen(s.nodes[i]);
    }
  }

  /** What the result of node k leaves. */
  predicate Grows(s: Run, r: Revision, k: nat) {
    && Growing(s.nodes, r.nodes, k, StatusesFollow(s.maxRevisions))
    && s.revisions <= r.revisions <= Cap(s.maxRevisions) && |r.nodes| <= 16 + 2 * r.revisions
    && Beyond(r.nodes, r.revisions)
    && (ManagerOpen(s.nodes) && k != 2 ==> r.nodes == s.nodes && r.revisions == s.revisions)
  }

  lemma ManagerGrows(s: Run, k: nat, outcome: Outcome)
    requires At(s, k) && s.nodes[k].kind == Manager
    ensures Grows(s, AfterResult(s, s.nodes[k], outcome), k)
  {
    assert k == 2 && |s.nodes| == 4 && s.revisions == 0;
    NoProducerBelow(s.nodes, s.nodes[k]);
    NextIndexInLayout(s.nodes, s.nodes[k].index);
    AddStepsGrow(s.nodes, s.nodes, k, StatusesFollow(s.maxRevisions), Ids(s.nodes), outcome.plan, 0);
    var all := AddSteps(s.nodes, Ids(s.nodes), outcome.plan, 0, 3);
    hide AddSteps;
    assert forall i :: 0 <= i < |all| ==> all[i].index <= SAVE_NODE_INDEX;
  }

  lemma AgentGrows(s: Run, k: nat, outcome: Outcome)
    requires At(s, k) && s.nodes[k].kind == AgentStep
    ensures Grows(s, AfterResult(s, s.nodes[k], outcome), k)
  {
    assert k == 2 || s.nodes[2].status == Succeeded;
    hide Layout, SortedByIndex, OpenFirst, GrownBehind, Beyond;
    if outcome.qcPassed == Some(false) {
      ReviseGrow(s.nodes, k, StatusesFollow(s.maxRevisions), s.revisions, s.maxRevisions, s.qcExhausted);
    }
  }

  lemma ResultGrows(s: Run, k: nat, outcome: Outcome)
    requires At(s, k)
    ensures Grows(s, AfterResult(s, s.nodes[k], outcome), k)
  {
    if s.nodes[k].kind == Manager {
      ManagerGrows(s, k, outcome);
    } else if s.nodes[k].kind == AgentStep {
      AgentGrows(s, k, outcome);
    } else {
      assert AfterResult(s, s.nodes[k], outcome).nodes == s.nodes;
    }
  }

  // ----- the steps -----

  lemma ManagerStays(before: seq<Node>, now: seq<Node>)
    requires GrownFrom(before, now) && Layout(before) && Layout(now)
    ensures now[2].kind == Manager ==> now[2] == before[2]
  {
    assert now[2] in now;
  }

  lemma FinishKeepsOrder(s: Run, outcome: Outcome)
    requires CoreInv(s) && HeadFits(s) && Ordered(s) && Enabled(s, FinishNode(outcome))
    ensures Ordered(Apply(s, FinishNode(outcome)))
  {
    hide Ordered, HeadFits;
    var k := RunningAt(s);
    AfterResultGrows(s, s.nodes[k], outcome);
    FinishIs(s, k, outcome);
    hide CoreInv, Apply, Enabled, At;
    ResultGrows(s, k, outcome);
    FinishedOrdered(s, AfterResult(s, s.nodes[k], outcome), Apply(s, FinishNode(outcome)), k);
  }

  lemma RunningAt(s: Run) returns (k: nat)
    requires CoreInv(s) && HeadFits(s) && Ordered(s) && s.worker.InNode?
    ensures At(s, k) && Find(s.nodes, s.worker.node) == Some(s.nodes[k])
  {
    k := RunningNodeAt(s);
    hide Layout, Size, UniqueIds, OneSaveNode, RevisionsBounded, SaveDone, Find;
    if StatusesFollow(s.maxRevisions) {
      BehindHeadPending(s, k);
    }
  }

  lemma FinishIs(s: Run, k: nat, outcome: Outcome)
    requires Enabled(s, FinishNode(outcome)) && k < |s.nodes| && Find(s.nodes, s.worker.node) == Some(s.nodes[k])
    ensures var t := Apply(s, FinishNode(outcome));
      var r := AfterResult(s, s.nodes[k], outcome);
      && t.nodes == WithStatus(r.nodes, s.nodes[k].id, Succeeded) && t.revisions == r.revisions
      && t.maxRevisions == s.maxRevisions
  {
    hide AfterResult, WithStatus, Find;
  }

  lemma FinishedOrdered(s: Run, r: Revision, t: Run, k: nat)
    requires At(s, k) && Grows(s, r, k) && GrownFrom(s.nodes, r.nodes)
    requires t.nodes == WithStatus(r.nodes, s.nodes[k].id, Succeeded)
    requires t.revisions == r.revisions && t.maxRevisions == s.maxRevisions
    ensures Ordered(t)
  {
    WithStatusAt(r.nodes, s.nodes[k].id, Succeeded);
    hide WithStatus, GrownFrom, At, Grows;
    FinishedSize(s, r, t, k);
    if StatusesFollow(s.maxRevisions) {
      FinishedTidy(s, r, t.nodes, k);
    }
  }

  lemma FinishedSize(s: Run, r: Revision, t: Run, k: nat)
    requires At(s, k) && Grows(s, r, k) && GrownFrom(s.nodes, r.nodes) && SameRows(r.nodes, t.nodes)
    requires MarkedDone(r.nodes, t.nodes, s.nodes[k].id)
    requires t.revisions == r.revisions && t.maxRevisions == s.maxRevisions
    ensures Layout(t.nodes) && Size(t)
  {
    SameRowsLayout(r.nodes, t.nodes);
    BeyondSame(r.nodes, t.nodes, t.revisions);
    ManagerStays(s.nodes, r.nodes);
    hide Layout, GrownFrom, SameRows, Beyond, OpenFirst, SortedByIndex, GrownBehind, Tidy;
    ManagerCloses(s, r.nodes, t.nodes, k);
  }

  /** `now` is `grown` with the row of this id succeeded. */
  predicate MarkedDone(grown: seq<Node>, now: seq<Node>, id: NodeId) {
    |now| == |grown| && forall i :: 0 <= i < |grown| ==> now[i].status == (if grown[i].id == id then Succeeded else grown[i].status)
  }

  lemma BeyondSame(before: seq<Node>, now: seq<Node>, revisions: nat)
    requires Beyond(before, revisions) && SameRows(before, now)
    ensures Beyond(now, revisions)
  {
  }

  lemma ManagerCloses(s: Run, grown: seq<Node>, now: seq<Node>, k: nat)
    requires At(s, k) && |grown| > 2 && (grown[2].kind == Manager ==> grown[2] == s.nodes[2])
    requires SameRows(grown, now) && MarkedDone(grown, now, s.nodes[k].id)
    ensures ManagerOpen(now) ==> ManagerOpen(s.nodes) && k != 2
  {
  }

  lemma FinishedTidy(s: Run, r: Revision, now: seq<Node>, k: nat)
    requires At(s, k) && Grows(s, r, k) && StatusesFollow(s.maxRevisions) && UniqueIds(r.nodes)
    requires SameRows(r.nodes, now) && MarkedDone(r.nodes, now, s.nodes[k].id)
    ensures Tidy(now)
  {
    hide Layout, Size;
    assert IsOpen(s.nodes[k]);
    assert forall i :: 0 <= i <= k ==> now[i].status == Succeeded;
    assert forall i :: k < i < |now| ==> r.nodes[i].id != r.nodes[k].id;
  }

  /** A step that adds nothing and completes no node keeps the order. */
  lemma QuietKeepsOrder(s: Run, t: Run)
    requires Ordered(s) && SameRows(s.nodes, t.nodes) && t.revisions == s.revisions && t.maxRevisions == s.maxRevisions
    requires forall i :: 0 <= i < |s.nodes| ==> (s.nodes[i].status == Succeeded <==> t.nodes[i].status == Succeeded)
    ensures Ordered(t)
  {
    SameRowsLayout(s.nodes, t.nodes);
  }

  lemma MoveKeepsOrder(s: Run, a: Action)
    requires a in {StartNode, Pause, FailNode, AnswerClarification}
    requires CoreInv(s) && Ordered(s) && Enabled(s, a)
    ensures Ordered(Apply(s, a))
  {
    hide Ordered, CoreInv;
    OnlyFinishRevises(s, a);
    hide Apply, Enabled;
    match a
    case StartNode => var k := StartShape(s); UpdateKeepsOrder(s, Apply(s, a), k);
    case Pause => var k := PauseShape(s); UpdateKeepsOrder(s, Apply(s, a), k);
    case FailNode => var k := FailShape(s); UpdateKeepsOrder(s, Apply(s, a), k);
    case AnswerClarification => var k := AnswerShape(s); UpdateKeepsOrder(s, Apply(s, a), k);
  }

  lemma OnlyFinishRevises(s: Run, a: Action)
    requires Enabled(s, a) && !a.FinishNode?
    ensures Apply(s, a).revisions == s.revisions && Apply(s, a).maxRevisions == s.maxRevisions
  {
  }

  lemma UpdateKeepsOrder(s: Run, t: Run, k: nat)
    requires Ordered(s) && k < |s.nodes| == |t.nodes| && s.nodes[k].status != Succeeded && t.nodes[k].status != Succeeded
    requires t.nodes == s.nodes[k := s.nodes[k].(status := t.nodes[k].status, answered := t.nodes[k].answered)]
    requires t.revisions == s.revisions && t.maxRevisions == s.maxRevisions
    ensures Ordered(t)
  {
    hide Ordered;
    QuietKeepsOrder(s, t);
  }

  lemma OtherKeepsOrder(s: Run, a: Action)
    requires a !in {StartNode, Pause, FailNode, AnswerClarification} && !a.FinishNode?
    requires Ordered(s) && Enabled(s, a)
    ensures Ordered(Apply(s, a))
  {
    hide Ordered, ReapEvents, LastSequence, Find, NextNode, FirstWaiting;
    OnlyFinishRevises(s, a);
    var t := Apply(s, a);
    assert t.nodes == s.nodes || t.nodes == SkipOpen(s.nodes) || t.nodes == FailRunning(s.nodes) || t.nodes == ResetFailed(s.nodes);
    hide Apply, Enabled;
    SkipOpenRows(s.nodes);
    FailRunningRows(s.nodes);
    QuietKeepsOrder(s, t);
  }

  lemma StepKeepsOrder(s: Run, a: Action)
    requires CoreInv(s) && HeadFits(s) && Ordered(s) && Enabled(s, a)
    ensures Ordered(Apply(s, a))
  {
    match a
    case FinishNode(outcome) => FinishKeepsOrder(s, outcome);
    case StartNode => MoveKeepsOrder(s, a);
    case Pause => MoveKeepsOrder(s, a);
    case FailNode => MoveKeepsOrder(s, a);
    case AnswerClarification => MoveKeepsOrder(s, a);
    case _ => OtherKeepsOrder(s, a);
  }

  lemma PlansLaidOut(agent: AgentRef, isManager: bool)
    ensures Layout(PlanFor(agent, isManager)) && |PlanFor(agent, isManager)| == 4
    ensures Layout(PlanForExisting(agent)) && |PlanForExisting(agent)| == 6 && !ManagerOpen(PlanForExisting(agent))
    ensures Beyond(PlanFor(agent, isManager), 0) && Beyond(PlanForExisting(agent), 0)
  {
  }

  lemma CreateEstablishesOrder(agent: AgentRef, isManager: bool, isOrigin: bool, maxRevisions: int)
    ensures Ordered(Create(agent, isManager, isOrigin, maxRevisions))
  {
    PlansLaidOut(agent, isManager);
    PlansArePending(agent, isManager);
    var s := Create(agent, isManager, isOrigin, maxRevisions);
    hide PlanFor, PlanForExisting, Layout, Beyond;
    assert forall i :: 0 <= i < |s.nodes| ==> s.nodes[i].status == Pending;
  }

  lemma {:induction false} OrderedAlong(s0: Run, actions: seq<Action>)
    requires CoreInv(s0) && HeadFits(s0) && Ordered(s0) && Replay(s0, actions).Some?
    ensures CoreInv(Replay(s0, actions).value) && HeadFits(Replay(s0, actions).value) && Ordered(Replay(s0, actions).value)
    ensures Replay(s0, actions).value.maxRevisions == s0.maxRevisions
  {
    hide CoreInv, HeadFits, Ordered, Enabled;
    if actions != [] {
      var front, last := actions[..|actions| - 1], actions[|actions| - 1];
      OrderedAlong(s0, front);
      StepKeepsCore(Replay(s0, front).value, last);
      StepKeepsHead(Replay(s0, front).value, last);
      StepKeepsOrder(Replay(s0, front).value, last);
    }
  }

  lemma ReachableOrdered(agent: AgentRef, isManager: bool, isOrigin: bool, maxRevisions: int, s: Run)
    requires Reaches(Create(agent, isManager, isOrigin, maxRevisions), s)
    ensures CoreInv(s) && HeadFits(s) && Ordered(s) && s.maxRevisions == maxRevisions
  {
    hide CoreInv, HeadFits, Ordered, Replay;
    var s0 := Create(agent, isManager, isOrigin, maxRevisions);
    CreateEstablishesCore(agent, isManager, isOrigin, maxRevisions);
    CreateEstablishesHead(agent, isManager, isOrigin, maxRevisions);
    CreateEstablishesOrder(agent, isManager, isOrigin, maxRevisions);
    var actions :| Replay(s0, actions) == Some(s);
    OrderedAlong(s0, actions);
  }

  // ----- what the invariant says to a reader -----

  /** How many leading nodes have succeeded. */
  function Frontier(nodes: seq<Node>): (k: nat)
    ensures k <= |nodes|
    ensures forall i :: 0 <= i < k ==> nodes[i].status == Succeeded
    ensures k < |nodes| ==> nodes[k].status != Succeeded
  {
    if nodes == [] || nodes[0].status != Succeeded then 0
    else 1 + Frontier(nodes[1..])
  }

  /** Succeeded nodes, then at most one that runs, waits or failed, then pending ones; in a
      cancelled run, succeeded nodes and then skipped ones. */
  predicate Blocks(s: Run, k: nat) {
    && k <= |s.nodes|
    && (forall i :: 0 <= i < k ==> s.nodes[i].status == Succeeded)
    && (if s.status == RunCancelled then forall i :: k <= i < |s.nodes| ==> s.nodes[i].status == Skipped
        else (k < |s.nodes| ==> s.nodes[k].status in {Running, Waiting, Failed, Pending})
             && forall i :: k < i < |s.nodes| ==> s.nodes[i].status == Pending)
  }

  predicate SaveIsLast(nodes: seq<Node>) {
    && nodes != [] && nodes[|nodes| - 1].kind == Save
    && forall i, j :: 0 <= i < j < |nodes| ==> nodes[i].index < nodes[j].index
  }

  lemma TidyReads(s: Run)
    requires HeadFits(s) && StatusesFit(s) && Tidy(s.nodes)
    ensures Blocks(s, Frontier(s.nodes))
  {
    var k := Frontier(s.nodes);
    assert forall i :: 0 <= i < |s.nodes| ==> NodeFits(s.status, s.worker, s.nodes[i]);
    forall i | k < i < |s.nodes| ensures s.nodes[i].status == (if s.status == RunCancelled then Skipped else Pending) {
      assert s.nodes[k].status != Succeeded && !IsOpen(s.nodes[i]);
    }
  }

  lemma LayoutReads(nodes: seq<Node>)
    requires Layout(nodes) && |nodes| <= SAVE_NODE_INDEX
    ensures SaveIsLast(nodes)
  {
  }

  /** The order theorem, for every interleaving of executor, API and recovery commits. A run never
      holds more than 4 + 12 + 2 * max_revisions nodes; up to 492 revisions indices rise strictly to
      that of the save node; up to 494 the nodes are done in the order of their list. */
  lemma ReachableRunsAreOrdered(agent: AgentRef, isManager: bool, isOrigin: bool, maxRevisions: int, s: Run)
    requires Reaches(Create(agent, isManager, isOrigin, maxRevisions), s)
    ensures Layout(s.nodes) && |s.nodes| <= 4 + 12 + 2 * Cap(maxRevisions)
    ensures IndexesFit(maxRevisions) ==> SaveIsLast(s.nodes)
    ensures StatusesFollow(maxRevisions) ==> Blocks(s, Frontier(s.nodes))
  {
    hide Layout, SaveIsLast, Blocks, Tidy, Beyond, Reaches, Create, UniqueIds, SortedByIndex, OneSaveNode, RevisionsBounded,
      WorkerFits, Numbered, SaveDone, StatusesFit, HeadFits;
    ReachableOrdered(agent, isManager, isOrigin, maxRevisions, s);
    if IndexesFit(maxRevisions) {
      LayoutReads(s.nodes);
    }
    if StatusesFollow(maxRevisions) {
      TidyReads(s);
    }
  }
}
