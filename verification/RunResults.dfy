/** What a finished node's result does to the run: a failed check, a manager's plan, anything else. */
module RunResults {
  import opened Options
  import opened RunStates
  import opened NodeIds
  import opened RunModel
  import opened RunInvariant
  import opened RunSteps
  import opened RunHead
  import opened RunOrder

  // ----- a failed check -----

  /** An earlier agent's work that this check can send back. */
  predicate SendsBack(nodes: seq<Node>, j: int, k: int) {
    && 0 <= j < |nodes| && 0 <= k < |nodes|
    && nodes[j].kind == AgentStep && nodes[j].status == Succeeded
    && nodes[j].agent != nodes[k].agent && nodes[j].index < nodes[k].index
  }

  predicate LastSentBack(nodes: seq<Node>, j: int, k: int) {
    SendsBack(nodes, j, k) && forall i :: j < i < |nodes| ==> !SendsBack(nodes, i, k)
  }

  /** The rows of `now`: those of `before`, row k succeeded, and these two. */
  ghost predicate TwoAdded(before: seq<Node>, now: seq<Node>, k: nat, again: Node, recheck: Node)
    requires k < |before|
  {
    |now| == |before| + 2 &&
    forall n :: n in now <==>
      n == again || n == recheck || n == before[k].(status := Succeeded) || (n in before && n != before[k])
  }

  /** Row j goes back to its agent as revision r, and the check of row k follows it. */
  ghost predicate SentBack(before: seq<Node>, now: seq<Node>, j: nat, k: nat, r: nat)
    requires j < |before| && k < |before|
  {
    TwoAdded(before, now, k,
      Node(Rev(before[j].id, r), SavePlace(|before|), AgentStep, Pending, before[j].agent, false),
      Node(Rev(before[k].id, r), SavePlace(|before|) + 1, AgentStep, Pending, before[k].agent, false))
  }

  predicate LastBelow(nodes: seq<Node>, j: int, k: int, m: int) {
    0 <= j < m && SendsBack(nodes, j, k) && forall i :: j < i < m ==> !SendsBack(nodes, i, k)
  }

  lemma {:induction false} ProducerIsLast(nodes: seq<Node>, k: nat, m: nat)
    requires k < |nodes| && m <= |nodes|
    ensures Producer(nodes[..m], nodes[k]).None? ==> forall i :: 0 <= i < m ==> !SendsBack(nodes, i, k)
    ensures Producer(nodes[..m], nodes[k]).Some? ==>
      exists j :: LastBelow(nodes, j, k, m) && Producer(nodes[..m], nodes[k]).value == nodes[j]
  {
    if m > 0 {
      assert nodes[..m][..m - 1] == nodes[..m - 1] && nodes[..m][m - 1] == nodes[m - 1];
      ProducerIsLast(nodes, k, m - 1);
    }
  }

  /** What a failed check leads to: nothing but a mark when no revisions are left, nothing when no earlier
      agent can be asked again, and otherwise one revision of the latest one, checked again. */
  lemma FailedCheckMeans(agent: AgentRef, isManager: bool, isOrigin: bool, maxRevisions: int, s: Run, k: nat, outcome: Outcome)
    requires Reaches(Create(agent, isManager, isOrigin, maxRevisions), s) && s.worker.InNode?
    requires k < |s.nodes| && s.nodes[k].status == Running && s.nodes[k].kind == AgentStep && outcome.qcPassed == Some(false)
    ensures Enabled(s, FinishNode(outcome))
    ensures var t := Apply(s, FinishNode(outcome));
      if s.revisions >= maxRevisions then
        t.qcExhausted && t.revisions == s.revisions && t.nodes == s.nodes[k := s.nodes[k].(status := Succeeded)]
      else if forall j :: !SendsBack(s.nodes, j, k) then
        t.qcExhausted == s.qcExhausted && t.revisions == s.revisions && t.nodes == s.nodes[k := s.nodes[k].(status := Succeeded)]
      else
        t.qcExhausted == s.qcExhausted && t.revisions == s.revisions + 1
        && exists j: nat :: LastSentBack(s.nodes, j, k) && SentBack(s.nodes, t.nodes, j, k, s.revisions + 1)
  {
    hide Reaches, Create, CoreInv, HeadFits, Ordered, Apply, Enabled, SentBack, LastSentBack, SendsBack, Layout, UniqueIds,
      SortedByIndex, OneSaveNode, RevisionsBounded, InsertByIndex, Again, Recheck, WithStatus, Revise, AfterResult, Producer, Find;
    ReachableOrdered(agent, isManager, isOrigin, maxRevisions, s);
    RunningIs(s, k);
    FinishIs(s, k, outcome);
    CheckIs(s, k, outcome);
    if s.revisions >= maxRevisions {
      OnlyDone(s, k);
    } else if Producer(s.nodes, s.nodes[k]).None? {
      OnlyDone(s, k);
      NobodyToAsk(s.nodes, k);
    } else {
      var j := WhoIsAsked(s.nodes, k);
      RowsFit(s);
      RevisionAdds(s.nodes, s.revisions, k, j, Apply(s, FinishNode(outcome)).nodes);
    }
  }

  lemma RowsFit(s: Run)
    requires CoreInv(s) && Ordered(s)
    ensures Layout(s.nodes) && UniqueIds(s.nodes) && SortedByIndex(s.nodes) && OneSaveNode(s.nodes)
    ensures RevisionsBounded(s.nodes, s.revisions)
  {
  }

  lemma OnlyDone(s: Run, k: nat)
    requires CoreInv(s) && k < |s.nodes|
    ensures WithStatus(s.nodes, s.nodes[k].id, Succeeded) == s.nodes[k := s.nodes[k].(status := Succeeded)]
  {
    WithStatusIsUpdate(s.nodes, k, Succeeded);
  }

  lemma NobodyToAsk(nodes: seq<Node>, k: nat)
    requires k < |nodes| && Producer(nodes, nodes[k]).None?
    ensures forall j :: !SendsBack(nodes, j, k)
  {
    ProducerIsLast(nodes, k, |nodes|);
    assert nodes[..|nodes|] == nodes;
  }

  lemma WhoIsAsked(nodes: seq<Node>, k: nat) returns (j: nat)
    requires k < |nodes| && Producer(nodes, nodes[k]).Some?
    ensures j < |nodes| && LastSentBack(nodes, j, k) && SendsBack(nodes, j, k) && nodes[j].index < nodes[k].index
    ensures Producer(nodes, nodes[k]) == Some(nodes[j])
  {
    ProducerIsLast(nodes, k, |nodes|);
    assert nodes[..|nodes|] == nodes;
    j :| LastBelow(nodes, j, k, |nodes|) && Producer(nodes, nodes[k]) == Some(nodes[j]);
  }

  lemma RunningIs(s: Run, k: nat)
    requires CoreInv(s) && s.worker.InNode? && k < |s.nodes| && s.nodes[k].status == Running
    ensures UniqueIds(s.nodes) && Find(s.nodes, s.worker.node) == Some(s.nodes[k])
    ensures forall outcome :: Enabled(s, FinishNode(outcome))
  {
    var i := RunningNodeAt(s);
    assert i == k;
  }

  lemma CheckIs(s: Run, k: nat, outcome: Outcome)
    requires k < |s.nodes| && s.nodes[k].kind == AgentStep && outcome.qcPassed == Some(false)
    requires Enabled(s, FinishNode(outcome)) && Find(s.nodes, s.worker.node) == Some(s.nodes[k])
    ensures var r := Revise(s.nodes, s.nodes[k], s.revisions, s.maxRevisions, s.qcExhausted);
      AfterResult(s, s.nodes[k], outcome) == r && Apply(s, FinishNode(outcome)).qcExhausted == r.qcExhausted
    ensures s.revisions >= s.maxRevisions ==> AfterResult(s, s.nodes[k], outcome) == Revision(s.nodes, s.revisions, true)
    ensures s.revisions < s.maxRevisions && Producer(s.nodes, s.nodes[k]).None?
        ==> AfterResult(s, s.nodes[k], outcome) == Revision(s.nodes, s.revisions, s.qcExhausted)
    ensures s.revisions < s.maxRevisions && Producer(s.nodes, s.nodes[k]).Some?
        ==> AfterResult(s, s.nodes[k], outcome) == Revision(
              InsertByIndex(InsertByIndex(s.nodes, Again(s.nodes, s.nodes[k], s.revisions)), Recheck(s.nodes, s.nodes[k], s.revisions)),
              s.revisions + 1, s.qcExhausted)
  {
    hide InsertByIndex, Producer, NextIndex, Find, WithStatus;
  }

  lemma RevisionAdds(nodes: seq<Node>, revisions: nat, k: nat, j: nat, now: seq<Node>)
    requires Layout(nodes) && UniqueIds(nodes) && SortedByIndex(nodes) && OneSaveNode(nodes) && RevisionsBounded(nodes, revisions)
    requires k < |nodes| && j < |nodes| && nodes[j].index < nodes[k].index && Producer(nodes, nodes[k]) == Some(nodes[j])
    requires now == WithStatus(InsertByIndex(InsertByIndex(nodes, Again(nodes, nodes[k], revisions)),
                                             Recheck(nodes, nodes[k], revisions)), nodes[k].id, Succeeded)
    ensures SentBack(nodes, now, j, k, revisions + 1)
  {
    var again, recheck := Again(nodes, nodes[k], revisions), Recheck(nodes, nodes[k], revisions);
    hide Producer, NextIndex, WithStatus, Again, Recheck, Layout, InsertByIndex, UniqueIds, SortedByIndex, OneSaveNode, GrownFrom,
      RevisionsBounded, TwoAdded;
    RevisionRows(nodes, k, j, revisions);
    NoSuchRevision(nodes, k, revisions);
    InsertTwo(nodes, again, recheck, revisions);
    RowsWithTwo(nodes, again, recheck);
    UniqueOf(nodes, InsertByIndex(InsertByIndex(nodes, again), recheck));
    MarkedAmong(nodes, InsertByIndex(InsertByIndex(nodes, again), recheck), k, again, recheck);
  }

  lemma UniqueOf(before: seq<Node>, now: seq<Node>)
    requires GrownFrom(before, now)
    ensures UniqueIds(now)
  {
  }

  lemma NoSuchRevision(nodes: seq<Node>, k: nat, revisions: nat)
    requires RevisionsBounded(nodes, revisions) && k < |nodes|
    ensures OuterRevision(nodes[k].id) <= revisions
  {
    assert nodes[k] in nodes;
  }

  lemma RevisionRows(nodes: seq<Node>, k: nat, j: nat, revisions: nat)
    requires Layout(nodes) && UniqueIds(nodes) && k < |nodes| && j < |nodes| && nodes[j].index < nodes[k].index
    requires Producer(nodes, nodes[k]) == Some(nodes[j])
    ensures nodes[j].id != nodes[k].id
    ensures Again(nodes, nodes[k], revisions)
         == Node(Rev(nodes[j].id, revisions + 1), SavePlace(|nodes|), AgentStep, Pending, nodes[j].agent, false)
    ensures Recheck(nodes, nodes[k], revisions)
         == Node(Rev(nodes[k].id, revisions + 1), SavePlace(|nodes|) + 1, AgentStep, Pending, nodes[k].agent, false)
  {
    hide Producer, NextIndex, SavePlace;
    NextIndexInLayout(nodes, nodes[k].index);
  }

  lemma RowsWithTwo(nodes: seq<Node>, again: Node, recheck: Node)
    requires SortedByIndex(nodes)
    ensures var now := InsertByIndex(InsertByIndex(nodes, again), recheck);
      |now| == |nodes| + 2 && forall n :: n in now <==> n in nodes || n == again || n == recheck
  {
    InsertKeeps(nodes, again);
    InsertKeeps(InsertByIndex(nodes, again), recheck);
  }

  lemma MarkedAmong(before: seq<Node>, grown: seq<Node>, k: nat, again: Node, recheck: Node)
    requires k < |before| && again.id != before[k].id && recheck.id != before[k].id && UniqueIds(grown)
    requires |grown| == |before| + 2 && forall n :: n in grown <==> n in before || n == again || n == recheck
    ensures TwoAdded(before, WithStatus(grown, before[k].id, Succeeded), k, again, recheck)
  {
    var now := WithStatus(grown, before[k].id, Succeeded);
    assert before[k] in grown;
    var p :| 0 <= p < |grown| && grown[p] == before[k];
    WithStatusIsUpdate(grown, p, Succeeded);
    assert forall i :: 0 <= i < |grown| && i != p ==> grown[i].id != before[k].id;
    forall n | n in grown && n != before[k] ensures n in now {
      var i :| 0 <= i < |grown| && grown[i] == n;
      assert now[i] == n;
    }
    assert again in grown && recheck in grown && now[p] in now;
  }

  /** A result without a failed check, and any result of a node that is no agent, uses no revision; only
      a manager adds rows then. */
  lemma PassedCheckMeans(agent: AgentRef, isManager: bool, isOrigin: bool, maxRevisions: int, s: Run, k: nat, outcome: Outcome)
    requires Reaches(Create(agent, isManager, isOrigin, maxRevisions), s) && s.worker.InNode?
    requires k < |s.nodes| && s.nodes[k].status == Running && s.nodes[k].kind != Manager
    requires s.nodes[k].kind != AgentStep || outcome.qcPassed != Some(false)
    ensures Enabled(s, FinishNode(outcome))
    ensures var t := Apply(s, FinishNode(outcome));
      t.qcExhausted == s.qcExhausted && t.revisions == s.revisions && t.nodes == s.nodes[k := s.nodes[k].(status := Succeeded)]
  {
    hide Reaches, Create, CoreInv, HeadFits, Ordered, Apply, Enabled, WithStatus, Find;
    ReachableOrdered(agent, isManager, isOrigin, maxRevisions, s);
    RunningIs(s, k);
    FinishIs(s, k, outcome);
    ExhaustedIs(s, k, outcome);
    OnlyDone(s, k);
  }

  // ----- a manager's plan -----

  /** The first n steps of a plan as rows, from index 3 on. */
  function PlanRows(plan: seq<AgentRef>, n: nat): (rows: seq<Node>)
    requires n <= |plan|
    ensures |rows| == n
  {
    seq(n, i requires 0 <= i < n => Node(Step(plan[i].slug, i + 1), 3 + i, AgentStep, Pending, Some(plan[i].id), false))
  }

  function Taken(plan: seq<AgentRef>): (n: nat)
    ensures n <= |plan| && n <= 12 && (n < |plan| ==> n == 12)
  {
    if |plan| <= 12 then |plan| else 12
  }

  /** The plan stands between the manager and the save node. */
  lemma InsertAtSave(before: seq<Node>, n: Node)
    requires Layout(before) && |before| <= SAVE_NODE_INDEX && n.index == |before| - 1
    ensures InsertByIndex(before, n) == before[..|before| - 1] + [n] + [before[|before| - 1]]
  {
    var m := |before|;
    assert Position(before[..m - 1], n.index) == m - 1;
    assert Position(before, n.index) == m - 1;
    assert before[m - 1..] == [before[m - 1]];
  }

  /** The rows in front, the first n steps, and the save node. */
  function WithPlan(before: seq<Node>, plan: seq<AgentRef>, n: nat): (rows: seq<Node>)
    requires |before| == 4 && n <= |plan|
    ensures |rows| == 4 + n
  {
    before[..3] + PlanRows(plan, n) + [before[3]]
  }

  lemma AddStepsNext(nodes: seq<Node>, existing: set<NodeId>, plan: seq<AgentRef>, i: nat, next: int)
    requires i < |plan| && i < MAX_PLAN_STEPS && (forall id <- existing :: !id.Step?)
    ensures AddSteps(nodes, existing, plan, i, next) == AddSteps(
      InsertByIndex(nodes, Node(Step(plan[i].slug, i + 1), next, AgentStep, Pending, Some(plan[i].id), false)), existing, plan, i + 1, next + 1)
  {
    hide InsertByIndex;
  }

  lemma {:induction false} PlanInserted(before: seq<Node>, existing: set<NodeId>, plan: seq<AgentRef>, i: nat)
    requires |before| == 4 && (forall id <- existing :: !id.Step?) && i <= Taken(plan)
    requires Layout(WithPlan(before, plan, i)) && SortedByIndex(WithPlan(before, plan, i))
    ensures AddSteps(WithPlan(before, plan, i), existing, plan, i, 3 + i) == WithPlan(before, plan, Taken(plan))
    decreases Taken(plan) - i
  {
    hide InsertByIndex, Layout, SortedByIndex, WithPlan;
    if i < Taken(plan) {
      var now := WithPlan(before, plan, i);
      var added := Node(Step(plan[i].slug, i + 1), 3 + i, AgentStep, Pending, Some(plan[i].id), false);
      AddStepsNext(now, existing, plan, i, 3 + i);
      hide AddSteps;
      InsertAtSave(now, added);
      InsertKeepsLayout(now, added);
      InsertKeeps(now, added);
      OneRowMore(before, plan, i, added);
      PlanInserted(before, existing, plan, i + 1);
    }
  }

  lemma OneRowMore(before: seq<Node>, plan: seq<AgentRef>, i: nat, added: Node)
    requires |before| == 4 && i < |plan| && added == Node(Step(plan[i].slug, i + 1), 3 + i, AgentStep, Pending, Some(plan[i].id), false)
    ensures var now := WithPlan(before, plan, i);
      now[..|now| - 1] + [added] + [now[|now| - 1]] == WithPlan(before, plan, i + 1)
  {
  }

  // ----- steps that complete nothing -----

  predicate SameDone(before: seq<Node>, now: seq<Node>) {
    SameRows(before, now) && forall i :: 0 <= i < |before| ==> (before[i].status == Succeeded <==> now[i].status == Succeeded)
  }

  predicate NoneCompleted(events: seq<Event>) {
    forall i :: 0 <= i < |events| ==> events[i].kind != NodeCompleted
  }

  lemma QuietStep(s: Run, a: Action)
    requires CoreInv(s) && Enabled(s, a) && !a.FinishNode?
    ensures SameDone(s.nodes, Apply(s, a).nodes)
    ensures s.log <= Apply(s, a).log && NoneCompleted(Apply(s, a).log[|s.log|..])
  {
    if a in {StartNode, Pause, FailNode, AnswerClarification} {
      MovingStep(s, a);
    } else {
      OtherStep(s, a);
    }
  }

  lemma MovingStep(s: Run, a: Action)
    requires CoreInv(s) && Enabled(s, a) && a in {StartNode, Pause, FailNode, AnswerClarification}
    ensures SameDone(s.nodes, Apply(s, a).nodes)
    ensures s.log <= Apply(s, a).log && NoneCompleted(Apply(s, a).log[|s.log|..])
  {
    hide CoreInv, Apply, Enabled;
    match a
    case StartNode => var k := StartShape(s);
    case Pause => var k := PauseShape(s);
    case FailNode => var k := FailShape(s);
    case AnswerClarification => var k := AnswerShape(s);
  }

  lemma OtherStep(s: Run, a: Action)
    requires Enabled(s, a) && a !in {StartNode, Pause, FailNode, AnswerClarification} && !a.FinishNode?
    ensures SameDone(s.nodes, Apply(s, a).nodes)
    ensures s.log <= Apply(s, a).log && NoneCompleted(Apply(s, a).log[|s.log|..])
  {
    hide ReapEvents, LastSequence, Find, NextNode, FirstWaiting, SkipOpen, FailRunning, ResetFailed, SameDone;
    ReapEventsFail(s.nodes, LastSequence(s.log) + 1);
    RowsDone(s.nodes);
  }

  lemma RowsDone(nodes: seq<Node>)
    ensures SameDone(nodes, nodes) && SameDone(nodes, SkipOpen(nodes)) && SameDone(nodes, FailRunning(nodes))
    ensures SameDone(nodes, ResetFailed(nodes))
  {
  }

  lemma {:induction false} ReapEventsFail(nodes: seq<Node>, next: nat)
    ensures forall i :: 0 <= i < |ReapEvents(nodes, next)| ==> ReapEvents(nodes, next)[i].kind == NodeFailed
  {
    if nodes != [] {
      ReapEventsFail(nodes[1..], next);
      ReapEventsFail(nodes[1..], next + 1);
    }
  }

  /** While the manager is not done, no step of a plan is there. */
  predicate NoStepWhileOpen(nodes: seq<Node>) {
    ManagerOpen(nodes) ==> forall i :: 0 <= i < |nodes| ==> !nodes[i].id.Step?
  }

  lemma StepKeepsNoStep(s: Run, a: Action)
    requires CoreInv(s) && HeadFits(s) && Ordered(s) && Enabled(s, a) && NoStepWhileOpen(s.nodes)
    ensures NoStepWhileOpen(Apply(s, a).nodes)
  {
    if a.FinishNode? {
      FinishKeepsNoStep(s, a.outcome);
    } else {
      QuietStep(s, a);
    }
  }

  lemma FinishKeepsNoStep(s: Run, outcome: Outcome)
    requires CoreInv(s) && HeadFits(s) && Ordered(s) && Enabled(s, FinishNode(outcome)) && NoStepWhileOpen(s.nodes)
    ensures NoStepWhileOpen(Apply(s, FinishNode(outcome)).nodes)
  {
    hide Ordered, HeadFits, NoStepWhileOpen;
    var k := RunningAt(s);
    AfterResultGrows(s, s.nodes[k], outcome);
    FinishIs(s, k, outcome);
    hide CoreInv, Apply, Enabled, At;
    ResultGrows(s, k, outcome);
    FinishedNoStep(s, AfterResult(s, s.nodes[k], outcome), k);
  }

  lemma FinishedNoStep(s: Run, r: Revision, k: nat)
    requires At(s, k) && Grows(s, r, k) && GrownFrom(s.nodes, r.nodes) && NoStepWhileOpen(s.nodes)
    ensures NoStepWhileOpen(WithStatus(r.nodes, s.nodes[k].id, Succeeded))
  {
    hide WithStatus, Layout, Beyond, OpenFirst, SortedByIndex, GrownBehind, Tidy, SameRows;
    FourRows(r.nodes);
    WithStatusAt(r.nodes, s.nodes[k].id, Succeeded);
    ManagerStays(s.nodes, r.nodes);
    hide GrownFrom;
    ManagerCloses(s, r.nodes, WithStatus(r.nodes, s.nodes[k].id, Succeeded), k);
    SameIdsNoStep(r.nodes, WithStatus(r.nodes, s.nodes[k].id, Succeeded));
  }

  lemma FourRows(nodes: seq<Node>)
    requires Layout(nodes)
    ensures |nodes| >= 4
  {
  }

  lemma SameIdsNoStep(before: seq<Node>, now: seq<Node>)
    requires SameRows(before, now)
    ensures forall i :: 0 <= i < |now| ==> now[i].id == before[i].id
  {
  }

  lemma {:induction false} NoStepAlong(s0: Run, actions: seq<Action>)
    requires CoreInv(s0) && HeadFits(s0) && Ordered(s0) && NoStepWhileOpen(s0.nodes) && Replay(s0, actions).Some?
    ensures NoStepWhileOpen(Replay(s0, actions).value.nodes)
  {
    hide CoreInv, HeadFits, Ordered, Enabled, NoStepWhileOpen, Apply;
    if actions != [] {
      NoStepAlong(s0, actions[..|actions| - 1]);
      OrderedAlong(s0, actions[..|actions| - 1]);
      StepKeepsNoStep(Replay(s0, actions[..|actions| - 1]).value, actions[|actions| - 1]);
    }
  }

  lemma NoStepYet(agent: AgentRef, isManager: bool, isOrigin: bool, maxRevisions: int, s: Run)
    requires Reaches(Create(agent, isManager, isOrigin, maxRevisions), s)
    ensures NoStepWhileOpen(s.nodes)
  {
    var s0 := Create(agent, isManager, isOrigin, maxRevisions);
    CreateEstablishesCore(agent, isManager, isOrigin, maxRevisions);
    CreateEstablishesHead(agent, isManager, isOrigin, maxRevisions);
    CreateEstablishesOrder(agent, isManager, isOrigin, maxRevisions);
    assert NoStepWhileOpen(s0.nodes);
    hide Create, CoreInv, HeadFits, Ordered, Replay, NoStepWhileOpen;
    var actions :| Replay(s0, actions) == Some(s);
    NoStepAlong(s0, actions);
  }

  /** When a manager is done, its run is exactly: the rows before it, itself, the first twelve steps of
      its plan in order, each for its own agent, and the save node. */
  lemma PlanIsLaidOut(agent: AgentRef, isManager: bool, isOrigin: bool, maxRevisions: int, s: Run, k: nat, outcome: Outcome)
    requires Reaches(Create(agent, isManager, isOrigin, maxRevisions), s) && s.worker.InNode?
    requires k < |s.nodes| && s.nodes[k].status == Running && s.nodes[k].kind == Manager
    ensures Enabled(s, FinishNode(outcome)) && k == 2 && |s.nodes| == 4
    ensures Apply(s, FinishNode(outcome)).nodes
         == s.nodes[..2] + [s.nodes[2].(status := Succeeded)] + PlanRows(outcome.plan, Taken(outcome.plan)) + [s.nodes[3]]
    ensures Apply(s, FinishNode(outcome)).revisions == 0
    ensures Apply(s, FinishNode(outcome)).qcExhausted <==> s.qcExhausted || (outcome.qcPassed == Some(false) && maxRevisions <= 0)
  {
    ReachableOrdered(agent, isManager, isOrigin, maxRevisions, s);
    NoStepYet(agent, isManager, isOrigin, maxRevisions, s);
    hide Reaches, Create;
    RunningIs(s, k);
    FinishIs(s, k, outcome);
    ExhaustedIs(s, k, outcome);
    assert k == 2 && |s.nodes| == 4;
    AfterResultGrows(s, s.nodes[2], outcome);
    hide CoreInv, Apply, Enabled, HeadFits, Find;
    ManagerResultIs(s, outcome);
    ManagerExhausts(s, outcome) by {
      assert Ordered(s);
    }
  }

  lemma ManagerExhausts(s: Run, outcome: Outcome)
    requires Ordered(s) && |s.nodes| == 4 && s.nodes[2].kind == Manager && s.nodes[2].status == Running
    ensures AfterResult(s, s.nodes[2], outcome).qcExhausted <==>
      s.qcExhausted || (outcome.qcPassed == Some(false) && s.maxRevisions <= 0)
  {
    NoProducerBelow(s.nodes, s.nodes[2]);
    hide AddSteps, Producer, NextIndex, Ids;
  }

  lemma ManagerResultIs(s: Run, outcome: Outcome)
    requires Ordered(s) && NoStepWhileOpen(s.nodes) && |s.nodes| == 4 && s.nodes[2].kind == Manager && s.nodes[2].status == Running
    requires SortedByIndex(s.nodes) && UniqueIds(AfterResult(s, s.nodes[2], outcome).nodes)
    ensures WithStatus(AfterResult(s, s.nodes[2], outcome).nodes, s.nodes[2].id, Succeeded)
         == s.nodes[..2] + [s.nodes[2].(status := Succeeded)] + PlanRows(outcome.plan, Taken(outcome.plan)) + [s.nodes[3]]
    ensures AfterResult(s, s.nodes[2], outcome).revisions == 0
  {
    hide WithStatus, Layout, SortedByIndex, Ids, AfterResult, WithPlan, OpenFirst, Beyond, Tidy;
    ManagerAddsSteps(s, outcome);
    StepsAdded(s, outcome.plan);
    hide AddSteps, Ordered;
    var grown := WithPlan(s.nodes, outcome.plan, Taken(outcome.plan));
    WithStatusIsUpdate(grown, 2, Succeeded) by {
      assert grown[2].id == s.nodes[2].id by { SecondRow(s.nodes, outcome.plan); }
    }
    SecondRow(s.nodes, outcome.plan);
  }

  lemma SecondRow(nodes: seq<Node>, plan: seq<AgentRef>)
    requires |nodes| == 4
    ensures var grown := WithPlan(nodes, plan, Taken(plan));
      && grown[2] == nodes[2]
      && grown[2 := nodes[2].(status := Succeeded)]
         == nodes[..2] + [nodes[2].(status := Succeeded)] + PlanRows(plan, Taken(plan)) + [nodes[3]]
  {
  }

  lemma ManagerAddsSteps(s: Run, outcome: Outcome)
    requires Ordered(s) && |s.nodes| == 4 && s.nodes[2].kind == Manager && s.nodes[2].status == Running
    ensures AfterResult(s, s.nodes[2], outcome).nodes == AddSteps(s.nodes, Ids(s.nodes), outcome.plan, 0, 3)
    ensures AfterResult(s, s.nodes[2], outcome).revisions == 0
  {
    NoProducerBelow(s.nodes, s.nodes[2]);
    NextIndexInLayout(s.nodes, s.nodes[2].index);
    hide AddSteps, Producer, NextIndex, Ids;
  }

  lemma NothingPlanned(nodes: seq<Node>, plan: seq<AgentRef>)
    requires |nodes| == 4
    ensures nodes == WithPlan(nodes, plan, 0)
  {
  }

  lemma NoStepIds(nodes: seq<Node>)
    requires NoStepWhileOpen(nodes) && ManagerOpen(nodes)
    ensures forall id <- Ids(nodes) :: !id.Step?
  {
  }

  lemma StepsAdded(s: Run, plan: seq<AgentRef>)
    requires Layout(s.nodes) && SortedByIndex(s.nodes) && NoStepWhileOpen(s.nodes)
    requires |s.nodes| == 4 && s.nodes[2].kind == Manager && s.nodes[2].status == Running
    ensures AddSteps(s.nodes, Ids(s.nodes), plan, 0, 3) == WithPlan(s.nodes, plan, Taken(plan))
  {
    hide Layout, SortedByIndex, Ids, AddSteps, WithPlan, NoStepWhileOpen;
    NoStepIds(s.nodes);
    NothingPlanned(s.nodes, plan);
    PlanInserted(s.nodes, Ids(s.nodes), plan, 0);
  }

  lemma ExhaustedIs(s: Run, k: nat, outcome: Outcome)
    requires Enabled(s, FinishNode(outcome)) && k < |s.nodes| && Find(s.nodes, s.worker.node) == Some(s.nodes[k])
    ensures Apply(s, FinishNode(outcome)).qcExhausted == AfterResult(s, s.nodes[k], outcome).qcExhausted
  {
    hide AfterResult, WithStatus, Find;
  }
}
