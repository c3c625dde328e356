/** The two guards on max_revisions are exact, with node ids that fit their column. */
module RunLimit {
  import opened Options
  import opened RunStates
  import opened NodeIds
  import opened RunModel
  import opened RunInvariant
  import opened RunHead
  import opened RunOrder

  // From 493 revisions on a run can reach a state where a re-check shares the save node's index, and
  // from 495 on one where a node is queued in front of another that is done. The lemmas below build
  // these runs: a manager plans twelve steps, and every step but the first fails its check.

  const NODE_ID_CHARS := 80

  /** Every id string fits the column of the node table. */
  predicate ColumnFits(nodes: seq<Node>) {
    Short(nodes, NODE_ID_CHARS)
  }

  predicate Short(nodes: seq<Node>, most: int) {
    forall i :: 0 <= i < |nodes| ==> |Render(nodes[i].id)| <= most
  }

  /** Rows are never dropped, so if the ids fit at the end they fitted all along. */
  lemma {:induction false} ColumnFitsAlong(s0: Run, actions: seq<Action>, i: nat)
    requires CoreInv(s0) && Replay(s0, actions).Some? && ColumnFits(Replay(s0, actions).value.nodes) && i <= |actions|
    ensures Replay(s0, actions[..i]).Some? && ColumnFits(Replay(s0, actions[..i]).value.nodes)
  {
    if i == |actions| {
      assert actions[..i] == actions;
    } else {
      var front, last := actions[..|actions| - 1], actions[|actions| - 1];
      CoreInvAlong(s0, front);
      var s := Replay(s0, front).value;
      StepKeepsCore(s, last);
      forall k | 0 <= k < |s.nodes| ensures |Render(s.nodes[k].id)| <= NODE_ID_CHARS {
        assert s.nodes[k] in s.nodes;
      }
      ColumnFitsAlong(s0, front, i);
      assert front[..i] == actions[..i];
    }
  }

  // ----- running the head -----

  /** An executor at the top of its loop, k nodes done and all others pending. */
  predicate Stage(s: Run, k: nat) {
    s.status == RunRunning && s.worker.AtTop? && !s.cancelRequested && Rows(s.nodes, k, Pending)
  }

  /** k rows done, row k as given, the rest pending. */
  predicate Rows(nodes: seq<Node>, k: nat, status: NodeState) {
    && UniqueIds(nodes) && SortedByIndex(nodes) && Layout(nodes) && k < |nodes|
    && (forall i :: 0 <= i < k ==> nodes[i].status == Succeeded)
    && nodes[k].status == status
    && (forall i :: k < i < |nodes| ==> nodes[i].status == Pending)
  }

  predicate InHead(s: Run, k: nat) {
    s.status == RunRunning && s.worker.InNode? && !s.cancelRequested && Rows(s.nodes, k, Running) && s.nodes[k].id == s.worker.node
  }

  function Marked(nodes: seq<Node>, k: nat, status: NodeState): seq<Node>
    requires k < |nodes|
  {
    nodes[k := nodes[k].(status := status)]
  }

  lemma MarkedRows(nodes: seq<Node>, k: nat, was: NodeState, status: NodeState)
    requires Rows(nodes, k, was)
    ensures Rows(Marked(nodes, k, status), k, status)
  {
    SameRowsLayout(nodes, Marked(nodes, k, status));
  }

  /** The executor picks and starts the head. */
  lemma StartHead(s0: Run, s: Run, k: nat) returns (t: Run)
    requires Reaches(s0, s) && Stage(s, k)
    ensures Reaches(s0, t) && InHead(t, k) && t.nodes == Marked(s.nodes, k, Running)
    ensures t.revisions == s.revisions && t.maxRevisions == s.maxRevisions
  {
    NextIsFirst(s.nodes, k);
    FindIsAt(s.nodes, k);
    WithStatusIsUpdate(s.nodes, k, Running);
    MarkedRows(s.nodes, k, Pending, Running);
    hide Rows, Find, WithStatus, NextNode;
    ReachesNext(s0, s, ChooseNext);
    var mid := Apply(s, ChooseNext);
    ReachesNext(s0, mid, StartNode);
    t := Apply(mid, StartNode);
  }

  /** What finishing the head leaves, given the rows its result grew to. */
  lemma FinishHead(s0: Run, s: Run, k: nat, outcome: Outcome) returns (t: Run)
    requires Reaches(s0, s) && InHead(s, k)
    ensures Reaches(s0, t)
    ensures var r := AfterResult(s, s.nodes[k], outcome);
      t.nodes == WithStatus(r.nodes, s.nodes[k].id, Succeeded) && t.revisions == r.revisions
    ensures t.status == RunRunning && t.worker.AtTop? && !t.cancelRequested && t.maxRevisions == s.maxRevisions
  {
    FindIsAt(s.nodes, k);
    var finish := FinishNode(outcome);
    ReachesNext(s0, s, finish);
    t := Apply(s, finish);
  }

  /** A node that returns without a quality report only moves the frontier. */
  lemma RunPlain(s0: Run, s: Run, k: nat) returns (t: Run)
    requires Reaches(s0, s) && Stage(s, k) && k + 1 < |s.nodes| && s.nodes[k].kind != Manager
    ensures Reaches(s0, t) && Stage(t, k + 1) && SameRows(s.nodes, t.nodes)
    ensures t.revisions == s.revisions && t.maxRevisions == s.maxRevisions
  {
    var mid := StartHead(s0, s, k);
    t := FinishHead(s0, mid, k, Outcome(None, []));
    WithStatusIsUpdate(mid.nodes, k, Succeeded);
    MarkedRows(mid.nodes, k, Running, Succeeded);
    assert t.nodes == Marked(mid.nodes, k, Succeeded);
  }

  lemma RunPlainTo(s0: Run, s: Run, k: nat, m: nat) returns (t: Run)
    requires Reaches(s0, s) && Stage(s, k) && k <= m < |s.nodes|
    requires forall i :: k <= i < m ==> s.nodes[i].kind != Manager
    ensures Reaches(s0, t) && Stage(t, m) && SameRows(s.nodes, t.nodes)
    ensures t.revisions == s.revisions && t.maxRevisions == s.maxRevisions
    decreases m - k
  {
    if k == m {
      t := s;
    } else {
      var mid := RunPlain(s0, s, k);
      t := RunPlainTo(s0, mid, k + 1, m);
    }
  }

  // ----- a failed check -----

  /** A row's place depends on the indices alone, so marking another row and inserting commute. */
  lemma {:induction false} PositionSame(before: seq<Node>, now: seq<Node>, index: int)
    requires SameRows(before, now)
    ensures Position(before, index) == Position(now, index)
  {
    if before != [] && before[|before| - 1].index > index {
      PositionSame(before[..|before| - 1], now[..|before| - 1], index);
    }
  }

  lemma MarkThenInsert(nodes: seq<Node>, id: NodeId, n: Node)
    requires n.id != id
    ensures WithStatus(InsertByIndex(nodes, n), id, Succeeded) == InsertByIndex(WithStatus(nodes, id, Succeeded), n)
  {
    WithStatusAt(nodes, id, Succeeded);
    PositionSame(nodes, WithStatus(nodes, id, Succeeded), n.index);
    hide WithStatus, SameRows;
    MarkAround(nodes, id, n, Position(nodes, n.index));
  }

  lemma MarkAround(nodes: seq<Node>, id: NodeId, n: Node, p: nat)
    requires n.id != id && p <= |nodes|
    ensures WithStatus(nodes[..p] + [n] + nodes[p..], id, Succeeded)
         == WithStatus(nodes, id, Succeeded)[..p] + [n] + WithStatus(nodes, id, Succeeded)[p..]
  {
  }

  /** Some earlier node of another agent can be sent back. */
  predicate HasProducer(nodes: seq<Node>, k: nat) {
    k < |nodes| && exists j :: 0 <= j < |nodes| && IsProducer(nodes[j], nodes[k])
  }

  lemma {:induction false} ProducerExists(nodes: seq<Node>, qc: Node)
    requires exists j :: 0 <= j < |nodes| && IsProducer(nodes[j], qc)
    ensures Producer(nodes, qc).Some?
  {
    if !IsProducer(nodes[|nodes| - 1], qc) {
      ProducerExists(nodes[..|nodes| - 1], qc);
    }
  }

  /** The two rows added for the check in row k, the producer being row j. */
  predicate TwoRows(nodes: seq<Node>, k: nat, revision: nat, j: nat, again: Node, recheck: Node) {
    && j < |nodes| && k < |nodes| && nodes[j].index < nodes[k].index && nodes[j].kind == AgentStep
    && again == Node(Rev(nodes[j].id, revision), SavePlace(|nodes|), AgentStep, Pending, nodes[j].agent, false)
    && recheck == Node(Rev(nodes[k].id, revision), SavePlace(|nodes|) + 1, AgentStep, Pending, nodes[k].agent, false)
  }

  function WithTwo(nodes: seq<Node>, again: Node, recheck: Node): seq<Node> {
    InsertByIndex(InsertByIndex(nodes, again), recheck)
  }

  /** The head reports a failed check while revisions are left. */
  lemma Fail(s0: Run, s: Run, k: nat) returns (t: Run, j: nat, again: Node, recheck: Node)
    requires CoreInv(s0) && Reaches(s0, s) && Stage(s, k) && s.nodes[k].kind == AgentStep
    requires s.revisions < s.maxRevisions && HasProducer(s.nodes, k)
    ensures Reaches(s0, t) && TwoRows(s.nodes, k, s.revisions + 1, j, again, recheck)
    ensures t.nodes == WithTwo(Marked(s.nodes, k, Succeeded), again, recheck) && UniqueIds(t.nodes) && SortedByIndex(t.nodes)
    ensures t.status == RunRunning && t.worker.AtTop? && !t.cancelRequested
    ensures t.revisions == s.revisions + 1 && t.maxRevisions == s.maxRevisions
  {
    var mid := StartHead(s0, s, k);
    CoreInvAlways(s0, s);
    assert RevisionsBounded(s.nodes, s.revisions) by {
      assert CoreInv(s);
    }
    j, again, recheck := RevisedRows(s, mid, k);
    t := FinishHead(s0, mid, k, Outcome(Some(false), []));
    CoreInvAlways(s0, t);
    hide CoreInv, InsertByIndex;
    assert UniqueIds(t.nodes) && SortedByIndex(t.nodes) by {
      assert CoreInv(t);
    }
  }

  lemma RevisedRows(s: Run, mid: Run, k: nat) returns (j: nat, again: Node, recheck: Node)
    requires Rows(s.nodes, k, Pending) && HasProducer(s.nodes, k) && mid.nodes == Marked(s.nodes, k, Running)
    requires s.nodes[k].kind == AgentStep && mid.revisions < mid.maxRevisions && mid.revisions == s.revisions
    requires RevisionsBounded(s.nodes, s.revisions)
    ensures TwoRows(s.nodes, k, s.revisions + 1, j, again, recheck)
    ensures var r := AfterResult(mid, mid.nodes[k], Outcome(Some(false), []));
      && WithStatus(r.nodes, s.nodes[k].id, Succeeded) == WithTwo(Marked(s.nodes, k, Succeeded), again, recheck)
      && r.revisions == s.revisions + 1
  {
    hide RevisionsBounded, AfterResult, InsertByIndex, Producer, NextIndex, WithStatus, Layout, HasProducer, SortedByIndex, UniqueIds,
      SavePlace, WithTwo;
    var nodes, qc := mid.nodes, mid.nodes[k];
    MarkedRows(s.nodes, k, Pending, Running);
    j := ProducerRow(s.nodes, k);
    NextIndexInLayout(nodes, qc.index);
    again, recheck := Again(nodes, qc, s.revisions), Recheck(nodes, qc, s.revisions);
    FailedCheckIs(mid, k);
    NotAMember(s.nodes, s.revisions, k);
    MarkTwo(nodes, qc.id, again, recheck);
    WithStatusIsUpdate(nodes, k, Succeeded);
    MarkedTwice(s.nodes, k);
  }

  lemma MarkedTwice(nodes: seq<Node>, k: nat)
    requires k < |nodes|
    ensures Marked(Marked(nodes, k, Running), k, Succeeded) == Marked(nodes, k, Succeeded)
  {
  }

  lemma FailedCheckIs(s: Run, k: nat)
    requires k < |s.nodes| && s.nodes[k].kind == AgentStep && s.revisions < s.maxRevisions
    requires Producer(s.nodes, s.nodes[k]).Some?
    ensures AfterResult(s, s.nodes[k], Outcome(Some(false), [])) == Revision(
      WithTwo(s.nodes, Again(s.nodes, s.nodes[k], s.revisions), Recheck(s.nodes, s.nodes[k], s.revisions)),
      s.revisions + 1, s.qcExhausted)
  {
    hide InsertByIndex, Producer, NextIndex, Revise, Again, Recheck;
    ReviseIs(s.nodes, s.nodes[k], s.revisions, s.maxRevisions, s.qcExhausted);
  }

  lemma NotAMember(nodes: seq<Node>, revisions: nat, k: nat)
    requires RevisionsBounded(nodes, revisions) && k < |nodes|
    ensures !nodes[k].id.Rev? || nodes[k].id.number <= revisions
  {
    assert nodes[k] in nodes;
  }

  lemma MarkTwo(nodes: seq<Node>, id: NodeId, again: Node, recheck: Node)
    requires again.id != id && recheck.id != id
    ensures WithStatus(WithTwo(nodes, again, recheck), id, Succeeded) == WithTwo(WithStatus(nodes, id, Succeeded), again, recheck)
  {
    hide InsertByIndex, WithStatus;
    MarkThenInsert(nodes, id, again);
    MarkThenInsert(InsertByIndex(nodes, again), id, recheck);
  }

  lemma ProducerRow(nodes: seq<Node>, k: nat) returns (j: nat)
    requires HasProducer(nodes, k) && nodes[k].status == Pending
    ensures var running := Marked(nodes, k, Running);
      && j < |nodes| && nodes[j].index < nodes[k].index && nodes[j].kind == AgentStep && Producer(running, running[k]) == Some(nodes[j])
  {
    var running := Marked(nodes, k, Running);
    var i :| 0 <= i < |nodes| && IsProducer(nodes[i], nodes[k]);
    assert IsProducer(running[i], running[k]);
    ProducerExists(running, running[k]);
    ProducerGives(running, running[k]);
    j :| 0 <= j < |running| && running[j] == Producer(running, running[k]).value;
  }

  // ----- how long the ids get -----

  /** How often the id of the i-th agent step was extended: twelve steps are planned, and the check in
      step k adds steps 10 + 2k and 11 + 2k. */
  function Depth(i: nat): nat {
    if i < 12 then 0 else 1 + Depth((i - 10) / 2)
  }

  lemma {:induction false} DepthGrows(i: nat, j: nat)
    requires i <= j
    ensures Depth(i) <= Depth(j)
    decreases j
  {
    if i >= 12 {
      DepthGrows((i - 10) / 2, (j - 10) / 2);
    }
  }

  lemma DepthIsSmall(i: nat)
    requires i < 1000
    ensures Depth(i) <= 6
  {
    DepthGrows(i, 1000);
    assert Depth(1000) == 1 + Depth(495) && Depth(495) == 1 + Depth(242) && Depth(242) == 1 + Depth(116);
    assert Depth(116) == 1 + Depth(53) && Depth(53) == 1 + Depth(21) && Depth(21) == 1 + Depth(5);
  }

  lemma DecimalIsShort(n: nat)
    requires n < 1000
    ensures |Decimal(n)| <= 3
  {
    assert n / 10 < 100 && n / 10 / 10 < 10;
    assert |Decimal(n / 10 / 10)| == 1;
    assert |Decimal(n / 10)| <= 2;
  }

  lemma RevisionIsShort(id: NodeId, n: nat)
    requires n < 1000
    ensures |Render(Rev(id, n))| <= |Render(id)| + 7
  {
    DecimalIsShort(n);
  }

  /** What the length of an id in row i stays within. */
  function Room(i: nat): nat {
    if i < 3 then 12 else 12 + 7 * Depth(i - 3)
  }

  predicate Lengths(nodes: seq<Node>) {
    forall i :: 0 <= i < |nodes| ==> |Render(nodes[i].id)| <= Room(i)
  }

  lemma RoomGrows(i: nat, j: nat)
    requires i <= j
    ensures Room(i) <= Room(j)
  {
    if i >= 3 {
      DepthGrows(i - 3, j - 3);
    }
  }

  // ----- climbing -----

  /** Two agents do all the steps; the first two steps have one each. */
  predicate Crew(nodes: seq<Node>) {
    && |nodes| >= 16 && nodes[2].kind == Manager && nodes[3].kind == nodes[4].kind == AgentStep
    && nodes[3].agent == Some(1) && nodes[4].agent == Some(2)
    && forall i :: 3 <= i < |nodes| ==> nodes[i].kind == Save || (nodes[i].kind == AgentStep && nodes[i].agent in {Some(1), Some(2)})
  }

  lemma CrewHasProducer(nodes: seq<Node>, k: nat)
    requires Rows(nodes, k, Pending) && Crew(nodes) && k >= 4 && nodes[k].kind == AgentStep
    ensures HasProducer(nodes, k)
  {
    assert nodes[k].agent == Some(1) ==> k > 4;
    assert IsProducer(nodes[if nodes[k].agent == Some(1) then 4 else 3], nodes[k]);
  }

  /** After a failed check in row k the next row is the head. */
  lemma FailedRows(nodes: seq<Node>, k: nat, again: Node, recheck: Node)
    requires Rows(nodes, k, Pending) && nodes[k].index <= SavePlace(|nodes|) && k + 1 < |nodes|
    requires again.index == SavePlace(|nodes|) && recheck.index == again.index + 1
    requires again.kind == recheck.kind == AgentStep && again.status == recheck.status == Pending
    ensures var now := WithTwo(Marked(nodes, k, Succeeded), again, recheck);
      && |now| == |nodes| + 2 && Layout(now)
      && (UniqueIds(now) && SortedByIndex(now) ==> Rows(now, k + 1, Pending))
  {
    MarkedRows(nodes, k, Pending, Succeeded);
    var done := Marked(nodes, k, Succeeded);
    assert GrownBehind(done, done, k) && done[k].index == nodes[k].index;
    hide InsertByIndex, Layout, SortedByIndex, UniqueIds;
    OneMore(done, done, again, k, true);
    OneMore(done, InsertByIndex(done, again), recheck, k, true);
  }

  /** While both rows fit below the save node they go right before it. */
  lemma TwoBeforeSave(nodes: seq<Node>, again: Node, recheck: Node)
    requires Layout(nodes) && SortedByIndex(nodes) && again.index == |nodes| - 1 && recheck.index == |nodes| < SAVE_NODE_INDEX
    ensures WithTwo(nodes, again, recheck) == nodes[..|nodes| - 1] + [again, recheck] + [nodes[|nodes| - 1]]
  {
    var once := InsertBeforeLast(nodes, again);
    var twice := InsertBeforeLast(once, recheck);
  }

  lemma InsertBeforeLast(nodes: seq<Node>, n: Node) returns (now: seq<Node>)
    requires nodes != [] && nodes[|nodes| - 1].index > n.index
    requires forall i :: 0 <= i < |nodes| - 1 ==> nodes[i].index <= n.index
    ensures now == InsertByIndex(nodes, n) == nodes[..|nodes| - 1] + [n] + [nodes[|nodes| - 1]]
  {
    now := InsertByIndex(nodes, n);
    assert Position(nodes, n.index) == |nodes| - 1;
  }

  lemma InsertAtEnd(nodes: seq<Node>, n: Node) returns (now: seq<Node>)
    requires forall i :: 0 <= i < |nodes| ==> nodes[i].index <= n.index
    ensures now == InsertByIndex(nodes, n) == nodes + [n]
  {
    now := InsertByIndex(nodes, n);
  }

  /** k steps are done, every one but the first failed its check, and the ids are short. */
  predicate Ladder(s: Run, k: nat) {
    && 1 <= k && s.revisions == k - 1 && |s.nodes| == 14 + 2 * k <= SAVE_NODE_INDEX
    && Stage(s, 3 + k) && Crew(s.nodes) && Lengths(s.nodes)
  }

  lemma Climb(s0: Run, s: Run, k: nat) returns (t: Run)
    requires CoreInv(s0) && Reaches(s0, s) && Ladder(s, k) && k - 1 < s.maxRevisions && 16 + 2 * k <= SAVE_NODE_INDEX
    ensures Reaches(s0, t) && Ladder(t, k + 1) && t.maxRevisions == s.maxRevisions
  {
    hide Reaches, CoreInv, Layout, SortedByIndex, UniqueIds, WithTwo, Lengths, Rows;
    var j, again, recheck;
    LaidOut(s.nodes, 3 + k);
    IndexInFront(s.nodes, 3 + k);
    CrewHasProducer(s.nodes, 3 + k);
    t, j, again, recheck := Fail(s0, s, 3 + k);
    ClimbedRows(s.nodes, t.nodes, k, j, again, recheck);
  }

  lemma ClimbedRows(nodes: seq<Node>, now: seq<Node>, k: nat, j: nat, again: Node, recheck: Node)
    requires 1 <= k && |nodes| == 14 + 2 * k <= 998 && Rows(nodes, 3 + k, Pending) && Crew(nodes) && Lengths(nodes)
    requires TwoRows(nodes, 3 + k, k, j, again, recheck)
    requires now == WithTwo(Marked(nodes, 3 + k, Succeeded), again, recheck) && UniqueIds(now) && SortedByIndex(now)
    ensures |now| == |nodes| + 2 && Rows(now, 4 + k, Pending) && Crew(now) && Lengths(now)
  {
    hide Layout, SortedByIndex, UniqueIds, WithTwo, Crew, Lengths;
    IndexInFront(nodes, 3 + k);
    FailedRows(nodes, 3 + k, again, recheck);
    MarkedRows(nodes, 3 + k, Pending, Succeeded);
    TwoBeforeSave(Marked(nodes, 3 + k, Succeeded), again, recheck);
    LadderGrows(nodes, now, k, j, again, recheck);
  }

  lemma LaidOut(nodes: seq<Node>, k: nat)
    requires Rows(nodes, k, Pending)
    ensures Layout(nodes)
  {
  }

  lemma IndexInFront(nodes: seq<Node>, k: nat)
    requires Layout(nodes) && k < SavePlace(|nodes|)
    ensures nodes[k].index == k && nodes[k].kind != Save
  {
  }

  lemma LadderGrows(nodes: seq<Node>, now: seq<Node>, k: nat, j: nat, again: Node, recheck: Node)
    requires 1 <= k && |nodes| == 14 + 2 * k <= 998 && Rows(nodes, 3 + k, Pending) && Crew(nodes) && Lengths(nodes)
    requires TwoRows(nodes, 3 + k, k, j, again, recheck)
    requires var done := Marked(nodes, 3 + k, Succeeded); now == done[..|nodes| - 1] + [again, recheck] + [done[|nodes| - 1]]
    ensures Crew(now) && Lengths(now)
  {
    assert j < 3 + k && 3 <= j;
    hide Rows, Layout, Room, Render;
    CrewGrows(nodes, now, 3 + k, again, recheck);
    NewIdsFit(nodes, k, j, again, recheck);
    hide Crew;
    LengthsGrow(nodes, Marked(nodes, 3 + k, Succeeded), now, again, recheck);
  }

  lemma LengthsGrow(nodes: seq<Node>, done: seq<Node>, now: seq<Node>, again: Node, recheck: Node)
    requires nodes != [] && Lengths(nodes) && SameRows(nodes, done)
    requires |Render(again.id)| <= Room(|nodes| - 1) && |Render(recheck.id)| <= Room(|nodes|)
    requires now == done[..|nodes| - 1] + [again, recheck] + [done[|nodes| - 1]]
    ensures Lengths(now)
  {
    hide Render, Room;
    RoomGrows(|nodes| - 1, |nodes| + 1);
    assert forall i :: 0 <= i < |nodes| - 1 ==> now[i] == done[i];
  }

  lemma NewIdsFit(nodes: seq<Node>, k: nat, j: nat, again: Node, recheck: Node)
    requires 1 <= k && |nodes| == 14 + 2 * k <= 998 && Lengths(nodes) && 3 <= j < 3 + k
    requires TwoRows(nodes, 3 + k, k, j, again, recheck)
    ensures |Render(again.id)| <= Room(|nodes| - 1) && |Render(recheck.id)| <= Room(|nodes|)
  {
    RevisionIsShort(nodes[j].id, k);
    RevisionIsShort(nodes[3 + k].id, k);
    RoomGrows(j, 3 + k);
    assert Depth(10 + 2 * k) == 1 + Depth(k) && Depth(11 + 2 * k) == 1 + Depth(k);
  }

  lemma CrewGrows(nodes: seq<Node>, now: seq<Node>, k: nat, again: Node, recheck: Node)
    requires Crew(nodes) && k < |nodes| - 1
    requires again.kind == recheck.kind == AgentStep && again.agent in {Some(1), Some(2)} && recheck.agent in {Some(1), Some(2)}
    requires var done := Marked(nodes, k, Succeeded); now == done[..|nodes| - 1] + [again, recheck] + [done[|nodes| - 1]]
    ensures Crew(now)
  {
  }

  lemma ClimbTo(s0: Run, s: Run, k: nat, top: nat) returns (t: Run)
    requires CoreInv(s0) && Reaches(s0, s) && Ladder(s, k) && k <= top <= s.maxRevisions + 1 && 14 + 2 * top <= SAVE_NODE_INDEX
    ensures Reaches(s0, t) && Ladder(t, top) && t.maxRevisions == s.maxRevisions
    decreases top - k
  {
    if k == top {
      t := s;
    } else {
      var mid := Climb(s0, s, k);
      t := ClimbTo(s0, mid, k + 1, top);
    }
  }

  // ----- the first rung -----

  const LEAD := AgentRef(0, "lead")
  const TWELVE_STEPS: seq<AgentRef> := seq(12, i => Assigned(i))

  function Assigned(i: int): AgentRef {
    if i == 0 then AgentRef(1, "copy") else AgentRef(2, "qc")
  }

  function Planned(i: nat): Node {
    Node(Step(Assigned(i).slug, i + 1), 3 + i, AgentStep, Pending, Some(Assigned(i).id), false)
  }

  /** The first i steps of the plan stand between the manager and the save node. */
  predicate PlannedSoFar(before: seq<Node>, now: seq<Node>, i: nat) {
    && i <= 12 && |before| == 4 && |now| == 4 + i
    && now[..3] == before[..3] && now[3 + i] == before[3] && forall x :: 0 <= x < i ==> now[3 + x] == Planned(x)
  }

  lemma {:induction false} AddTwelve(before: seq<Node>, now: seq<Node>, existing: set<NodeId>, i: nat)
    requires Layout(before) && PlannedSoFar(before, now, i) && forall id <- existing :: !id.Step?
    ensures PlannedSoFar(before, AddSteps(now, existing, TWELVE_STEPS, i, 3 + i), 12)
    decreases 12 - i
  {
    if i < 12 {
      var more := OnePlanned(before, now, i);
      hide InsertByIndex, PlannedSoFar, Layout;
      AddTwelve(before, more, existing, i + 1);
    }
  }

  lemma OnePlanned(before: seq<Node>, now: seq<Node>, i: nat) returns (more: seq<Node>)
    requires Layout(before) && PlannedSoFar(before, now, i) && i < 12
    ensures more == InsertByIndex(now, Planned(i)) && PlannedSoFar(before, more, i + 1)
  {
    assert forall x :: 0 <= x < 3 ==> now[x] == now[..3][x];
    forall x | 3 <= x < 3 + i ensures now[x] == Planned(x - 3) {
      assert now[3 + (x - 3)] == Planned(x - 3);
    }
    more := InsertBeforeLast(now, Planned(i));
  }

  /** A manager that proposes the twelve steps. */
  lemma ManagerPlans(s0: Run, s: Run) returns (t: Run)
    requires CoreInv(s0) && Reaches(s0, s) && InHead(s, 2) && SameRows(PlanFor(LEAD, true), s.nodes)
    ensures Reaches(s0, t) && Stage(t, 3) && Crew(t.nodes) && Lengths(t.nodes) && |t.nodes| == 16
    ensures t.revisions == s.revisions && t.maxRevisions == s.maxRevisions
  {
    t := FinishHead(s0, s, 2, Outcome(None, TWELVE_STEPS));
    CoreInvAlways(s0, t);
    var grown := TwelvePlanned(s);
    hide AfterResult, Reaches;
    PlannedRows(s.nodes, grown, t.nodes) by {
      assert CoreInv(t);
      WithStatusAt(grown, s.nodes[2].id, Succeeded);
    }
  }

  lemma TwelvePlanned(s: Run) returns (grown: seq<Node>)
    requires Layout(s.nodes) && SameRows(PlanFor(LEAD, true), s.nodes)
    ensures AfterResult(s, s.nodes[2], Outcome(None, TWELVE_STEPS)) == Revision(grown, s.revisions, s.qcExhausted)
    ensures PlannedSoFar(s.nodes, grown, 12)
  {
    NextIndexInLayout(s.nodes, 2);
    assert PlannedSoFar(s.nodes, s.nodes, 0);
    AddTwelve(s.nodes, s.nodes, Ids(s.nodes), 0);
    hide AddSteps, NextIndex, PlannedSoFar;
    grown := AddSteps(s.nodes, Ids(s.nodes), TWELVE_STEPS, 0, 3);
  }

  lemma PlannedRows(before: seq<Node>, grown: seq<Node>, now: seq<Node>)
    requires Rows(before, 2, Running) && SameRows(PlanFor(LEAD, true), before) && PlannedSoFar(before, grown, 12)
    requires now == WithStatus(grown, before[2].id, Succeeded) && UniqueIds(now) && SortedByIndex(now)
    ensures Rows(now, 3, Pending) && Crew(now) && Lengths(now) && |now| == 16
  {
    WithStatusAt(grown, before[2].id, Succeeded);
    forall i | 0 <= i < 16 ensures PlannedAt(before, grown, i) {
      assert i < 3 ==> grown[i] == grown[..3][i];
      assert 3 <= i < 15 ==> grown[3 + (i - 3)] == Planned(i - 3);
    }
    assert PlannedAt(before, grown, 2);
    WithStatusIsUpdate(grown, 2, Succeeded);
    hide WithStatus;
    PlannedLayout(before, grown, now);
    PlannedLengths(before, grown, now);
  }

  /** Row i of the plan with its twelve steps. */
  predicate PlannedAt(before: seq<Node>, grown: seq<Node>, i: nat) {
    |before| == 4 && i < |grown| == 16 && grown[i] == (if i < 3 then before[i] else if i < 15 then Planned(i - 3) else before[3])
  }

  lemma PlannedLayout(before: seq<Node>, grown: seq<Node>, now: seq<Node>)
    requires Rows(before, 2, Running) && SameRows(PlanFor(LEAD, true), before) && |grown| == 16
    requires forall i :: 0 <= i < 16 ==> PlannedAt(before, grown, i)
    requires now == Marked(grown, 2, Succeeded) && UniqueIds(now) && SortedByIndex(now)
    ensures Rows(now, 3, Pending) && Crew(now)
  {
    hide SortedByIndex, UniqueIds;
    assert forall i :: 0 <= i < 16 && i != 2 ==> now[i] == grown[i] && PlannedAt(before, grown, i);
    assert PlannedAt(before, grown, 2);
  }

  lemma PlannedLengths(before: seq<Node>, grown: seq<Node>, now: seq<Node>)
    requires SameRows(PlanFor(LEAD, true), before) && |grown| == 16
    requires forall i :: 0 <= i < 16 ==> PlannedAt(before, grown, i)
    requires now == Marked(grown, 2, Succeeded)
    ensures Lengths(now)
  {
    forall i | 0 <= i < 16 ensures |Render(now[i].id)| <= Room(i) {
      assert PlannedAt(before, grown, i) && now[i].id == grown[i].id;
      if 3 <= i < 15 {
        PlannedIdIsShort(i - 3);
      } else {
        var plan := PlanFor(LEAD, true);
        assert |Render(plan[0].id)| == 5 && |Render(plan[1].id)| == 7 && |Render(plan[2].id)| == 10 && |Render(plan[3].id)| == 4;
      }
    }
  }

  lemma PlannedIdIsShort(i: nat)
    requires i < 12
    ensures |Render(Planned(i).id)| <= 12
  {
    assert |Decimal((i + 1) / 10)| == 1;
    assert |Decimal(i + 1)| <= (if i < 9 then 1 else 2);
  }

  lemma Claimed(s0: Run) returns (t: Run)
    requires s0 == Create(LEAD, true, true, s0.maxRevisions)
    ensures Reaches(s0, t) && Stage(t, 0) && SameRows(PlanFor(LEAD, true), t.nodes)
    ensures t.revisions == 0 && t.maxRevisions == s0.maxRevisions
  {
    PlansLaidOut(LEAD, true);
    PlanIdsDiffer(LEAD, true);
    hide Layout, UniqueIds, SortedByIndex;
    ReachesItself(s0);
    ReachesNext(s0, s0, Claim);
    t := Apply(s0, Claim);
    assert t.nodes == PlanFor(LEAD, true);
  }

  /** The plan is made, and the first step passes. */
  lemma FirstRung(s0: Run) returns (t: Run)
    requires CoreInv(s0) && s0 == Create(LEAD, true, true, s0.maxRevisions)
    ensures Reaches(s0, t) && Ladder(t, 1) && t.maxRevisions == s0.maxRevisions
  {
    hide Reaches, CoreInv, Create, PlanFor, Rows;
    var s1 := ToManager(s0);
    var s2 := ManagerPlans(s0, s1);
    t := RunPlain(s0, s2, 3);
    SameCrew(s2.nodes, t.nodes);
  }

  lemma ToManager(s0: Run) returns (t: Run)
    requires s0 == Create(LEAD, true, true, s0.maxRevisions)
    ensures Reaches(s0, t) && InHead(t, 2) && SameRows(PlanFor(LEAD, true), t.nodes)
    ensures t.revisions == 0 && t.maxRevisions == s0.maxRevisions
  {
    var s1 := Claimed(s0);
    hide Reaches, Create, Rows;
    assert |s1.nodes| == 4 && forall i :: 0 <= i < 2 ==> s1.nodes[i].kind != Manager;
    hide PlanFor;
    var s2 := RunPlainTo(s0, s1, 0, 2);
    t := StartHead(s0, s2, 2);
  }

  lemma SameCrew(before: seq<Node>, now: seq<Node>)
    requires Crew(before) && Lengths(before) && SameRows(before, now)
    ensures Crew(now) && Lengths(now)
  {
  }

  // ----- behind a thousand nodes -----

  /** After 493 revisions: a re-check stands behind the save node, with the same index. */
  predicate Full(s: Run, most: nat) {
    && |s.nodes| == 1002 && s.revisions == 493 && Stage(s, 497) && Crew(s.nodes) && Short(s.nodes, most)
    && s.nodes[1001].index == SAVE_NODE_INDEX
  }

  lemma FillUp(s0: Run, s: Run) returns (t: Run)
    requires CoreInv(s0) && Reaches(s0, s) && Ladder(s, 493) && s.maxRevisions >= 493
    ensures Reaches(s0, t) && Full(t, 61) && t.maxRevisions == s.maxRevisions
  {
    hide Reaches, CoreInv, Layout, SortedByIndex, UniqueIds, WithTwo, Lengths, Rows;
    LaidOut(s.nodes, 496);
    IndexInFront(s.nodes, 496);
    CrewHasProducer(s.nodes, 496);
    var j, again, recheck;
    t, j, again, recheck := Fail(s0, s, 496);
    AllShort(s.nodes);
    FilledRows(s.nodes, t.nodes, j, again, recheck);
  }

  lemma AllShort(nodes: seq<Node>)
    requires Lengths(nodes) && |nodes| <= 1000
    ensures Short(nodes, 54)
  {
    forall i | 0 <= i < |nodes| ensures |Render(nodes[i].id)| <= 54 {
      if i >= 3 {
        DepthIsSmall(i - 3);
      }
    }
  }

  lemma FilledRows(nodes: seq<Node>, now: seq<Node>, j: nat, again: Node, recheck: Node)
    requires |nodes| == 1000 && Rows(nodes, 496, Pending) && Crew(nodes) && Short(nodes, 54)
    requires TwoRows(nodes, 496, 493, j, again, recheck)
    requires now == WithTwo(Marked(nodes, 496, Succeeded), again, recheck) && UniqueIds(now) && SortedByIndex(now)
    ensures |now| == 1002 && Rows(now, 497, Pending) && Crew(now) && Short(now, 61) && now[1001].index == SAVE_NODE_INDEX
  {
    MarkedRows(nodes, 496, Pending, Succeeded);
    hide Layout, SortedByIndex, UniqueIds, WithTwo, Crew, Short;
    LaidOut(nodes, 496);
    IndexInFront(nodes, 496);
    FailedRows(nodes, 496, again, recheck);
    TwoAcrossSave(Marked(nodes, 496, Succeeded), again, recheck);
    NewRowsFit(nodes, 496, 493, 54, j, again, recheck);
    FilledFits(nodes, Marked(nodes, 496, Succeeded), now, again, recheck);
  }

  /** With a thousand rows the first of the two goes before the save node and the second behind it. */
  lemma TwoAcrossSave(nodes: seq<Node>, again: Node, recheck: Node)
    requires Layout(nodes) && |nodes| == 1000 && again.index == 999 && recheck.index == 1000
    ensures WithTwo(nodes, again, recheck) == nodes[..999] + [again] + [nodes[999]] + [recheck]
  {
    var once := InsertBeforeLast(nodes, again);
    var twice := InsertAtEnd(once, recheck);
  }

  /** The new rows belong to the crew, and their ids are at most seven characters longer. */
  lemma NewRowsFit(nodes: seq<Node>, k: nat, revision: nat, most: nat, j: nat, again: Node, recheck: Node)
    requires Layout(nodes) && Crew(nodes) && Short(nodes, most) && TwoRows(nodes, k, revision, j, again, recheck)
    requires revision < 1000 && k >= 3 && nodes[k].kind != Save
    ensures again.agent in {Some(1), Some(2)} && recheck.agent in {Some(1), Some(2)}
    ensures |Render(again.id)| <= most + 7 && |Render(recheck.id)| <= most + 7
  {
    RevisionIsShort(nodes[j].id, revision);
    RevisionIsShort(nodes[k].id, revision);
  }

  lemma FilledFits(nodes: seq<Node>, done: seq<Node>, now: seq<Node>, again: Node, recheck: Node)
    requires |nodes| == 1000 && done == Marked(nodes, 496, Succeeded) && Crew(nodes) && Short(nodes, 54)
    requires now == done[..999] + [again] + [done[999]] + [recheck] && recheck.index == SAVE_NODE_INDEX
    requires again.kind == recheck.kind == AgentStep
    requires again.agent in {Some(1), Some(2)} && recheck.agent in {Some(1), Some(2)}
    requires |Render(again.id)| <= 61 && |Render(recheck.id)| <= 61
    ensures Crew(now) && Short(now, 61) && now[1001].index == SAVE_NODE_INDEX
  {
    hide Render;
    assert forall i :: 0 <= i < 999 ==> now[i] == done[i];
  }

  predicate LastIsHigher(nodes: seq<Node>) {
    |nodes| == 1004 && nodes[1002].index == SAVE_NODE_INDEX && nodes[1003].index == SAVE_NODE_INDEX + 1
  }

  /** After one more revision both rows stand behind the save node, the last one above it. */
  lemma Overfill(s0: Run, s: Run) returns (t: Run)
    requires CoreInv(s0) && Reaches(s0, s) && Full(s, 61) && s.maxRevisions >= 494
    ensures Reaches(s0, t) && t.maxRevisions == s.maxRevisions && t.revisions == 494
    ensures |t.nodes| == 1004 && Stage(t, 498) && Crew(t.nodes) && Short(t.nodes, 68) && LastIsHigher(t.nodes)
  {
    hide Reaches, CoreInv, Layout, SortedByIndex, UniqueIds, WithTwo, Short, Rows;
    LaidOut(s.nodes, 497);
    IndexInFront(s.nodes, 497);
    CrewHasProducer(s.nodes, 497);
    var j, again, recheck;
    t, j, again, recheck := Fail(s0, s, 497);
    OverfilledRows(s.nodes, t.nodes, j, again, recheck);
  }

  lemma OverfilledRows(nodes: seq<Node>, now: seq<Node>, j: nat, again: Node, recheck: Node)
    requires |nodes| == 1002 && Rows(nodes, 497, Pending) && Crew(nodes) && Short(nodes, 61) && nodes[1001].index == SAVE_NODE_INDEX
    requires TwoRows(nodes, 497, 494, j, again, recheck)
    requires now == WithTwo(Marked(nodes, 497, Succeeded), again, recheck) && UniqueIds(now) && SortedByIndex(now)
    ensures |now| == 1004 && Rows(now, 498, Pending) && Crew(now) && Short(now, 68) && LastIsHigher(now)
  {
    MarkedRows(nodes, 497, Pending, Succeeded);
    hide Layout, UniqueIds, WithTwo, Crew, Short;
    LaidOut(nodes, 497);
    IndexInFront(nodes, 497);
    FailedRows(nodes, 497, again, recheck);
    var done := Marked(nodes, 497, Succeeded);
    TwoAtEnd(done, again, recheck);
    NewRowsFit(nodes, 497, 494, 61, j, again, recheck);
    OverfilledFits(nodes, done, now, again, recheck);
  }

  lemma TwoAtEnd(nodes: seq<Node>, again: Node, recheck: Node)
    requires nodes != [] && SortedByIndex(nodes) && nodes[|nodes| - 1].index <= again.index <= recheck.index
    ensures WithTwo(nodes, again, recheck) == nodes + [again, recheck]
  {
    var once := InsertAtEnd(nodes, again);
    var twice := InsertAtEnd(once, recheck);
  }

  lemma OverfilledFits(nodes: seq<Node>, done: seq<Node>, now: seq<Node>, again: Node, recheck: Node)
    requires |nodes| == 1002 && done == Marked(nodes, 497, Succeeded) && Crew(nodes) && Short(nodes, 61)
    requires now == done + [again, recheck]
    requires again.kind == recheck.kind == AgentStep
    requires again.agent in {Some(1), Some(2)} && recheck.agent in {Some(1), Some(2)}
    requires |Render(again.id)| <= 68 && |Render(recheck.id)| <= 68
    ensures Crew(now) && Short(now, 68)
  {
    hide Render;
    assert forall i :: 0 <= i < 1002 ==> now[i] == done[i];
  }

  /** When that last node fails its check, the producer is queued in front of it. */
  lemma Overtake(s0: Run, s: Run) returns (t: Run)
    requires CoreInv(s0) && Reaches(s0, s) && s.maxRevisions >= 495 && s.revisions == 494
    requires |s.nodes| == 1004 && Stage(s, 498) && Crew(s.nodes) && Short(s.nodes, 68) && LastIsHigher(s.nodes)
    ensures Reaches(s0, t) && ColumnFits(t.nodes) && t.status == RunRunning && !Tidy(t.nodes)
  {
    LaidOut(s.nodes, 498);
    assert forall i :: 498 <= i < 1003 ==> s.nodes[i].kind != Manager;
    var mid := RunPlainTo(s0, s, 498, 1003);
    hide Reaches, CoreInv;
    assert Crew(mid.nodes) && Short(mid.nodes, 68) && LastIsHigher(mid.nodes);
    hide Layout, SortedByIndex, UniqueIds, WithTwo, Short, Rows;
    LaidOut(mid.nodes, 1003);
    BehindSave(mid.nodes);
    CrewHasProducer(mid.nodes, 1003);
    var j, again, recheck;
    t, j, again, recheck := Fail(s0, mid, 1003);
    OvertakenRows(mid.nodes, t.nodes, j, again, recheck);
  }

  lemma BehindSave(nodes: seq<Node>)
    requires Layout(nodes) && |nodes| == 1004
    ensures nodes[1003].kind == AgentStep
  {
  }

  lemma OvertakenRows(nodes: seq<Node>, now: seq<Node>, j: nat, again: Node, recheck: Node)
    requires |nodes| == 1004 && Rows(nodes, 1003, Pending) && Crew(nodes) && Short(nodes, 68)
    requires LastIsHigher(nodes) && TwoRows(nodes, 1003, 495, j, again, recheck)
    requires now == WithTwo(Marked(nodes, 1003, Succeeded), again, recheck)
    ensures ColumnFits(now) && !Tidy(now)
  {
    MarkedRows(nodes, 1003, Pending, Succeeded);
    hide Render, Layout, SortedByIndex, UniqueIds, Crew, WithTwo, Short;
    LaidOut(nodes, 1003);
    BehindSave(nodes);
    NewRowsFit(nodes, 1003, 495, 68, j, again, recheck);
    var done := Marked(nodes, 1003, Succeeded);
    TwoAroundLast(done, again, recheck);
    assert !Tidy(now) by {
      assert now[1003] == again && now[1004] == done[1003];
    }
    hide Rows, Tidy, TwoRows;
    StillShort(nodes, done, now, again, recheck);
  }

  lemma StillShort(nodes: seq<Node>, done: seq<Node>, now: seq<Node>, again: Node, recheck: Node)
    requires |nodes| == 1004 && done == Marked(nodes, 1003, Succeeded) && Short(nodes, 68)
    requires now == done[..1003] + [again] + [done[1003]] + [recheck]
    requires |Render(again.id)| <= 75 && |Render(recheck.id)| <= 75
    ensures ColumnFits(now)
  {
    hide Render;
    assert forall i :: 0 <= i < 1003 ==> now[i] == done[i];
  }

  lemma TwoAroundLast(nodes: seq<Node>, again: Node, recheck: Node)
    requires LastIsHigher(nodes) && SortedByIndex(nodes) && again.index == SAVE_NODE_INDEX && recheck.index == SAVE_NODE_INDEX + 1
    ensures WithTwo(nodes, again, recheck) == nodes[..1003] + [again] + [nodes[1003]] + [recheck]
  {
    var once := InsertBeforeLast(nodes, again);
    var twice := InsertAtEnd(once, recheck);
  }

  // ----- the guards are exact -----

  /** Among all runs whose ids fit the column, indices rise strictly to that of the save node. */
  ghost predicate AlwaysSaveLast(maxRevisions: int) {
    forall agent, isManager, isOrigin, s ::
      Reaches(Create(agent, isManager, isOrigin, maxRevisions), s) && ColumnFits(s.nodes) ==> SaveIsLast(s.nodes)
  }

  /** Among all runs whose ids fit the column, nodes are done in the order of their list. */
  ghost predicate AlwaysInBlocks(maxRevisions: int) {
    forall agent, isManager, isOrigin, s ::
      Reaches(Create(agent, isManager, isOrigin, maxRevisions), s) && ColumnFits(s.nodes) ==> Blocks(s, Frontier(s.nodes))
  }

  lemma Filled(maxRevisions: int) returns (t: Run)
    requires maxRevisions >= 493
    ensures CoreInv(Create(LEAD, true, true, maxRevisions)) && Reaches(Create(LEAD, true, true, maxRevisions), t)
    ensures Full(t, 61) && t.maxRevisions == maxRevisions
  {
    var s0 := Create(LEAD, true, true, maxRevisions);
    CreateEstablishesCore(LEAD, true, true, maxRevisions);
    var s1 := FirstRung(s0);
    hide CoreInv, Create, Reaches, Ladder, Full;
    var s2 := ClimbTo(s0, s1, 1, 493);
    t := FillUp(s0, s2);
  }

  lemma TooManyRevisionsCollide(maxRevisions: int) returns (t: Run)
    requires !IndexesFit(maxRevisions)
    ensures Reaches(Create(LEAD, true, true, maxRevisions), t) && ColumnFits(t.nodes) && !SaveIsLast(t.nodes)
  {
    t := Filled(maxRevisions);
    hide Reaches, CoreInv, Create;
    LaidOut(t.nodes, 497);
    assert t.nodes[1000].index == t.nodes[1001].index;
  }

  lemma TooManyRevisionsOvertake(maxRevisions: int) returns (t: Run)
    requires !StatusesFollow(maxRevisions)
    ensures Reaches(Create(LEAD, true, true, maxRevisions), t) && ColumnFits(t.nodes) && !Blocks(t, Frontier(t.nodes))
  {
    var s1 := Filled(maxRevisions);
    var s0 := Create(LEAD, true, true, maxRevisions);
    hide Reaches, CoreInv, Create, Stage, Crew, ColumnFits, Full;
    var s2 := Overfill(s0, s1);
    t := Overtake(s0, s2);
    UntidyReads(t);
  }

  lemma UntidyReads(s: Run)
    requires !Tidy(s.nodes) && s.status == RunRunning
    ensures !Blocks(s, Frontier(s.nodes))
  {
    var i, j :| 0 <= i < j < |s.nodes| && s.nodes[j].status == Succeeded && s.nodes[i].status != Succeeded;
    assert Frontier(s.nodes) <= i;
  }

  /** Node indices stay distinct with the save node on top in every reachable run if and only if
      max_revisions is at most 492. */
  lemma IndexGuardIsExact(maxRevisions: int)
    ensures AlwaysSaveLast(maxRevisions) <==> IndexesFit(maxRevisions)
  {
    if IndexesFit(maxRevisions) {
      forall agent, isManager, isOrigin, s | Reaches(Create(agent, isManager, isOrigin, maxRevisions), s)
        ensures SaveIsLast(s.nodes)
      {
        ReachableRunsAreOrdered(agent, isManager, isOrigin, maxRevisions, s);
      }
    } else {
      var t := TooManyRevisionsCollide(maxRevisions);
    }
  }

  /** Every reachable run is a block of succeeded nodes, at most one in progress and a block of pending
      ones if and only if max_revisions is at most 494. */
  lemma StatusGuardIsExact(maxRevisions: int)
    ensures AlwaysInBlocks(maxRevisions) <==> StatusesFollow(maxRevisions)
  {
    if StatusesFollow(maxRevisions) {
      forall agent, isManager, isOrigin, s | Reaches(Create(agent, isManager, isOrigin, maxRevisions), s)
        ensures Blocks(s, Frontier(s.nodes))
      {
        ReachableRunsAreOrdered(agent, isManager, isOrigin, maxRevisions, s);
      }
    } else {
      var t := TooManyRevisionsOvertake(maxRevisions);
    }
  }
}
