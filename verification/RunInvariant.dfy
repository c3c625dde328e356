/** What every commit of any actor keeps, for every value of max_revisions. */
module RunInvariant {
  import opened Options
  import opened RunStates
  import opened NodeIds
  import opened RunModel

  predicate Numbered(log: seq<Event>) {
    forall i :: 0 <= i < |log| ==> log[i].sequenceNo == i + 1
  }

  predicate UniqueIds(nodes: seq<Node>) {
    forall i, j :: 0 <= i < j < |nodes| ==> nodes[i].id != nodes[j].id
  }

  predicate SortedByIndex(nodes: seq<Node>) {
    forall i, j :: 0 <= i < j < |nodes| ==> nodes[i].index <= nodes[j].index
  }

  predicate OneSaveNode(nodes: seq<Node>) {
    forall i, j :: 0 <= i < j < |nodes| ==> nodes[i].kind != Save || nodes[j].kind != Save
  }

  function OuterRevision(id: NodeId): nat {
    if id.Rev? then id.number else 0
  }

  predicate RevisionsBounded(nodes: seq<Node>, revisions: nat) {
    forall n <- nodes :: OuterRevision(n.id) <= revisions
  }

  predicate SaveDone(nodes: seq<Node>) {
    exists n <- nodes :: n.kind == Save && n.status == Succeeded
  }

  /** Each node status is possible only while the run has a matching status. */
  predicate NodeFits(status: RunState, worker: Worker, n: Node) {
    match n.status
    case Running => status == RunRunning && (worker == Gone || (worker.InNode? && worker.node == n.id))
    case Failed => status == RunFailed
    case Skipped => status == RunCancelled
    case _ => true
  }

  predicate StatusesFit(s: Run) {
    forall i :: 0 <= i < |s.nodes| ==> NodeFits(s.status, s.worker, s.nodes[i])
  }

  predicate IsRunningNode(n: Node, id: NodeId) {
    n.id == id && n.status == Running
  }

  predicate WorkerFits(s: Run) {
    && (s.worker != Gone ==> s.status == RunRunning && s.worker.next == |s.log| + 1)
    && (s.worker.InNode? ==> exists i :: 0 <= i < |s.nodes| && IsRunningNode(s.nodes[i], s.worker.node))
    && (s.worker.Decided? ==> s.worker.choice == NextNode(s.nodes))
  }

  predicate CoreInv(s: Run) {
    && Numbered(s.log)
    && UniqueIds(s.nodes)
    && SortedByIndex(s.nodes)
    && OneSaveNode(s.nodes)
    && RevisionsBounded(s.nodes, s.revisions)
    && StatusesFit(s)
    && WorkerFits(s)
    && s.replies == (if SaveDone(s.nodes) then 1 else 0)
  }

  // ----- lookups -----

  lemma {:induction false} FindIsAt(nodes: seq<Node>, k: nat)
    requires UniqueIds(nodes) && k < |nodes|
    ensures Find(nodes, nodes[k].id) == Some(nodes[k])
  {
    if k > 0 {
      assert nodes[0].id != nodes[k].id;
      FindIsAt(nodes[1..], k - 1);
    }
  }

  lemma {:induction false} FindGives(nodes: seq<Node>, id: NodeId)
    ensures Find(nodes, id).Some? ==> Find(nodes, id).value in nodes && Find(nodes, id).value.id == id
    ensures Find(nodes, id).None? ==> forall n <- nodes :: n.id != id
  {
    if nodes != [] {
      FindGives(nodes[1..], id);
      assert nodes == [nodes[0]] + nodes[1..];
    }
  }

  lemma FindTheRunningNode(s: Run)
    requires CoreInv(s) && s.worker.InNode?
    ensures Find(s.nodes, s.worker.node).Some?
    ensures Find(s.nodes, s.worker.node).value.status == Running
    ensures Find(s.nodes, s.worker.node).value in s.nodes
    ensures Find(s.nodes, s.worker.node).value.id == s.worker.node
  {
    var k :| 0 <= k < |s.nodes| && IsRunningNode(s.nodes[k], s.worker.node);
    FindIsAt(s.nodes, k);
  }

  lemma {:induction false} NextNodeGives(nodes: seq<Node>)
    ensures NextNode(nodes).Some? ==> exists i :: 0 <= i < |nodes| && nodes[i].id == NextNode(nodes).value && Runnable(nodes[i])
    ensures NextNode(nodes).None? ==> forall i :: 0 <= i < |nodes| ==> !Runnable(nodes[i])
  {
    if nodes != [] && !Runnable(nodes[0]) {
      NextNodeGives(nodes[1..]);
      assert forall i :: 0 < i < |nodes| ==> nodes[i] == nodes[1..][i - 1];
      if NextNode(nodes).Some? {
        var i :| 0 <= i < |nodes[1..]| && nodes[1..][i].id == NextNode(nodes).value && Runnable(nodes[1..][i]);
        assert nodes[i + 1] == nodes[1..][i];
      }
    }
  }

  lemma {:induction false} FirstWaitingGives(nodes: seq<Node>)
    ensures FirstWaiting(nodes).Some? ==> exists n <- nodes :: n.id == FirstWaiting(nodes).value && n.status == Waiting
    ensures FirstWaiting(nodes).None? ==> forall n <- nodes :: n.status != Waiting
  {
    if nodes != [] && nodes[0].status != Waiting {
      FirstWaitingGives(nodes[1..]);
      assert nodes == [nodes[0]] + nodes[1..];
      if FirstWaiting(nodes).Some? {
        var n :| n in nodes[1..] && n.id == FirstWaiting(nodes).value && n.status == Waiting;
        assert n in nodes;
      }
    }
  }

  lemma {:induction false} LastSequenceIsLength(log: seq<Event>)
    requires Numbered(log)
    ensures LastSequence(log) == |log|
  {
    if log != [] {
      LastSequenceIsLength(log[..|log| - 1]);
    }
  }

  // ----- insertion -----

  /** Inserting keeps the order, keeps every row, and adds one with a fresh id. */
  lemma InsertKeeps(nodes: seq<Node>, n: Node)
    requires SortedByIndex(nodes)
    ensures SortedByIndex(InsertByIndex(nodes, n))
    ensures forall x :: x in InsertByIndex(nodes, n) <==> x in nodes || x == n
    ensures UniqueIds(nodes) && n.id !in Ids(nodes) ==> UniqueIds(InsertByIndex(nodes, n))
    ensures OneSaveNode(nodes) && n.kind != Save ==> OneSaveNode(InsertByIndex(nodes, n))
  {
    var p := Position(nodes, n.index);
    InsertMembers(nodes, n, p);
    InsertSorted(nodes, n, p);
    InsertUnique(nodes, n, p);
  }

  lemma InsertMembers(nodes: seq<Node>, n: Node, p: nat)
    requires p <= |nodes|
    ensures forall x :: x in nodes[..p] + [n] + nodes[p..] <==> x in nodes || x == n
  {
    assert nodes == nodes[..p] + nodes[p..];
  }

  lemma InsertSorted(nodes: seq<Node>, n: Node, p: nat)
    requires SortedByIndex(nodes) && p <= |nodes|
    requires p > 0 ==> nodes[p - 1].index <= n.index
    requires p < |nodes| ==> nodes[p].index > n.index
    ensures SortedByIndex(nodes[..p] + [n] + nodes[p..])
  {
    assert forall i :: 0 <= i < p ==> nodes[i].index <= n.index;
    assert forall i :: p <= i < |nodes| ==> nodes[i].index > n.index;
  }

  lemma InsertUnique(nodes: seq<Node>, n: Node, p: nat)
    requires p <= |nodes|
    ensures UniqueIds(nodes) && n.id !in Ids(nodes) ==> UniqueIds(nodes[..p] + [n] + nodes[p..])
    ensures OneSaveNode(nodes) && n.kind != Save ==> OneSaveNode(nodes[..p] + [n] + nodes[p..])
  {
    assert forall i :: 0 <= i < |nodes| ==> nodes[i].id in Ids(nodes);
  }

  /** `now` holds everything in `before`, possibly with pending agent steps added. */
  predicate GrownFrom(before: seq<Node>, now: seq<Node>) {
    && (forall x <- before :: x in now)
    && (forall x <- now :: x in before || (x.kind == AgentStep && x.status == Pending && x.id !in Ids(before)))
    && SortedByIndex(now) && UniqueIds(now) && OneSaveNode(now)
  }

  lemma InsertGrows(before: seq<Node>, now: seq<Node>, n: Node)
    requires GrownFrom(before, now)
    requires n.kind == AgentStep && n.status == Pending && n.id !in Ids(before) && n.id !in Ids(now)
    ensures GrownFrom(before, InsertByIndex(now, n))
  {
    InsertKeeps(now, n);
  }

  lemma {:induction false} AddStepsGrows(before: seq<Node>, now: seq<Node>, plan: seq<AgentRef>, i: nat, next: int)
    requires GrownFrom(before, now)
    requires forall n <- now :: n.id.Step? && n.id !in Ids(before) ==> n.id.ordinal <= i
    ensures GrownFrom(before, AddSteps(now, Ids(before), plan, i, next))
    decreases |plan| - i
  {
    if i < |plan| && i < MAX_PLAN_STEPS {
      var id := Step(plan[i].slug, i + 1);
      if id in Ids(before) {
        AddStepsGrows(before, now, plan, i + 1, next);
      } else {
        var added := Node(id, next, AgentStep, Pending, Some(plan[i].id), false);
        OneStepGrows(before, now, added, i);
        AddStepsGrows(before, InsertByIndex(now, added), plan, i + 1, next + 1);
      }
    }
  }

  lemma OneStepGrows(before: seq<Node>, now: seq<Node>, added: Node, i: nat)
    requires GrownFrom(before, now)
    requires forall n <- now :: n.id.Step? && n.id !in Ids(before) ==> n.id.ordinal <= i
    requires added.kind == AgentStep && added.status == Pending
    requires added.id.Step? && added.id.ordinal == i + 1 && added.id !in Ids(before)
    ensures GrownFrom(before, InsertByIndex(now, added))
    ensures forall n <- InsertByIndex(now, added) :: n.id.Step? && n.id !in Ids(before) ==> n.id.ordinal <= i + 1
  {
    assert added.id !in Ids(now);
    InsertGrows(before, now, added);
    InsertKeeps(now, added);
  }

  lemma {:induction false} AddStepsBounded(
      nodes: seq<Node>, existing: set<NodeId>, plan: seq<AgentRef>, i: nat, next: int, revisions: nat)
    requires SortedByIndex(nodes) && RevisionsBounded(nodes, revisions)
    ensures RevisionsBounded(AddSteps(nodes, existing, plan, i, next), revisions)
    decreases |plan| - i
  {
    hide InsertByIndex, SortedByIndex;
    if i < |plan| && i < MAX_PLAN_STEPS {
      var id := Step(plan[i].slug, i + 1);
      if id in existing {
        AddStepsBounded(nodes, existing, plan, i + 1, next, revisions);
      } else {
        var added := Node(id, next, AgentStep, Pending, Some(plan[i].id), false);
        InsertKeeps(nodes, added);
        AddStepsBounded(InsertByIndex(nodes, added), existing, plan, i + 1, next + 1, revisions);
      }
    }
  }

  lemma {:induction false} ProducerGives(nodes: seq<Node>, qc: Node)
    ensures Producer(nodes, qc).Some? ==> Producer(nodes, qc).value in nodes && IsProducer(Producer(nodes, qc).value, qc)
  {
    if nodes != [] && !IsProducer(nodes[|nodes| - 1], qc) {
      ProducerGives(nodes[..|nodes| - 1], qc);
    }
  }

  lemma InsertTwo(nodes: seq<Node>, a: Node, b: Node, revisions: nat)
    requires SortedByIndex(nodes) && UniqueIds(nodes) && OneSaveNode(nodes) && RevisionsBounded(nodes, revisions)
    requires a.kind == b.kind == AgentStep && a.status == b.status == Pending
    requires a.id.Rev? && b.id.Rev? && a.id.number == b.id.number == revisions + 1 && a.id != b.id
    ensures var now := InsertByIndex(InsertByIndex(nodes, a), b);
      GrownFrom(nodes, now) && RevisionsBounded(now, revisions + 1) && forall n <- now :: n in nodes || n.id.Rev?
  {
    assert a.id !in Ids(nodes) && b.id !in Ids(nodes);
    var once := InsertByIndex(nodes, a);
    InsertGrows(nodes, nodes, a);
    InsertKeeps(nodes, a);
    assert b.id !in Ids(once);
    InsertGrows(nodes, once, b);
    InsertKeeps(once, b);
  }

  /** All that a revision may do to the list of nodes. */
  predicate Revised(nodes: seq<Node>, r: Revision, revisions: nat) {
    && GrownFrom(nodes, r.nodes) && RevisionsBounded(r.nodes, r.revisions) && r.revisions >= revisions
    && forall n <- r.nodes :: n in nodes || n.id.Rev?
  }

  lemma NothingRevised(nodes: seq<Node>, qc: Node, revisions: nat, maxRevisions: int, qcExhausted: bool)
    requires revisions >= maxRevisions || Producer(nodes, qc).None?
    requires SortedByIndex(nodes) && UniqueIds(nodes) && OneSaveNode(nodes) && RevisionsBounded(nodes, revisions)
    ensures Revised(nodes, Revise(nodes, qc, revisions, maxRevisions, qcExhausted), revisions)
  {
  }

  lemma TwoRevised(nodes: seq<Node>, qc: Node, revisions: nat, maxRevisions: int, qcExhausted: bool)
    requires qc in nodes && qc.status == Running && revisions < maxRevisions && Producer(nodes, qc).Some?
    requires SortedByIndex(nodes) && UniqueIds(nodes) && OneSaveNode(nodes) && RevisionsBounded(nodes, revisions)
    ensures Revised(nodes, Revise(nodes, qc, revisions, maxRevisions, qcExhausted), revisions)
  {
    hide InsertByIndex, GrownFrom, RevisionsBounded, SortedByIndex;
    var producer, next := Producer(nodes, qc).value, NextIndex(nodes, qc.index);
    assert producer.id != qc.id by {
      ProducerGives(nodes, qc);
    }
    var again := Node(Rev(producer.id, revisions + 1), next, AgentStep, Pending, producer.agent, false);
    var recheck := Node(Rev(qc.id, revisions + 1), next + 1, AgentStep, Pending, qc.agent, false);
    InsertTwo(nodes, again, recheck, revisions);
  }

  lemma ReviseGrows(nodes: seq<Node>, qc: Node, revisions: nat, maxRevisions: int, qcExhausted: bool)
    requires qc in nodes && qc.status == Running
    requires SortedByIndex(nodes) && UniqueIds(nodes) && OneSaveNode(nodes) && RevisionsBounded(nodes, revisions)
    ensures Revised(nodes, Revise(nodes, qc, revisions, maxRevisions, qcExhausted), revisions)
  {
    if revisions >= maxRevisions || Producer(nodes, qc).None? {
      NothingRevised(nodes, qc, revisions, maxRevisions, qcExhausted);
    } else {
      TwoRevised(nodes, qc, revisions, maxRevisions, qcExhausted);
    }
  }

  lemma AfterResultGrows(s: Run, node: Node, outcome: Outcome)
    requires CoreInv(s) && node in s.nodes && node.status == Running
    ensures var r := AfterResult(s, node, outcome);
      GrownFrom(s.nodes, r.nodes) && RevisionsBounded(r.nodes, r.revisions) && r.revisions >= s.revisions
  {
    ReviseGrows(s.nodes, node, s.revisions, s.maxRevisions, s.qcExhausted);
    var r := if node.kind in {AgentStep, Manager} && outcome.qcPassed == Some(false)
             then Revise(s.nodes, node, s.revisions, s.maxRevisions, s.qcExhausted)
             else Revision(s.nodes, s.revisions, s.qcExhausted);
    assert forall n <- r.nodes :: n.id.Step? ==> n.id in Ids(s.nodes);
    AddStepsGrows(s.nodes, r.nodes, outcome.plan, 0, NextIndex(s.nodes, node.index));
    AddStepsBounded(r.nodes, Ids(s.nodes), outcome.plan, 0, NextIndex(s.nodes, node.index), r.revisions);
  }

  // ----- status updates -----

  /** `now` has the same rows as `before`; only statuses and answers may differ. */
  predicate SameRows(before: seq<Node>, now: seq<Node>) {
    |now| == |before| && forall i :: 0 <= i < |before| ==>
      now[i] == before[i].(status := now[i].status, answered := now[i].answered)
  }

  lemma SameRowsKeep(before: seq<Node>, now: seq<Node>, revisions: nat)
    requires SameRows(before, now)
    ensures SortedByIndex(before) ==> SortedByIndex(now)
    ensures UniqueIds(before) ==> UniqueIds(now)
    ensures OneSaveNode(before) ==> OneSaveNode(now)
    ensures RevisionsBounded(before, revisions) ==> RevisionsBounded(now, revisions)
  {
  }

  lemma SaveDoneSame(before: seq<Node>, now: seq<Node>)
    requires SameRows(before, now)
    requires forall i :: 0 <= i < |before| && before[i].kind == Save ==> (before[i].status == Succeeded <==> now[i].status == Succeeded)
    ensures SaveDone(before) == SaveDone(now)
  {
    if SaveDone(before) {
      var i :| 0 <= i < |before| && before[i].kind == Save && before[i].status == Succeeded;
      assert now[i] in now && now[i].status == Succeeded;
    }
    if SaveDone(now) {
      var i :| 0 <= i < |now| && now[i].kind == Save && now[i].status == Succeeded;
      assert before[i] in before && before[i].status == Succeeded;
    }
  }

  // ----- legality of one commit -----

  predicate RowsLegal(before: seq<Node>, now: seq<Node>) {
    && (forall n <- before :: exists m <- now :: Continues(n, m))
    && (forall m <- now :: m.id in Ids(before) || m.status == Pending)
  }

  /** Row m is what row n became: same identity, and a status change the table allows. */
  predicate Continues(n: Node, m: Node) {
    m.id == n.id && m.kind == n.kind && m.index == n.index && NodeMayBecome(n.status, m.status)
  }

  predicate StepLegal(s: Run, t: Run) {
    RunMayBecome(s.status, t.status) && RowsLegal(s.nodes, t.nodes) && s.log <= t.log
  }

  lemma SameRowsLegal(before: seq<Node>, now: seq<Node>)
    requires SameRows(before, now)
    requires forall i :: 0 <= i < |before| ==> NodeMayBecome(before[i].status, now[i].status)
    ensures RowsLegal(before, now)
  {
    forall n | n in before ensures exists m <- now :: Continues(n, m) {
      var i :| 0 <= i < |before| && before[i] == n;
      assert now[i] in now && Continues(n, now[i]);
    }
    forall m | m in now ensures m.id in Ids(before) {
      var i :| 0 <= i < |now| && now[i] == m;
      assert before[i] in before;
    }
  }

  /** A step that only changes statuses keeps the invariant if the statuses still fit. */
  lemma StatusStep(s: Run, t: Run)
    requires CoreInv(s)
    requires SameRows(s.nodes, t.nodes) && t.revisions == s.revisions && t.replies == s.replies
    requires forall i :: 0 <= i < |s.nodes| ==> NodeMayBecome(s.nodes[i].status, t.nodes[i].status)
    requires forall i :: 0 <= i < |s.nodes| && s.nodes[i].kind == Save ==> (s.nodes[i].status == Succeeded <==> t.nodes[i].status == Succeeded)
    requires RunMayBecome(s.status, t.status) && s.log <= t.log && Numbered(t.log)
    requires StatusesFit(t) && WorkerFits(t)
    ensures CoreInv(t) && StepLegal(s, t)
  {
    SameRowsKeep(s.nodes, t.nodes, s.revisions);
    SaveDoneSame(s.nodes, t.nodes);
    SameRowsLegal(s.nodes, t.nodes);
  }

  lemma WithStatusAt(nodes: seq<Node>, id: NodeId, status: NodeState)
    ensures SameRows(nodes, WithStatus(nodes, id, status))
    ensures forall i :: 0 <= i < |nodes| ==> WithStatus(nodes, id, status)[i].status == (if nodes[i].id == id then status else nodes[i].status)
  {
  }

  /** One node, found by its id, changes status; its row and all others stay. */
  lemma OneNodeMoves(s: Run, id: NodeId, k: nat, status: NodeState, nodes: seq<Node>)
    requires CoreInv(s) && k < |s.nodes| && s.nodes[k].id == id
    requires SameRows(s.nodes, nodes)
    requires forall i :: 0 <= i < |s.nodes| ==> nodes[i].status == (if s.nodes[i].id == id then status else s.nodes[i].status)
    requires NodeMayBecome(s.nodes[k].status, status) && s.nodes[k].status != Succeeded && status != Succeeded
    ensures forall i :: 0 <= i < |s.nodes| ==> NodeMayBecome(s.nodes[i].status, nodes[i].status)
    ensures forall i :: 0 <= i < |s.nodes| ==> (s.nodes[i].status == Succeeded <==> nodes[i].status == Succeeded)
    ensures forall i :: 0 <= i < |s.nodes| && i != k ==> nodes[i].status == s.nodes[i].status && nodes[i].id != id
    ensures nodes[k].status == status && nodes[k].id == id
  {
    forall i | 0 <= i < |s.nodes| && i != k ensures s.nodes[i].id != id {
    }
  }

  lemma RunningNodeAt(s: Run) returns (k: nat)
    requires CoreInv(s) && s.worker.InNode?
    ensures k < |s.nodes| && IsRunningNode(s.nodes[k], s.worker.node)
    ensures Find(s.nodes, s.worker.node) == Some(s.nodes[k])
    ensures forall i :: 0 <= i < |s.nodes| && i != k ==> s.nodes[i].status !in {Running, Failed, Skipped}
  {
    k :| 0 <= k < |s.nodes| && IsRunningNode(s.nodes[k], s.worker.node);
    FindIsAt(s.nodes, k);
    forall i | 0 <= i < |s.nodes| && i != k ensures s.nodes[i].status !in {Running, Failed, Skipped} {
      assert NodeFits(s.status, s.worker, s.nodes[i]);
    }
  }

  /** With unique ids, an update by id is an update at one position. */
  lemma WithStatusIsUpdate(nodes: seq<Node>, k: nat, status: NodeState)
    requires UniqueIds(nodes) && k < |nodes|
    ensures WithStatus(nodes, nodes[k].id, status) == nodes[k := nodes[k].(status := status)]
  {
  }

  lemma WithAnswerIsUpdate(nodes: seq<Node>, k: nat, answered: bool)
    requires UniqueIds(nodes) && k < |nodes|
    ensures WithAnswer(nodes, nodes[k].id, answered) == nodes[k := nodes[k].(answered := answered)]
  {
  }

  lemma UpdateKeepsIds(nodes: seq<Node>, k: nat, n: Node)
    requires UniqueIds(nodes) && k < |nodes| && n.id == nodes[k].id
    ensures UniqueIds(nodes[k := n])
  {
  }

  lemma ChosenNodeAt(s: Run) returns (k: nat)
    requires CoreInv(s) && s.worker.Decided? && s.worker.choice.Some?
    ensures k < |s.nodes| && s.nodes[k].id == s.worker.choice.value && Runnable(s.nodes[k])
    ensures Find(s.nodes, s.worker.choice.value) == Some(s.nodes[k])
  {
    NextNodeGives(s.nodes);
    k :| 0 <= k < |s.nodes| && s.nodes[k].id == s.worker.choice.value && Runnable(s.nodes[k]);
    FindIsAt(s.nodes, k);
  }

  lemma StartNodeKeeps(s: Run)
    requires CoreInv(s) && Enabled(s, StartNode)
    ensures CoreInv(Apply(s, StartNode)) && StepLegal(s, Apply(s, StartNode))
  {
    hide SortedByIndex, OneSaveNode, RevisionsBounded, RowsLegal, SaveDone;
    var t := Apply(s, StartNode);
    var id := s.worker.choice.value;
    var k := ChosenNodeAt(s);
    WithStatusAt(s.nodes, id, Running);
    OneNodeMoves(s, id, k, Running, t.nodes);
    assert IsRunningNode(t.nodes[k], id);
    assert t.status == s.status && t.worker == InNode(s.worker.next + 1, id);
    forall i | 0 <= i < |t.nodes| ensures NodeFits(t.status, t.worker, t.nodes[i]) {
      assert NodeFits(s.status, s.worker, s.nodes[i]);
    }
    StatusStep(s, t);
  }

  lemma PauseKeeps(s: Run)
    requires CoreInv(s) && Enabled(s, Pause)
    ensures CoreInv(Apply(s, Pause)) && StepLegal(s, Apply(s, Pause))
  {
    hide SortedByIndex, OneSaveNode, RevisionsBounded, RowsLegal, SaveDone;
    var k := RunningNodeAt(s);
    var t := Apply(s, Pause);
    WithStatusAt(s.nodes, s.worker.node, Waiting);
    OneNodeMoves(s, s.worker.node, k, Waiting, t.nodes);
    StatusStep(s, t);
  }

  lemma FailNodeKeeps(s: Run)
    requires CoreInv(s) && Enabled(s, FailNode)
    ensures CoreInv(Apply(s, FailNode)) && StepLegal(s, Apply(s, FailNode))
  {
    hide SortedByIndex, OneSaveNode, RevisionsBounded, RowsLegal, SaveDone;
    var k := RunningNodeAt(s);
    var t := Apply(s, FailNode);
    WithStatusAt(s.nodes, s.worker.node, Failed);
    OneNodeMoves(s, s.worker.node, k, Failed, t.nodes);
    StatusStep(s, t);
  }

  lemma FinishNodeKeeps(s: Run, outcome: Outcome)
    requires CoreInv(s) && Enabled(s, FinishNode(outcome))
    ensures CoreInv(Apply(s, FinishNode(outcome))) && StepLegal(s, Apply(s, FinishNode(outcome)))
  {
    hide SortedByIndex, OneSaveNode, RevisionsBounded, RowsLegal, SaveDone, UniqueIds, AfterResult, WithStatus,
      StatusesFit, SameRows, NoneOpen;
    var k := RunningNodeAt(s);
    var t := Apply(s, FinishNode(outcome));
    var node := s.nodes[k];
    AfterResultGrows(s, node, outcome);
    var grown := AfterResult(s, node, outcome).nodes;
    assert t.nodes == WithStatus(grown, node.id, Succeeded);
    SucceededKeeps(grown, node.id, t.revisions);
    FinishedRowsLegal(s.nodes, grown, node);
    FinishedReplies(s.nodes, grown, node);
    FinishedStatusesFit(s, grown, k);
    FinishedFits(t);
  }

  predicate NoneOpen(nodes: seq<Node>) {
    forall i :: 0 <= i < |nodes| ==> nodes[i].status !in {Running, Failed, Skipped}
  }

  lemma SucceededKeeps(grown: seq<Node>, id: NodeId, revisions: nat)
    ensures var now := WithStatus(grown, id, Succeeded);
      && (SortedByIndex(grown) ==> SortedByIndex(now)) && (UniqueIds(grown) ==> UniqueIds(now))
      && (OneSaveNode(grown) ==> OneSaveNode(now)) && (RevisionsBounded(grown, revisions) ==> RevisionsBounded(now, revisions))
  {
    hide SortedByIndex, OneSaveNode, RevisionsBounded, UniqueIds;
    WithStatusAt(grown, id, Succeeded);
    SameRowsKeep(grown, WithStatus(grown, id, Succeeded), revisions);
  }

  lemma FinishedFits(t: Run)
    requires t.worker.AtTop? && t.status == RunRunning && t.worker.next == |t.log| + 1
    requires NoneOpen(t.nodes)
    ensures StatusesFit(t) && WorkerFits(t)
  {
  }

  lemma FinishedStatusesFit(s: Run, grown: seq<Node>, k: nat)
    requires CoreInv(s) && s.worker.InNode? && k < |s.nodes| && IsRunningNode(s.nodes[k], s.worker.node)
    requires GrownFrom(s.nodes, grown)
    ensures NoneOpen(WithStatus(grown, s.worker.node, Succeeded))
  {
    forall i | 0 <= i < |grown| ensures WithStatus(grown, s.worker.node, Succeeded)[i].status !in {Running, Failed, Skipped} {
      assert grown[i] in grown;
      if grown[i] in s.nodes {
        var j :| 0 <= j < |s.nodes| && s.nodes[j] == grown[i];
        assert NodeFits(s.status, s.worker, s.nodes[j]);
      }
    }
  }

  lemma FinishedRowsLegal(before: seq<Node>, grown: seq<Node>, node: Node)
    requires GrownFrom(before, grown) && node in before && node.status == Running && UniqueIds(before)
    ensures RowsLegal(before, WithStatus(grown, node.id, Succeeded))
  {
    var now := WithStatus(grown, node.id, Succeeded);
    forall n | n in before ensures exists m <- now :: Continues(n, m) {
      var i :| 0 <= i < |grown| && grown[i] == n;
      assert n.id == node.id ==> n == node;
      assert now[i] in now && Continues(n, now[i]);
    }
    forall m | m in now ensures m.id in Ids(before) || m.status == Pending {
      var i :| 0 <= i < |now| && now[i] == m;
      assert grown[i] in grown;
    }
  }

  /** The reply count follows the save node, which no revision or plan adds or removes. */
  lemma FinishedReplies(before: seq<Node>, grown: seq<Node>, node: Node)
    requires GrownFrom(before, grown) && node in before && node.status == Running
    requires UniqueIds(before) && OneSaveNode(before)
    ensures SaveDone(WithStatus(grown, node.id, Succeeded)) <==> SaveDone(before) || node.kind == Save
    ensures node.kind == Save ==> !SaveDone(before)
  {
    var now := WithStatus(grown, node.id, Succeeded);
    if SaveDone(before) {
      var n :| n in before && n.kind == Save && n.status == Succeeded;
      var i :| 0 <= i < |grown| && grown[i] == n;
      assert now[i] in now;
    }
    if node.kind == Save {
      var i :| 0 <= i < |grown| && grown[i] == node;
      assert now[i] in now && now[i].kind == Save && now[i].status == Succeeded;
    }
    if SaveDone(now) {
      var i :| 0 <= i < |now| && now[i].kind == Save && now[i].status == Succeeded;
      assert grown[i] in before;
      assert grown[i].id == node.id ==> grown[i] == node;
    }
  }

  lemma {:induction false} ReapEventsNumbered(nodes: seq<Node>, next: nat)
    ensures forall i :: 0 <= i < |ReapEvents(nodes, next)| ==> ReapEvents(nodes, next)[i].sequenceNo == next + i
  {
    if nodes != [] {
      ReapEventsNumbered(nodes[1..], next);
      ReapEventsNumbered(nodes[1..], next + 1);
    }
  }

  lemma FailRunningRows(nodes: seq<Node>)
    ensures SameRows(nodes, FailRunning(nodes))
    ensures forall i :: 0 <= i < |nodes| ==> NodeMayBecome(nodes[i].status, FailRunning(nodes)[i].status)
    ensures forall i :: 0 <= i < |nodes| ==> (nodes[i].status == Succeeded <==> FailRunning(nodes)[i].status == Succeeded)
  {
  }

  lemma FailRunningFits(s: Run, t: Run)
    requires StatusesFit(s) && s.status == RunRunning
    requires t.nodes == FailRunning(s.nodes) && t.status == RunFailed
    ensures StatusesFit(t)
  {
    forall i | 0 <= i < |t.nodes| ensures NodeFits(t.status, t.worker, t.nodes[i]) {
      assert NodeFits(s.status, s.worker, s.nodes[i]);
    }
  }

  lemma ReapKeeps(s: Run, a: Action)
    requires a == Reap || a == RecoverStale
    requires CoreInv(s) && Enabled(s, a)
    ensures CoreInv(Apply(s, a)) && StepLegal(s, Apply(s, a))
  {
    hide SortedByIndex, OneSaveNode, RevisionsBounded, RowsLegal, SaveDone;
    LastSequenceIsLength(s.log);
    ReapEventsNumbered(s.nodes, |s.log| + 1);
    FailRunningRows(s.nodes);
    FailRunningFits(s, Apply(s, a));
    StatusStep(s, Apply(s, a));
  }

  lemma SkipOpenRows(nodes: seq<Node>)
    ensures SameRows(nodes, SkipOpen(nodes))
    ensures forall i :: 0 <= i < |nodes| ==> NodeMayBecome(nodes[i].status, SkipOpen(nodes)[i].status)
    ensures forall i :: 0 <= i < |nodes| ==> (nodes[i].status == Succeeded <==> SkipOpen(nodes)[i].status == Succeeded)
  {
  }

  lemma SkipOpenFits(s: Run, t: Run)
    requires StatusesFit(s) && (s.status in {RunQueued, RunWaiting} || (s.status == RunRunning && s.worker.AtTop?))
    requires t.nodes == SkipOpen(s.nodes) && t.status == RunCancelled
    ensures StatusesFit(t)
  {
    forall i | 0 <= i < |t.nodes| ensures NodeFits(t.status, t.worker, t.nodes[i]) {
      assert NodeFits(s.status, s.worker, s.nodes[i]);
    }
  }

  lemma ObserveCancelKeeps(s: Run)
    requires CoreInv(s) && Enabled(s, ObserveCancel)
    ensures CoreInv(Apply(s, ObserveCancel)) && StepLegal(s, Apply(s, ObserveCancel))
  {
    hide SortedByIndex, OneSaveNode, RevisionsBounded, RowsLegal, SaveDone;
    SkipOpenRows(s.nodes);
    SkipOpenFits(s, Apply(s, ObserveCancel));
    StatusStep(s, Apply(s, ObserveCancel));
  }

  lemma RequestCancelKeeps(s: Run)
    requires CoreInv(s) && Enabled(s, RequestCancel)
    ensures CoreInv(Apply(s, RequestCancel)) && StepLegal(s, Apply(s, RequestCancel))
  {
    hide SortedByIndex, OneSaveNode, RevisionsBounded, RowsLegal, SaveDone;
    if s.status in {RunQueued, RunWaiting} {
      LastSequenceIsLength(s.log);
      SkipOpenRows(s.nodes);
      SkipOpenFits(s, Apply(s, RequestCancel));
    }
    StatusStep(s, Apply(s, RequestCancel));
  }

  lemma ClaimKeeps(s: Run)
    requires CoreInv(s) && Enabled(s, Claim)
    ensures CoreInv(Apply(s, Claim)) && StepLegal(s, Apply(s, Claim))
  {
    hide SortedByIndex, OneSaveNode, RevisionsBounded, RowsLegal, SaveDone;
    LastSequenceIsLength(s.log);
    StatusStep(s, Apply(s, Claim));
  }

  lemma AnswerKeeps(s: Run)
    requires CoreInv(s) && Enabled(s, AnswerClarification)
    ensures CoreInv(Apply(s, AnswerClarification)) && StepLegal(s, Apply(s, AnswerClarification))
  {
    hide SortedByIndex, OneSaveNode, RevisionsBounded, RowsLegal, SaveDone;
    LastSequenceIsLength(s.log);
    StatusStep(s, Apply(s, AnswerClarification));
  }

  lemma RetryKeeps(s: Run)
    requires CoreInv(s) && Enabled(s, Retry)
    ensures CoreInv(Apply(s, Retry)) && StepLegal(s, Apply(s, Retry))
  {
    hide SortedByIndex, OneSaveNode, RevisionsBounded, RowsLegal, SaveDone;
    StatusStep(s, Apply(s, Retry));
  }

  lemma QuietStepKeeps(s: Run, a: Action)
    requires a in {ChooseNext, Complete, Crash} || a.Progress?
    requires CoreInv(s) && Enabled(s, a)
    ensures CoreInv(Apply(s, a)) && StepLegal(s, Apply(s, a))
  {
    hide SortedByIndex, OneSaveNode, RevisionsBounded, RowsLegal, SaveDone;
    StatusStep(s, Apply(s, a));
  }

  /** Every commit by any actor keeps the invariant, changes statuses only along the transition
      tables (although the executor and the recovery paths never consult them), never drops a
      node, adds only pending ones and only appends to the log. */
  lemma StepKeepsCore(s: Run, a: Action)
    requires CoreInv(s) && Enabled(s, a)
    ensures CoreInv(Apply(s, a)) && StepLegal(s, Apply(s, a))
  {
    match a
    case StartNode => StartNodeKeeps(s);
    case Pause => PauseKeeps(s);
    case FailNode => FailNodeKeeps(s);
    case FinishNode(outcome) => FinishNodeKeeps(s, outcome);
    case Reap => ReapKeeps(s, a);
    case RecoverStale => ReapKeeps(s, a);
    case ObserveCancel => ObserveCancelKeeps(s);
    case RequestCancel => RequestCancelKeeps(s);
    case Claim => ClaimKeeps(s);
    case AnswerClarification => AnswerKeeps(s);
    case Retry => RetryKeeps(s);
    case _ => QuietStepKeeps(s, a);
  }

  lemma {:induction false} CoreInvAlong(s0: Run, actions: seq<Action>)
    requires CoreInv(s0) && Replay(s0, actions).Some?
    ensures CoreInv(Replay(s0, actions).value)
  {
    if actions != [] {
      CoreInvAlong(s0, actions[..|actions| - 1]);
      StepKeepsCore(Replay(s0, actions[..|actions| - 1]).value, actions[|actions| - 1]);
    }
  }

  /** The invariant holds in every state any interleaving of commits can reach. */
  lemma CoreInvAlways(s0: Run, s: Run)
    requires CoreInv(s0) && Reaches(s0, s)
    ensures CoreInv(s)
  {
    var actions :| Replay(s0, actions) == Some(s);
    CoreInvAlong(s0, actions);
  }

  lemma AllPendingFits(s: Run)
    requires forall i :: 0 <= i < |s.nodes| ==> s.nodes[i].status == Pending && OuterRevision(s.nodes[i].id) == 0
    ensures StatusesFit(s) && RevisionsBounded(s.nodes, s.revisions) && !SaveDone(s.nodes)
  {
  }

  lemma PlansArePending(agent: AgentRef, isManager: bool)
    ensures forall n <- PlanFor(agent, isManager) :: n.status == Pending && OuterRevision(n.id) == 0
    ensures forall n <- PlanForExisting(agent) :: n.status == Pending && OuterRevision(n.id) == 0
    ensures OneSaveNode(PlanFor(agent, isManager)) && OneSaveNode(PlanForExisting(agent))
  {
  }

  lemma CreateEstablishesCore(agent: AgentRef, isManager: bool, isOrigin: bool, maxRevisions: int)
    ensures CoreInv(Create(agent, isManager, isOrigin, maxRevisions))
  {
    hide PlanFor, PlanForExisting, StatusesFit, SortedByIndex, UniqueIds, OneSaveNode, RevisionsBounded, SaveDone, OuterRevision;
    PlanIdsDiffer(agent, isManager);
    PlansArePending(agent, isManager);
    AllPendingFits(Create(agent, isManager, isOrigin, maxRevisions));
  }

  lemma PlanIdsDiffer(agent: AgentRef, isManager: bool)
    ensures UniqueIds(PlanFor(agent, isManager)) && SortedByIndex(PlanFor(agent, isManager))
    ensures UniqueIds(PlanForExisting(agent)) && SortedByIndex(PlanForExisting(agent))
  {
    assert "parse" != "context" && "parse" != "save" && "context" != "save";
    assert "request"[0] != "context"[0] && "files" != "context";
  }

  // ----- the node ids as strings -----

  predicate PlainSlugs(a: Action) {
    a.FinishNode? ==> forall r <- a.outcome.plan :: ':' !in r.slug
  }

  predicate IdsWellFormed(nodes: seq<Node>) {
    forall n <- nodes :: WellFormed(n.id)
  }

  lemma {:induction false} AddStepsWellFormed(nodes: seq<Node>, existing: set<NodeId>, plan: seq<AgentRef>, i: nat, next: int)
    requires SortedByIndex(nodes) && IdsWellFormed(nodes) && forall r <- plan :: ':' !in r.slug
    ensures IdsWellFormed(AddSteps(nodes, existing, plan, i, next))
    decreases |plan| - i
  {
    if i < |plan| && i < MAX_PLAN_STEPS {
      var id := Step(plan[i].slug, i + 1);
      if id in existing {
        AddStepsWellFormed(nodes, existing, plan, i + 1, next);
      } else {
        var added := Node(id, next, AgentStep, Pending, Some(plan[i].id), false);
        InsertKeeps(nodes, added);
        AddStepsWellFormed(InsertByIndex(nodes, added), existing, plan, i + 1, next + 1);
      }
    }
  }

  lemma InsertWellFormed(nodes: seq<Node>, n: Node)
    requires SortedByIndex(nodes) && IdsWellFormed(nodes) && WellFormed(n.id)
    ensures IdsWellFormed(InsertByIndex(nodes, n)) && SortedByIndex(InsertByIndex(nodes, n))
  {
    InsertKeeps(nodes, n);
  }

  lemma ReviseWellFormed(nodes: seq<Node>, qc: Node, revisions: nat, maxRevisions: int, qcExhausted: bool)
    requires SortedByIndex(nodes) && IdsWellFormed(nodes) && qc in nodes
    ensures IdsWellFormed(Revise(nodes, qc, revisions, maxRevisions, qcExhausted).nodes)
  {
    if revisions < maxRevisions && Producer(nodes, qc).Some? {
      ProducerGives(nodes, qc);
      var producer := Producer(nodes, qc).value;
      var next := NextIndex(nodes, qc.index);
      var again := Node(Rev(producer.id, revisions + 1), next, AgentStep, Pending, producer.agent, false);
      var recheck := Node(Rev(qc.id, revisions + 1), next + 1, AgentStep, Pending, qc.agent, false);
      InsertWellFormed(nodes, again);
      InsertWellFormed(InsertByIndex(nodes, again), recheck);
    } else {
      assert Revise(nodes, qc, revisions, maxRevisions, qcExhausted).nodes == nodes;
    }
  }

  lemma AfterResultWellFormed(s: Run, node: Node, outcome: Outcome)
    requires CoreInv(s) && node in s.nodes && node.status == Running
    requires IdsWellFormed(s.nodes) && forall r <- outcome.plan :: ':' !in r.slug
    ensures IdsWellFormed(AfterResult(s, node, outcome).nodes)
  {
    ReviseWellFormed(s.nodes, node, s.revisions, s.maxRevisions, s.qcExhausted);
    assert SortedByIndex(Revise(s.nodes, node, s.revisions, s.maxRevisions, s.qcExhausted).nodes) by {
      ReviseGrows(s.nodes, node, s.revisions, s.maxRevisions, s.qcExhausted);
    }
    var r := if node.kind in {AgentStep, Manager} && outcome.qcPassed == Some(false)
             then Revise(s.nodes, node, s.revisions, s.maxRevisions, s.qcExhausted)
             else Revision(s.nodes, s.revisions, s.qcExhausted);
    AddStepsWellFormed(r.nodes, Ids(s.nodes), outcome.plan, 0, NextIndex(s.nodes, node.index));
  }

  lemma StepKeepsWellFormed(s: Run, a: Action)
    requires CoreInv(s) && Enabled(s, a) && PlainSlugs(a) && IdsWellFormed(s.nodes)
    ensures IdsWellFormed(Apply(s, a).nodes)
  {
    if a.FinishNode? {
      FindTheRunningNode(s);
      var node := Find(s.nodes, s.worker.node).value;
      AfterResultWellFormed(s, node, a.outcome);
      SameIdsWellFormed(AfterResult(s, node, a.outcome).nodes, Apply(s, a).nodes);
    } else {
      SameIdsWellFormed(s.nodes, Apply(s, a).nodes);
    }
  }

  lemma SameIdsWellFormed(before: seq<Node>, now: seq<Node>)
    requires |before| == |now| && forall i :: 0 <= i < |now| ==> now[i].id == before[i].id
    ensures IdsWellFormed(before) ==> IdsWellFormed(now)
  {
    if IdsWellFormed(before) {
      forall n | n in now ensures WellFormed(n.id) {
        var i :| 0 <= i < |now| && now[i] == n;
        assert before[i] in before;
      }
    }
  }

  lemma {:induction false} IdsWellFormedAlways(s0: Run, actions: seq<Action>)
    requires CoreInv(s0) && IdsWellFormed(s0.nodes) && forall a <- actions :: PlainSlugs(a)
    requires Replay(s0, actions).Some?
    ensures IdsWellFormed(Replay(s0, actions).value.nodes)
  {
    if actions != [] {
      var front, last := actions[..|actions| - 1], actions[|actions| - 1];
      IdsWellFormedAlways(s0, front);
      CoreInvAlong(s0, front);
      assert last in actions;
      StepKeepsWellFormed(Replay(s0, front).value, last);
    }
  }

  lemma CreateIdsWellFormed(agent: AgentRef, isManager: bool, isOrigin: bool, maxRevisions: int)
    requires ':' !in agent.slug
    ensures IdsWellFormed(Create(agent, isManager, isOrigin, maxRevisions).nodes)
  {
  }

  /** The id strings stored in the database stay unique in every reachable state, as the unique
      constraint on (run, node id) demands, for agents whose slugs came from slugify. */
  lemma NodeIdStringsUnique(agent: AgentRef, isManager: bool, isOrigin: bool, maxRevisions: int, actions: seq<Action>, i: nat, j: nat)
    requires ':' !in agent.slug && forall a <- actions :: PlainSlugs(a)
    requires Replay(Create(agent, isManager, isOrigin, maxRevisions), actions).Some?
    requires i < j < |Replay(Create(agent, isManager, isOrigin, maxRevisions), actions).value.nodes|
    ensures var nodes := Replay(Create(agent, isManager, isOrigin, maxRevisions), actions).value.nodes;
      Render(nodes[i].id) != Render(nodes[j].id)
  {
    hide SortedByIndex, OneSaveNode, RevisionsBounded, SaveDone, StatusesFit, WorkerFits, Replay, Create, Render, WellFormed;
    var s0 := Create(agent, isManager, isOrigin, maxRevisions);
    var nodes := Replay(s0, actions).value.nodes;
    CreateEstablishesCore(agent, isManager, isOrigin, maxRevisions);
    CreateIdsWellFormed(agent, isManager, isOrigin, maxRevisions);
    CoreInvAlong(s0, actions);
    IdsWellFormedAlways(s0, actions);
    if Render(nodes[i].id) == Render(nodes[j].id) {
      RenderInjective(nodes[i].id, nodes[j].id);
    }
  }
}
