/** The folded event log against the stored run. */
module TimelineAgreement {
  import opened Options
  import opened RunStates
  import opened NodeIds
  import opened RunModel
  import opened RunInvariant
  import opened RunSteps
  import opened RunHead
  import opened RunOrder
  import opened Timelines

  /** The statuses the fold can show for a stored node. It misses a node's failure when recovery writes
      no event for it, a retry always, and the cancellation of a node whose answer came or whose failure
      is to be retried. */
  predicate ShownAs(n: Node, status: NodeState) {
    match n.status
    case Succeeded => status == Succeeded
    case Running => status == Running
    case Waiting => status == (if n.answered then Running else Waiting)
    case Failed => status in {Failed, Running}
    case Pending => status in {Failed, Running}
    case Skipped => status in {Skipped, Failed, Running}
  }

  /** What the fold knows of one stored node: nothing before it first starts; afterwards its index and
      one of those statuses. */
  predicate NodeMirrors(n: Node, shown: map<NodeId, TimelineNode>) {
    if n.id in shown then shown[n.id].index == n.index && ShownAs(n, shown[n.id].status)
    else n.status in {Pending, Skipped}
  }

  predicate NodesMirror(nodes: seq<Node>, shown: map<NodeId, TimelineNode>) {
    && (forall i :: 0 <= i < |nodes| ==> NodeMirrors(nodes[i], shown))
    && shown.Keys <= Ids(nodes)
  }

  predicate Unanswered(n: Node, id: NodeId) {
    n.id == id && n.status == Waiting && !n.answered
  }

  predicate QuestionMirrors(s: Run, f: Fold) {
    match f.pendingQuestion
    case None => s.status != RunWaiting
    case Some(id) =>
      s.status == RunCancelled || (s.status == RunWaiting && exists i :: 0 <= i < |s.nodes| && Unanswered(s.nodes[i], id))
  }

  /** The question shown is the one the waiting node asked; the terminal flag, which is never
      reset, tells whether the run ever ended. */
  predicate FlagsMirror(s: Run, f: Fold) {
    && QuestionMirrors(s, f)
    && s.attempt >= 1
    && (f.terminal <==> (s.attempt > 1 || IsTerminal(s.status)))
    && f.lastSequence == |s.log|
  }

  predicate Mirrors(s: Run) {
    var f := FoldLog(s.log);
    NodesMirror(s.nodes, f.nodes) && FlagsMirror(s, f)
  }

  // ----- one event at a time -----

  lemma MarkNodes(f: Fold, id: NodeId, index: Option<int>, status: NodeState)
    ensures Mark(f, id, index, status).nodes.Keys == f.nodes.Keys + {id}
    ensures forall other :: other in f.nodes && other != id ==> Mark(f, id, index, status).nodes[other] == f.nodes[other]
    ensures Mark(f, id, index, status).nodes[id].status == status
    ensures id in f.nodes ==> Mark(f, id, index, status).nodes[id].index == f.nodes[id].index
    ensures id !in f.nodes && index.Some? ==> Mark(f, id, index, status).nodes[id].index == index.value
  {
  }

  /** One row changes and the fold marks the same node. */
  lemma MarkMirrors(nodes: seq<Node>, k: nat, n: Node, f: Fold, index: Option<int>, status: NodeState)
    requires UniqueIds(nodes) && k < |nodes| && n.id == nodes[k].id && n.index == nodes[k].index
    requires NodesMirror(nodes, f.nodes)
    requires nodes[k].id in f.nodes || index == Some(nodes[k].index)
    requires ShownAs(n, status)
    ensures NodesMirror(nodes[k := n], Mark(f, nodes[k].id, index, status).nodes)
  {
    var g := Mark(f, nodes[k].id, index, status);
    var now := nodes[k := n];
    MarkNodes(f, nodes[k].id, index, status);
    assert NodeMirrors(nodes[k], f.nodes);
    forall i | 0 <= i < |now| ensures NodeMirrors(now[i], g.nodes) {
      assert NodeMirrors(nodes[i], f.nodes);
      assert i != k ==> nodes[i].id != nodes[k].id;
    }
    UpdateIds(nodes, k, n);
  }

  lemma UpdateIds(nodes: seq<Node>, k: nat, n: Node)
    requires k < |nodes| && n.id == nodes[k].id
    ensures Ids(nodes[k := n]) == Ids(nodes) && nodes[k].id in Ids(nodes)
  {
    var now := nodes[k := n];
    SameIds(nodes, now);
    assert nodes[k] in nodes;
  }

  lemma SameIds(before: seq<Node>, now: seq<Node>)
    requires |before| == |now| && forall i :: 0 <= i < |now| ==> now[i].id == before[i].id
    ensures Ids(now) == Ids(before)
  {
    forall n | n in before ensures n.id in Ids(now) {
      var i :| 0 <= i < |before| && before[i] == n;
      assert now[i] in now;
    }
    forall n | n in now ensures n.id in Ids(before) {
      var i :| 0 <= i < |now| && now[i] == n;
      assert before[i] in before;
    }
  }

  /** Where the fold showed n as x, it may show m as y. */
  predicate Follows(n: Node, m: Node, x: TimelineNode, y: TimelineNode) {
    y.index == x.index && (ShownAs(n, x.status) ==> ShownAs(m, y.status))
  }

  /** A row's change that needs no event, or comes with an event that changes what is shown with it. */
  predicate Quiet(n: Node, m: Node, shown: map<NodeId, TimelineNode>, later: map<NodeId, TimelineNode>) {
    && m.id == n.id && m.index == n.index
    && (n.id in shown && n.id in later ==> Follows(n, m, shown[n.id], later[n.id]))
    && (n.status in {Pending, Skipped} ==> m.status in {Pending, Skipped})
  }

  lemma QuietMirrors(before: seq<Node>, now: seq<Node>, shown: map<NodeId, TimelineNode>, later: map<NodeId, TimelineNode>)
    requires |now| == |before| && NodesMirror(before, shown) && later.Keys == shown.Keys
    requires forall i :: 0 <= i < |before| ==> Quiet(before[i], now[i], shown, later)
    ensures NodesMirror(now, later)
  {
    SameIds(before, now);
    forall i | 0 <= i < |now| ensures NodeMirrors(now[i], later) {
      assert NodeMirrors(before[i], shown) && Quiet(before[i], now[i], shown, later);
    }
  }

  // ----- the steps -----

  lemma MirrorStart(s: Run)
    requires CoreInv(s) && Mirrors(s) && Enabled(s, StartNode)
    ensures Mirrors(Apply(s, StartNode))
  {
    var k := StartShape(s);
    StartMirrors(s, Apply(s, StartNode), k, NodeEvent(|s.log| + 1, NodeStarted, s.nodes[k]));
  }

  lemma StartMirrors(s: Run, t: Run, k: nat, e: Event)
    requires Mirrors(s) && UniqueIds(s.nodes) && k < |s.nodes| && s.status == t.status == RunRunning && t.attempt == s.attempt
    requires t.nodes == s.nodes[k := s.nodes[k].(status := Running)]
    requires t.log == s.log + [e] && e == NodeEvent(|s.log| + 1, NodeStarted, s.nodes[k])
    ensures Mirrors(t)
  {
    hide FoldLog, Absorb, Mark, NodeMirrors, NodesMirror, UniqueIds, Unanswered;
    var f := FoldLog(s.log);
    FoldAppend(s.log, e);
    AbsorbRow(f, e, Running);
    MarkMirrors(s.nodes, k, s.nodes[k].(status := Running), f, e.nodeIndex, Running);
  }

  lemma NodeAt(nodes: seq<Node>, k: nat, shown: map<NodeId, TimelineNode>)
    requires NodesMirror(nodes, shown) && k < |nodes|
    ensures NodeMirrors(nodes[k], shown)
  {
  }

  lemma AskMirrors(s: Run, t: Run, k: nat, e: Event)
    requires Mirrors(s) && UniqueIds(s.nodes) && k < |s.nodes| && s.status == RunRunning && t.attempt == s.attempt
    requires s.nodes[k].status == Running && t.status == RunWaiting
    requires t.nodes == s.nodes[k := s.nodes[k].(status := Waiting, answered := false)]
    requires t.log == s.log + [e] && e == Event(|s.log| + 1, ClarificationRequested, Some(s.nodes[k].id), None)
    ensures Mirrors(t)
  {
    hide FoldLog, Absorb, Mark, NodeMirrors, NodesMirror, UniqueIds;
    var f := FoldLog(s.log);
    NodeAt(s.nodes, k, f.nodes);
    FoldAppend(s.log, e);
    AbsorbRow(f, e, Waiting);
    MarkMirrors(s.nodes, k, s.nodes[k].(status := Waiting, answered := false), f, None, Waiting);
    assert Unanswered(t.nodes[k], s.nodes[k].id);
  }

  lemma AnswerMirrors(s: Run, t: Run, k: nat, e: Event)
    requires Mirrors(s) && UniqueIds(s.nodes) && k < |s.nodes| && s.status == RunWaiting && t.attempt == s.attempt
    requires s.nodes[k].status == Waiting && t.status == RunQueued
    requires t.nodes == s.nodes[k := s.nodes[k].(answered := true)]
    requires t.log == s.log + [e] && e == Event(|s.log| + 1, ClarificationReceived, Some(s.nodes[k].id), None)
    ensures Mirrors(t)
  {
    var f := FoldLog(s.log);
    assert NodeMirrors(s.nodes[k], f.nodes);
    hide FoldLog, Absorb, Mark, NodeMirrors, NodesMirror, UniqueIds, Unanswered;
    FoldAppend(s.log, e);
    AbsorbRow(f, e, Running);
    MarkMirrors(s.nodes, k, s.nodes[k].(answered := true), f, None, Running);
  }

  lemma AbsorbRow(f: Fold, e: Event, status: NodeState)
    requires e.nodeId.Some? && e.sequenceNo > f.lastSequence
    requires match e.kind
      case NodeStarted | ClarificationReceived => status == Running
      case ClarificationRequested => status == Waiting
      case _ => false
    ensures var g := Absorb(f, e);
      && g.nodes == Mark(f, e.nodeId.value, if e.kind == NodeStarted then e.nodeIndex else None, status).nodes
      && g.terminal == f.terminal && g.lastSequence == e.sequenceNo
      && g.pendingQuestion == match e.kind {
           case NodeStarted => f.pendingQuestion
           case ClarificationRequested => e.nodeId
           case _ => None }
  {
  }

  lemma MirrorPause(s: Run)
    requires CoreInv(s) && Mirrors(s) && Enabled(s, Pause)
    ensures Mirrors(Apply(s, Pause))
  {
    var k := PauseShape(s);
    AskMirrors(s, Apply(s, Pause), k, Event(|s.log| + 1, ClarificationRequested, Some(s.nodes[k].id), None));
  }

  lemma MirrorAnswer(s: Run)
    requires CoreInv(s) && Mirrors(s) && Enabled(s, AnswerClarification)
    ensures Mirrors(Apply(s, AnswerClarification))
  {
    var k := AnswerShape(s);
    AnswerMirrors(s, Apply(s, AnswerClarification), k, Event(|s.log| + 1, ClarificationReceived, Some(s.nodes[k].id), None));
  }

  lemma MirrorFail(s: Run)
    requires CoreInv(s) && Mirrors(s) && Enabled(s, FailNode)
    ensures Mirrors(Apply(s, FailNode))
  {
    var k := FailShape(s);
    FailMirrors(s, Apply(s, FailNode), k);
  }

  lemma FailMirrors(s: Run, t: Run, k: nat)
    requires Mirrors(s) && k < |s.nodes| && UniqueIds(s.nodes) && s.nodes[k].status == Running && s.status == RunRunning
    requires t.nodes == s.nodes[k := s.nodes[k].(status := Failed)]
    requires t.log == s.log + [NodeEvent(|s.log| + 1, NodeFailed, s.nodes[k])] + [RunEvent(|s.log| + 2, RunFailedEvent)]
    requires t.status == RunFailed && t.attempt == s.attempt
    ensures Mirrors(t)
  {
    var f := FoldLog(s.log);
    FailedFold(s.log, s.nodes[k]);
    assert NodeMirrors(s.nodes[k], f.nodes);
    MarkMirrors(s.nodes, k, t.nodes[k], f, None, Failed);
  }

  lemma FailedFold(log: seq<Event>, n: Node)
    requires FoldLog(log).lastSequence == |log|
    ensures FoldLog(log + [NodeEvent(|log| + 1, NodeFailed, n)] + [RunEvent(|log| + 2, RunFailedEvent)])
         == Mark(FoldLog(log), n.id, None, Failed).(runStatus := RunFailed, terminal := true, lastSequence := |log| + 2)
  {
    var e, last := NodeEvent(|log| + 1, NodeFailed, n), RunEvent(|log| + 2, RunFailedEvent);
    var f := FoldLog(log);
    var g := FoldLog(log + [e]);
    FoldAppend(log, e);
    AbsorbFailed(f, e);
    FoldAppend(log + [e], last);
    AbsorbRunFailed(g, last);
  }

  lemma MirrorFinish(s: Run, outcome: Outcome)
    requires CoreInv(s) && Mirrors(s) && Enabled(s, FinishNode(outcome))
    ensures Mirrors(Apply(s, FinishNode(outcome)))
  {
    var k, grown := FinishShape(s, outcome);
    FinishMirrors(s, Apply(s, FinishNode(outcome)), k, grown);
  }

  lemma FinishMirrors(s: Run, t: Run, k: nat, grown: seq<Node>)
    requires Mirrors(s) && k < |s.nodes| && s.nodes[k].status == Running && GrownFrom(s.nodes, grown)
    requires t.nodes == WithStatus(grown, s.nodes[k].id, Succeeded)
    requires t.log == s.log + [NodeEvent(|s.log| + 1, NodeCompleted, s.nodes[k])]
    requires t.status == s.status == RunRunning && t.attempt == s.attempt
    ensures Mirrors(t)
  {
    var f := FoldLog(s.log);
    CompletedFold(s.log, s.nodes[k]);
    assert NodeMirrors(s.nodes[k], f.nodes);
    GrownMirrors(s.nodes, grown, f.nodes);
    DoneMirrors(s.nodes[k], grown, f);
  }

  lemma CompletedFold(log: seq<Event>, n: Node)
    requires FoldLog(log).lastSequence == |log|
    ensures FoldLog(log + [NodeEvent(|log| + 1, NodeCompleted, n)])
         == Mark(FoldLog(log), n.id, None, Succeeded).(lastSequence := |log| + 1)
  {
    FoldAppend(log, NodeEvent(|log| + 1, NodeCompleted, n));
    AbsorbCompleted(FoldLog(log), NodeEvent(|log| + 1, NodeCompleted, n));
  }

  lemma DoneMirrors(node: Node, grown: seq<Node>, f: Fold)
    requires UniqueIds(grown) && node in grown && node.id in f.nodes && NodesMirror(grown, f.nodes)
    ensures NodesMirror(WithStatus(grown, node.id, Succeeded), Mark(f, node.id, None, Succeeded).nodes)
  {
    var j :| 0 <= j < |grown| && grown[j] == node;
    WithStatusIsUpdate(grown, j, Succeeded);
    MarkMirrors(grown, j, grown[j].(status := Succeeded), f, None, Succeeded);
  }

  /** Nodes added by a result are unknown to the fold until they start. */
  lemma GrownMirrors(before: seq<Node>, grown: seq<Node>, shown: map<NodeId, TimelineNode>)
    requires GrownFrom(before, grown) && NodesMirror(before, shown)
    ensures NodesMirror(grown, shown)
  {
    forall i | 0 <= i < |grown| ensures NodeMirrors(grown[i], shown) {
      assert grown[i] in grown;
      if grown[i] in before {
        var j :| 0 <= j < |before| && before[j] == grown[i];
        assert NodeMirrors(before[j], shown);
      }
    }
    forall id | id in shown ensures id in Ids(grown) {
      var n :| n in before && n.id == id;
      assert n in grown;
    }
  }

  lemma MirrorCancel(s: Run, a: Action)
    requires a == ObserveCancel || a == RequestCancel
    requires CoreInv(s) && Mirrors(s) && Enabled(s, a)
    ensures Mirrors(Apply(s, a))
  {
    LastSequenceIsLength(s.log);
    var t := Apply(s, a);
    if t.status == RunCancelled {
      SkipMirrors(s, t);
    }
  }

  lemma SkipMirrors(s: Run, t: Run)
    requires Mirrors(s) && t.nodes == SkipOpen(s.nodes) && t.status == RunCancelled && t.attempt == s.attempt
    requires t.log == s.log + [RunEvent(|s.log| + 1, RunCancelledEvent)]
    ensures Mirrors(t)
  {
    hide FoldLog, NodesMirror, SkipOpen, SkipOpenNodes;
    FoldAppend(s.log, t.log[|s.log|]);
    var f := FoldLog(s.log);
    SkippedQuietly(s.nodes, f.nodes);
    QuietMirrors(s.nodes, t.nodes, f.nodes, SkipOpenNodes(f.nodes));
  }

  lemma SkippedQuietly(nodes: seq<Node>, shown: map<NodeId, TimelineNode>)
    ensures |SkipOpen(nodes)| == |nodes| && SkipOpenNodes(shown).Keys == shown.Keys
    ensures forall i :: 0 <= i < |nodes| ==> Quiet(nodes[i], SkipOpen(nodes)[i], shown, SkipOpenNodes(shown))
  {
  }

  /** What the reaper's events do to the fold: running nodes may now show as failed. */
  predicate ReapedFold(f: Fold, g: Fold, nodes: seq<Node>, count: nat) {
    && g.nodes.Keys == f.nodes.Keys
    && (forall id :: id in f.nodes ==>
          g.nodes[id] == f.nodes[id] || (g.nodes[id] == f.nodes[id].(status := Failed) && SomeRunning(nodes, id)))
    && g.pendingQuestion == f.pendingQuestion && g.terminal == f.terminal
    && g.lastSequence == f.lastSequence + count
  }

  predicate SomeRunning(nodes: seq<Node>, id: NodeId) {
    exists i :: 0 <= i < |nodes| && IsRunningNode(nodes[i], id)
  }

  lemma SomeRunningTail(nodes: seq<Node>)
    requires nodes != []
    ensures forall id :: SomeRunning(nodes[1..], id) ==> SomeRunning(nodes, id)
    ensures nodes[0].status == Running ==> SomeRunning(nodes, nodes[0].id)
  {
    forall id | SomeRunning(nodes[1..], id) ensures SomeRunning(nodes, id) {
      var i :| 0 <= i < |nodes[1..]| && IsRunningNode(nodes[1..][i], id);
      assert IsRunningNode(nodes[i + 1], id);
    }
    assert nodes[0].status == Running ==> IsRunningNode(nodes[0], nodes[0].id);
  }

  predicate RunningShown(nodes: seq<Node>, shown: map<NodeId, TimelineNode>) {
    forall i :: 0 <= i < |nodes| && nodes[i].status == Running ==> nodes[i].id in shown
  }

  lemma RunningShownTail(nodes: seq<Node>, shown: map<NodeId, TimelineNode>, later: map<NodeId, TimelineNode>)
    requires nodes != [] && RunningShown(nodes, shown) && shown.Keys <= later.Keys
    ensures RunningShown(nodes[1..], later)
  {
    forall i | 0 <= i < |nodes[1..]| && nodes[1..][i].status == Running ensures nodes[1..][i].id in later {
      assert nodes[1..][i] == nodes[i + 1] && nodes[i + 1].id in shown.Keys;
    }
  }

  lemma ReapEventsHead(log: seq<Event>, nodes: seq<Node>, next: nat)
    requires nodes != []
    ensures var e := Event(next, NodeFailed, Some(nodes[0].id), None);
      if nodes[0].status == Running
      then log + ReapEvents(nodes, next) == (log + [e]) + ReapEvents(nodes[1..], next + 1)
           && |ReapEvents(nodes, next)| == |ReapEvents(nodes[1..], next + 1)| + 1
      else ReapEvents(nodes, next) == ReapEvents(nodes[1..], next)
  {
  }

  /** The fold marks the first node as failed and still shows all running ones behind it. */
  lemma ReapedHead(log: seq<Event>, nodes: seq<Node>, e: Event)
    requires nodes != [] && nodes[0].status == Running && RunningShown(nodes, FoldLog(log).nodes)
    requires e == Event(FoldLog(log).lastSequence + 1, NodeFailed, Some(nodes[0].id), None)
    ensures nodes[0].id in FoldLog(log).nodes
    ensures FoldLog(log + [e]) == Mark(FoldLog(log), nodes[0].id, None, Failed).(lastSequence := e.sequenceNo)
    ensures RunningShown(nodes[1..], FoldLog(log + [e]).nodes)
  {
    var f := FoldLog(log);
    hide FoldLog, Absorb;
    FoldAppend(log, e);
    AbsorbFailed(f, e);
    MarkNodes(f, nodes[0].id, None, Failed);
    hide Mark;
    RunningShownTail(nodes, f.nodes, FoldLog(log + [e]).nodes);
  }

  lemma {:induction false} ReapFold(log: seq<Event>, nodes: seq<Node>, next: nat)
    requires RunningShown(nodes, FoldLog(log).nodes) && next == FoldLog(log).lastSequence + 1
    ensures ReapedFold(FoldLog(log), FoldLog(log + ReapEvents(nodes, next)), nodes, |ReapEvents(nodes, next)|)
    decreases |nodes|
  {
    hide ReapEvents, ReapedFold, FoldLog, RunningShown, Mark, Absorb;
    if nodes == [] {
      NothingReaped(log, next);
    } else {
      ReapEventsHead(log, nodes, next);
      if nodes[0].status == Running {
        var e := Event(next, NodeFailed, Some(nodes[0].id), None);
        ReapedHead(log, nodes, e);
        ReapFold(log + [e], nodes[1..], next + 1);
        ReapedMore(FoldLog(log), FoldLog(log + ReapEvents(nodes, next)), nodes, |ReapEvents(nodes[1..], next + 1)|);
      } else {
        RunningShownTail(nodes, FoldLog(log).nodes, FoldLog(log).nodes);
        ReapFold(log, nodes[1..], next);
        ReapedTail(FoldLog(log), FoldLog(log + ReapEvents(nodes, next)), nodes, |ReapEvents(nodes, next)|);
      }
    }
  }

  lemma NothingReaped(log: seq<Event>, next: nat)
    ensures ReapedFold(FoldLog(log), FoldLog(log + ReapEvents([], next)), [], |ReapEvents([], next)|)
  {
    assert log + ReapEvents([], next) == log;
  }

  lemma ReapedTail(f: Fold, g: Fold, nodes: seq<Node>, count: nat)
    requires nodes != [] && ReapedFold(f, g, nodes[1..], count)
    ensures ReapedFold(f, g, nodes, count)
  {
    SomeRunningTail(nodes);
    hide SomeRunning;
  }

  lemma ReapedMore(f: Fold, g: Fold, nodes: seq<Node>, count: nat)
    requires nodes != [] && nodes[0].status == Running && nodes[0].id in f.nodes
    requires ReapedFold(Mark(f, nodes[0].id, None, Failed).(lastSequence := f.lastSequence + 1), g, nodes[1..], count)
    ensures ReapedFold(f, g, nodes, count + 1)
  {
    SomeRunningTail(nodes);
    hide SomeRunning;
  }

  lemma ReapShape(s: Run)
    requires CoreInv(s) && Enabled(s, Reap)
    ensures UniqueIds(s.nodes)
    ensures var t, failed := Apply(s, Reap), ReapEvents(s.nodes, |s.log| + 1);
      && t.nodes == FailRunning(s.nodes) && t.status == RunFailed && t.attempt == s.attempt && s.status == RunRunning
      && t.log == s.log + failed + [RunEvent(|s.log| + 1 + |failed|, RunFailedEvent)]
  {
    LastSequenceIsLength(s.log);
  }

  lemma MirrorReap(s: Run)
    requires CoreInv(s) && Mirrors(s) && Enabled(s, Reap)
    ensures Mirrors(Apply(s, Reap))
  {
    ReapShape(s);
    ReapMirrors(s, Apply(s, Reap));
  }

  lemma ReapMirrors(s: Run, t: Run)
    requires Mirrors(s) && UniqueIds(s.nodes) && s.status == RunRunning
    requires t.nodes == FailRunning(s.nodes) && t.status == RunFailed && t.attempt == s.attempt
    requires var failed := ReapEvents(s.nodes, |s.log| + 1);
      t.log == s.log + failed + [RunEvent(|s.log| + 1 + |failed|, RunFailedEvent)]
    ensures Mirrors(t)
  {
    hide ReapEvents, FailRunning, FoldLog;
    ReapFolds(s);
    ReapedMirrors(s.nodes, FoldLog(s.log).nodes, FoldLog(t.log).nodes);
  }

  lemma ReapFolds(s: Run)
    requires Mirrors(s)
    ensures var failed := ReapEvents(s.nodes, |s.log| + 1);
      var f, g := FoldLog(s.log), FoldLog(s.log + failed + [RunEvent(|s.log| + 1 + |failed|, RunFailedEvent)]);
      && ReapedFold(f, g.(terminal := f.terminal), s.nodes, |failed| + 1)
      && g.terminal
  {
    var f := FoldLog(s.log);
    hide FoldLog, Absorb, ReapEvents, ReapedFold;
    RunningAreShown(s.nodes, f.nodes);
    hide NodesMirror, QuestionMirrors, RunningShown;
    var failed := ReapEvents(s.nodes, |s.log| + 1);
    ReapFold(s.log, s.nodes, |s.log| + 1);
    var g, last := FoldLog(s.log + failed), RunEvent(|s.log| + 1 + |failed|, RunFailedEvent);
    FoldAppend(s.log + failed, last);
    ReapedEnds(f, g, s.nodes, |failed|);
    AbsorbRunFailed(g, last);
  }

  lemma RunningAreShown(nodes: seq<Node>, shown: map<NodeId, TimelineNode>)
    requires NodesMirror(nodes, shown)
    ensures RunningShown(nodes, shown)
  {
    forall i | 0 <= i < |nodes| && nodes[i].status == Running ensures nodes[i].id in shown {
      assert NodeMirrors(nodes[i], shown);
    }
  }

  lemma ReapedEnds(f: Fold, g: Fold, nodes: seq<Node>, count: nat)
    requires ReapedFold(f, g, nodes, count)
    ensures g.lastSequence == f.lastSequence + count
    ensures ReapedFold(f, g.(runStatus := RunFailed, terminal := f.terminal, lastSequence := f.lastSequence + count + 1), nodes, count + 1)
  {
    hide SomeRunning;
  }

  lemma ReapedMirrors(nodes: seq<Node>, shown: map<NodeId, TimelineNode>, later: map<NodeId, TimelineNode>)
    requires UniqueIds(nodes) && NodesMirror(nodes, shown) && later.Keys == shown.Keys
    requires forall id :: id in shown ==>
      later[id] == shown[id] || (later[id] == shown[id].(status := Failed) && SomeRunning(nodes, id))
    ensures NodesMirror(FailRunning(nodes), later)
  {
    var now := FailRunning(nodes);
    SameIds(nodes, now);
    forall i | 0 <= i < |now| ensures NodeMirrors(now[i], later) {
      assert NodeMirrors(nodes[i], shown);
      if now[i].id in shown && later[now[i].id] != shown[now[i].id] {
        var j :| 0 <= j < |nodes| && IsRunningNode(nodes[j], now[i].id);
        assert j == i;
      }
    }
  }

  lemma RecoverShape(s: Run)
    requires CoreInv(s) && Enabled(s, RecoverStale)
    ensures var t := Apply(s, RecoverStale);
      && t.nodes == FailRunning(s.nodes) && t.status == RunFailed && t.attempt == s.attempt && s.status == RunRunning
      && t.log == s.log + [RunEvent(|s.log| + 1, RunFailedEvent)]
  {
    LastSequenceIsLength(s.log);
  }

  lemma MirrorRecover(s: Run)
    requires CoreInv(s) && Mirrors(s) && Enabled(s, RecoverStale)
    ensures Mirrors(Apply(s, RecoverStale))
  {
    RecoverShape(s);
    FoldAppend(s.log, RunEvent(|s.log| + 1, RunFailedEvent));
    RecoverMirrors(s.nodes, FoldLog(s.log).nodes);
  }

  lemma RecoverMirrors(nodes: seq<Node>, shown: map<NodeId, TimelineNode>)
    requires NodesMirror(nodes, shown)
    ensures NodesMirror(FailRunning(nodes), shown)
    ensures NodesMirror(ResetFailed(nodes), shown)
  {
    assert forall i :: 0 <= i < |nodes| ==> NodeMirrors(nodes[i], shown);
    QuietMirrors(nodes, FailRunning(nodes), shown, shown);
    ResetMirrors(nodes, shown);
  }

  lemma ResetMirrors(nodes: seq<Node>, shown: map<NodeId, TimelineNode>)
    requires NodesMirror(nodes, shown)
    ensures NodesMirror(ResetFailed(nodes), shown)
  {
    QuietMirrors(nodes, ResetFailed(nodes), shown, shown);
  }

  lemma MirrorRetry(s: Run)
    requires CoreInv(s) && Mirrors(s) && Enabled(s, Retry)
    ensures Mirrors(Apply(s, Retry))
  {
    RecoverMirrors(s.nodes, FoldLog(s.log).nodes);
  }

  /** An event that only touches the running node leaves every shown node as it was. */
  lemma MirrorProgress(s: Run, kind: EventType)
    requires CoreInv(s) && Mirrors(s) && Enabled(s, Progress(kind))
    ensures Mirrors(Apply(s, Progress(kind)))
  {
    var k := RunningNodeAt(s);
    assert NodeMirrors(s.nodes[k], FoldLog(s.log).nodes);
    hide UniqueIds, SortedByIndex, OneSaveNode, RevisionsBounded, SaveDone, StatusesFit, NodesMirror, FoldLog, Find, Absorb;
    var e := Event(s.worker.next, kind, Some(s.worker.node), None);
    FoldAppend(s.log, e);
    AbsorbKnown(FoldLog(s.log), e);
    SameMirrors(s, Apply(s, Progress(kind)));
  }

  lemma AbsorbKnown(f: Fold, e: Event)
    requires Informational(e.kind) && e.nodeId.Some? && e.nodeId.value in f.nodes && e.sequenceNo > f.lastSequence
    ensures Absorb(f, e) == f.(lastSequence := e.sequenceNo)
  {
  }

  lemma SameMirrors(s: Run, t: Run)
    requires Mirrors(s) && t.nodes == s.nodes && t.status == s.status && t.attempt == s.attempt
    requires FoldLog(t.log) == FoldLog(s.log).(lastSequence := |t.log|)
    ensures Mirrors(t)
  {
  }

  lemma MirrorPlain(s: Run, a: Action)
    requires a in {Claim, Complete, ChooseNext, Crash}
    requires CoreInv(s) && Mirrors(s) && Enabled(s, a)
    ensures Mirrors(Apply(s, a))
  {
    hide UniqueIds, SortedByIndex, OneSaveNode, RevisionsBounded, SaveDone, StatusesFit, NodesMirror, FoldLog, NextNode;
    LastSequenceIsLength(s.log);
    var t := Apply(s, a);
    if |t.log| > |s.log| {
      FoldAppend(s.log, t.log[|s.log|]);
    }
  }

  lemma StepKeepsMirror(s: Run, a: Action)
    requires CoreInv(s) && Mirrors(s) && Enabled(s, a)
    ensures Mirrors(Apply(s, a))
  {
    match a
    case StartNode => MirrorStart(s);
    case Pause => MirrorPause(s);
    case FailNode => MirrorFail(s);
    case FinishNode(outcome) => MirrorFinish(s, outcome);
    case AnswerClarification => MirrorAnswer(s);
    case ObserveCancel => MirrorCancel(s, a);
    case RequestCancel => MirrorCancel(s, a);
    case Reap => MirrorReap(s);
    case RecoverStale => MirrorRecover(s);
    case Retry => MirrorRetry(s);
    case Progress(kind) => MirrorProgress(s, kind);
    case _ => MirrorPlain(s, a);
  }

  // ----- the run status -----

  /** No commit has happened since the last retry. */
  predicate JustRetried(actions: seq<Action>) {
    actions != [] && actions[|actions| - 1] == Retry
  }

  /** The status the fold shows: the stored one, except that a retry emits no event. */
  function ShownStatus(s: Run, retried: bool): RunState {
    if retried then RunFailed else s.status
  }

  lemma {:induction false} ReapFoldStatus(log: seq<Event>, nodes: seq<Node>, next: nat, e: Event)
    requires e.kind == RunFailedEvent
    ensures FoldLog(log + ReapEvents(nodes, next) + [e]).runStatus == RunFailed
  {
    FoldAppend(log + ReapEvents(nodes, next), e);
  }

  /** Every commit that is not a retry ends with an event that shows the new status, or leaves the
      status alone. */
  lemma StepShows(s: Run, a: Action, retried: bool)
    requires Enabled(s, a) && (s.worker != Gone ==> s.status == RunRunning)
    requires FoldLog(s.log).runStatus == ShownStatus(s, retried)
    requires retried ==> s.status == RunQueued
    ensures FoldLog(Apply(s, a).log).runStatus == ShownStatus(Apply(s, a), a == Retry)
    ensures a == Retry ==> Apply(s, a).status == RunQueued
  {
    hide FoldLog, Find, NextNode, FirstWaiting, LastSequence, ReapEvents;
    match a
    case FailNode => FailShows(s);
    case Reap =>
      var next := LastSequence(s.log) + 1;
      ReapFoldStatus(s.log, s.nodes, next, RunEvent(next + |ReapEvents(s.nodes, next)|, RunFailedEvent));
    case Retry | Crash | ChooseNext =>
    case RequestCancel =>
      if s.status != RunRunning {
        FoldAppend(s.log, RunEvent(LastSequence(s.log) + 1, RunCancelledEvent));
      }
    case _ => OneEventShows(s, a);
  }

  lemma FailShows(s: Run)
    requires Enabled(s, FailNode)
    ensures FoldLog(Apply(s, FailNode).log).runStatus == RunFailed
  {
    var t := Apply(s, FailNode);
    var first := s.log + [t.log[|s.log|]];
    assert t.log == first + [t.log[|s.log| + 1]];
    FoldAppend(first, t.log[|s.log| + 1]);
  }

  /** The status an event of this kind leaves in the fold. */
  function Shows(kind: EventType, before: RunState): RunState {
    match kind
    case RunStarted => RunRunning
    case ClarificationRequested => RunWaiting
    case ClarificationReceived => RunQueued
    case RunCompleted => RunSucceeded
    case RunFailedEvent => RunFailed
    case RunCancelledEvent => RunCancelled
    case _ => before
  }

  lemma AbsorbShows(f: Fold, e: Event)
    ensures Absorb(f, e).runStatus == Shows(e.kind, f.runStatus)
  {
  }

  lemma OneEventStep(s: Run, a: Action)
    requires Enabled(s, a) && a !in {FailNode, Reap, Retry, Crash, ChooseNext, RequestCancel}
    requires s.worker != Gone ==> s.status == RunRunning
    ensures |Apply(s, a).log| == |s.log| + 1 && Apply(s, a).log == s.log + [Apply(s, a).log[|s.log|]]
    ensures Apply(s, a).status == Shows(Apply(s, a).log[|s.log|].kind, s.status)
  {
    hide AfterResult, WithStatus, WithAnswer, SkipOpen, Find, FirstWaiting, NextNode, LastSequence;
  }

  lemma OneEventShows(s: Run, a: Action)
    requires Enabled(s, a) && a !in {FailNode, Reap, Retry, Crash, ChooseNext, RequestCancel}
    requires s.worker != Gone ==> s.status == RunRunning && FoldLog(s.log).runStatus == RunRunning
    ensures FoldLog(Apply(s, a).log).runStatus == Apply(s, a).status
  {
    OneEventStep(s, a);
    var e := Apply(s, a).log[|s.log|];
    FoldAppend(s.log, e);
    AbsorbShows(FoldLog(s.log), e);
  }

  lemma {:induction false} AgreementAlong(s0: Run, actions: seq<Action>)
    requires CoreInv(s0) && Mirrors(s0) && FoldLog(s0.log).runStatus == s0.status && Replay(s0, actions).Some?
    ensures var s := Replay(s0, actions).value;
      && CoreInv(s) && Mirrors(s)
      && FoldLog(s.log).runStatus == ShownStatus(s, JustRetried(actions))
      && (JustRetried(actions) ==> s.status == RunQueued)
  {
    if actions != [] {
      var front, last := actions[..|actions| - 1], actions[|actions| - 1];
      AgreementAlong(s0, front);
      var s := Replay(s0, front).value;
      StepKeepsCore(s, last);
      StepKeepsMirror(s, last);
      StepShows(s, last, JustRetried(front));
    }
  }

  lemma CreateMirrors(agent: AgentRef, isManager: bool, isOrigin: bool, maxRevisions: int)
    ensures Mirrors(Create(agent, isManager, isOrigin, maxRevisions))
  {
    var s := Create(agent, isManager, isOrigin, maxRevisions);
    assert FoldLog(s.log) == START;
    assert forall i :: 0 <= i < |s.nodes| ==> s.nodes[i].status == Pending;
  }

  /** The status folded from the log is the stored status after any interleaving of commits, except
      exactly between a retry and the next claim or cancel, when the fold still shows the failure. */
  lemma FoldedStatusAgrees(agent: AgentRef, isManager: bool, isOrigin: bool, maxRevisions: int, actions: seq<Action>)
    requires Replay(Create(agent, isManager, isOrigin, maxRevisions), actions).Some?
    ensures var s := Replay(Create(agent, isManager, isOrigin, maxRevisions), actions).value;
      && (!JustRetried(actions) ==> TimelineOf(s.log).runStatus == s.status)
      && (JustRetried(actions) ==> TimelineOf(s.log).runStatus == RunFailed && s.status == RunQueued)
  {
    CreateEstablishesCore(agent, isManager, isOrigin, maxRevisions);
    CreateMirrors(agent, isManager, isOrigin, maxRevisions);
    AgreementAlong(Create(agent, isManager, isOrigin, maxRevisions), actions);
  }

  // ----- the nodes of a finished run -----

  function Shown(nodes: seq<Node>): seq<TimelineNode> {
    seq(|nodes|, i requires 0 <= i < |nodes| => TimelineNode(nodes[i].id, nodes[i].index, nodes[i].status))
  }

  predicate StrictlyAscending(nodes: seq<TimelineNode>) {
    forall i, j :: 0 <= i < j < |nodes| ==> nodes[i].index < nodes[j].index
  }

  /** Two lists sorted by index, one of them strictly, with the same members are the same list. */
  lemma {:induction false} SortedListsEqual(a: seq<TimelineNode>, b: seq<TimelineNode>)
    requires Ascending(a) && StrictlyAscending(b) && multiset(a) == multiset(b)
    ensures a == b
  {
    assert |a| == |multiset(a)| == |multiset(b)| == |b|;
    if a != [] {
      LastsEqual(a, b);
      DropLast(a);
      DropLast(b);
      SortedListsEqual(a[..|a| - 1], b[..|b| - 1]);
      SameFrontAndLast(a, b);
    }
  }

  lemma SameFrontAndLast(a: seq<TimelineNode>, b: seq<TimelineNode>)
    requires |a| == |b| > 0 && a[..|a| - 1] == b[..|b| - 1] && a[|a| - 1] == b[|b| - 1]
    ensures a == b
  {
    assert a == a[..|a| - 1] + [a[|a| - 1]] && b == b[..|b| - 1] + [b[|b| - 1]];
  }

  lemma LastsEqual(a: seq<TimelineNode>, b: seq<TimelineNode>)
    requires Ascending(a) && StrictlyAscending(b) && multiset(a) == multiset(b) && |a| == |b| > 0
    ensures a[|a| - 1] == b[|b| - 1]
  {
    var x, y := a[|a| - 1], b[|b| - 1];
    assert x in multiset(b) && y in multiset(a);
    var i :| 0 <= i < |b| && b[i] == x;
    var j :| 0 <= j < |a| && a[j] == y;
    assert y.index <= x.index;
  }

  lemma DropLast(a: seq<TimelineNode>)
    requires a != []
    ensures multiset(a[..|a| - 1]) == multiset(a) - multiset{a[|a| - 1]}
    ensures Ascending(a) ==> Ascending(a[..|a| - 1])
    ensures StrictlyAscending(a) ==> StrictlyAscending(a[..|a| - 1])
  {
    assert a == a[..|a| - 1] + [a[|a| - 1]];
  }

  /** Lists without repetition have equal multisets when they have equal members. */
  lemma {:induction false} SameMembers(a: seq<TimelineNode>, b: seq<TimelineNode>)
    requires forall i, j :: 0 <= i < j < |a| ==> a[i] != a[j]
    requires forall i, j :: 0 <= i < j < |b| ==> b[i] != b[j]
    requires forall x :: x in a <==> x in b
    ensures multiset(a) == multiset(b)
  {
    forall x ensures multiset(a)[x] == multiset(b)[x] {
      AtMostOnce(a, x);
      AtMostOnce(b, x);
    }
  }

  lemma {:induction false} AtMostOnce(a: seq<TimelineNode>, x: TimelineNode)
    requires forall i, j :: 0 <= i < j < |a| ==> a[i] != a[j]
    ensures multiset(a)[x] == if x in a then 1 else 0
  {
    if a != [] {
      var front := a[..|a| - 1];
      assert a == front + [a[|a| - 1]];
      AtMostOnce(front, x);
    }
  }

  lemma ListedIsShown(s: Run, f: Fold)
    requires NodesMirror(s.nodes, f.nodes) && OrderFits(f) && AllIn(s.nodes, {Succeeded})
    ensures forall x :: x in Listed(f) <==> x in Shown(s.nodes)
  {
    var a, b := Listed(f), Shown(s.nodes);
    forall i | 0 <= i < |b| ensures b[i] in a {
      assert NodeMirrors(s.nodes[i], f.nodes);
      var j :| 0 <= j < |f.order| && f.order[j] == s.nodes[i].id;
      assert a[j] == b[i];
    }
    forall j | 0 <= j < |a| ensures a[j] in b {
      assert f.order[j] in f.order && f.order[j] in f.nodes.Keys;
      var n :| n in s.nodes && n.id == f.order[j];
      var i :| 0 <= i < |s.nodes| && s.nodes[i] == n;
      assert NodeMirrors(s.nodes[i], f.nodes);
      assert b[i] == a[j];
    }
  }

  /** When all nodes have succeeded, the timeline lists exactly the stored nodes, in order of index;
      where indices differ, that is the stored order. */
  lemma FinishedTimelineIsTheRun(s: Run)
    requires UniqueIds(s.nodes) && AllIn(s.nodes, {Succeeded}) && NodesMirror(s.nodes, FoldLog(s.log).nodes)
    ensures var shown := TimelineOf(s.log).nodes;
      && Ascending(shown) && multiset(shown) == multiset(Shown(s.nodes))
      && (StrictlyAscending(Shown(s.nodes)) ==> shown == Shown(s.nodes))
  {
    hide FoldLog;
    FoldOrderFits(s.log);
    var f := FoldLog(s.log);
    var a, b := Listed(f), Shown(s.nodes);
    ListedIsShown(s, f);
    NoRepeats(f);
    assert forall i, j :: 0 <= i < j < |b| ==> b[i].id != b[j].id;
    hide OrderFits, NodesMirror, UniqueIds, Listed, Shown, StrictlyAscending, SortByIndex, Ascending;
    SameMembers(a, b);
    SortByIndexSorts(a);
    if StrictlyAscending(b) {
      SortedListsEqual(SortByIndex(a), b);
    }
  }

  lemma NoRepeats(f: Fold)
    requires OrderFits(f)
    ensures forall i, j :: 0 <= i < j < |Listed(f)| ==> Listed(f)[i] != Listed(f)[j]
  {
    forall i, j | 0 <= i < j < |Listed(f)| ensures Listed(f)[i] != Listed(f)[j] {
      assert f.order[i] in f.order && f.order[j] in f.order;
      assert Listed(f)[i].id == f.order[i] && Listed(f)[j].id == f.order[j];
    }
  }

  lemma ReachableRunsMirror(agent: AgentRef, isManager: bool, isOrigin: bool, maxRevisions: int, s: Run)
    requires Reaches(Create(agent, isManager, isOrigin, maxRevisions), s)
    ensures Mirrors(s)
  {
    var s0 := Create(agent, isManager, isOrigin, maxRevisions);
    CreateEstablishesCore(agent, isManager, isOrigin, maxRevisions);
    CreateMirrors(agent, isManager, isOrigin, maxRevisions);
    var actions :| Replay(s0, actions) == Some(s);
    AgreementAlong(s0, actions);
  }

  /** The agreement theorem for finished runs, over every history that leads there. */
  lemma SucceededRunsAreShownWhole(agent: AgentRef, isManager: bool, isOrigin: bool, maxRevisions: int, s: Run)
    requires Reaches(Create(agent, isManager, isOrigin, maxRevisions), s) && s.status == RunSucceeded
    ensures var shown := TimelineOf(s.log).nodes;
      && Ascending(shown) && multiset(shown) == multiset(Shown(s.nodes))
      && (IndexesFit(maxRevisions) ==> shown == Shown(s.nodes))
    ensures AllIn(s.nodes, {Succeeded})
  {
    hide Reaches, NodesMirror, FlagsMirror, Layout, Blocks, OpenFirst, Ascending, FoldLog, TimelineOf, Create,
      SortedByIndex, OneSaveNode, RevisionsBounded, StatusesFit, WorkerFits, SaveDone;
    ReachableRunsMirror(agent, isManager, isOrigin, maxRevisions, s);
    ReachableHeadFits(agent, isManager, isOrigin, maxRevisions, s);
    ReachableRunsAreOrdered(agent, isManager, isOrigin, maxRevisions, s);
    FinishedTimelineIsTheRun(s);
  }

  /** In every reachable state the page asks the waiting node's question, its terminal flag says
      whether the run ever ended (a retry never clears it), and its resume point is the number of
      events. */
  lemma ShownFlags(agent: AgentRef, isManager: bool, isOrigin: bool, maxRevisions: int, s: Run)
    requires Reaches(Create(agent, isManager, isOrigin, maxRevisions), s)
    ensures TimelineOf(s.log).terminal <==> (s.attempt > 1 || IsTerminal(s.status))
    ensures TimelineOf(s.log).lastSequence == |s.log|
    ensures s.status != RunCancelled ==> (TimelineOf(s.log).pendingQuestion.Some? <==> s.status == RunWaiting)
    ensures s.status == RunWaiting ==>
      exists i :: 0 <= i < |s.nodes| && Unanswered(s.nodes[i], TimelineOf(s.log).pendingQuestion.value)
  {
    ReachableRunsMirror(agent, isManager, isOrigin, maxRevisions, s);
  }

  /** What ends the gap after a retry: nothing but a claim or a cancel can come next. */
  lemma OnlyClaimOrCancelAfterRetry(s: Run, a: Action)
    requires CoreInv(s) && s.status == RunQueued && Enabled(s, a)
    ensures a == Claim || a == RequestCancel
  {
    assert s.worker == Gone;
  }

  // ----- the nodes of any run, and of a cancelled one -----

  /** The page lists exactly what the fold knows, each node once. */
  lemma ListHolds(log: seq<Event>, x: TimelineNode)
    ensures x in TimelineOf(log).nodes <==> x.id in FoldLog(log).nodes && FoldLog(log).nodes[x.id] == x
  {
    hide FoldLog, SortByIndex;
    FoldOrderFits(log);
    var f := FoldLog(log);
    SortByIndexSorts(Listed(f));
    assert x in TimelineOf(log).nodes <==> x in multiset(Listed(f)) by {
      assert x in multiset(SortByIndex(Listed(f))) <==> x in SortByIndex(Listed(f));
    }
    if x.id in f.nodes && f.nodes[x.id] == x {
      var j :| 0 <= j < |f.order| && f.order[j] == x.id;
      assert Listed(f)[j] == x;
    }
    if x in Listed(f) {
      var j :| 0 <= j < |f.order| && Listed(f)[j] == x;
      assert f.order[j] in f.order;
    }
  }

  /** In every reachable state the page shows only stored nodes, with their index and a status that fits
      the stored one; a node it does not show has not started. */
  lemma NodesAreShown(agent: AgentRef, isManager: bool, isOrigin: bool, maxRevisions: int, s: Run)
    requires Reaches(Create(agent, isManager, isOrigin, maxRevisions), s)
    ensures forall x :: x in TimelineOf(s.log).nodes ==>
      exists k :: 0 <= k < |s.nodes| && s.nodes[k].id == x.id && s.nodes[k].index == x.index && ShownAs(s.nodes[k], x.status)
    ensures forall k :: 0 <= k < |s.nodes| && s.nodes[k].status !in {Pending, Skipped} ==>
      exists x :: x in TimelineOf(s.log).nodes && x.id == s.nodes[k].id
  {
    ReachableRunsMirror(agent, isManager, isOrigin, maxRevisions, s);
    hide Reaches, TimelineOf, FoldLog, FlagsMirror, ShownAs;
    var f := FoldLog(s.log);
    forall x | x in TimelineOf(s.log).nodes
      ensures exists k :: 0 <= k < |s.nodes| && s.nodes[k].id == x.id && s.nodes[k].index == x.index && ShownAs(s.nodes[k], x.status)
    {
      ListHolds(s.log, x);
      assert x.id in f.nodes.Keys;
      var n :| n in s.nodes && n.id == x.id;
      var k :| 0 <= k < |s.nodes| && s.nodes[k] == n;
      assert NodeMirrors(s.nodes[k], f.nodes);
    }
    forall k | 0 <= k < |s.nodes| && s.nodes[k].status !in {Pending, Skipped}
      ensures exists x :: x in TimelineOf(s.log).nodes && x.id == s.nodes[k].id
    {
      assert NodeMirrors(s.nodes[k], f.nodes);
      FoldOrderFits(s.log);
      ListHolds(s.log, f.nodes[s.nodes[k].id]);
    }
  }

  lemma NothingAfterCancel(s: Run, a: Action)
    requires CoreInv(s) && s.status == RunCancelled
    ensures !Enabled(s, a)
  {
    assert s.worker == Gone;
  }

  /** The state in which a cancelled run was when it was cancelled, and the rows it had. */
  lemma CancelledFrom(agent: AgentRef, isManager: bool, isOrigin: bool, maxRevisions: int, actions: seq<Action>)
    requires Replay(Create(agent, isManager, isOrigin, maxRevisions), actions).Some?
    requires Replay(Create(agent, isManager, isOrigin, maxRevisions), actions).value.status == RunCancelled
    ensures actions != [] && actions[|actions| - 1] in {ObserveCancel, RequestCancel}
    ensures var s0 := Create(agent, isManager, isOrigin, maxRevisions);
      var p, s := Replay(s0, actions[..|actions| - 1]), Replay(s0, actions).value;
      && p.Some? && Mirrors(p.value) && s.nodes == SkipOpen(p.value.nodes) && UniqueIds(p.value.nodes)
      && (forall i :: 0 <= i < |p.value.nodes| ==> p.value.nodes[i].status in {Pending, Waiting, Succeeded})
      && s.log == p.value.log + [RunEvent(|p.value.log| + 1, RunCancelledEvent)]
  {
    var s0 := Create(agent, isManager, isOrigin, maxRevisions);
    CreateEstablishesCore(agent, isManager, isOrigin, maxRevisions);
    CreateMirrors(agent, isManager, isOrigin, maxRevisions);
    var front, last := actions[..|actions| - 1], actions[|actions| - 1];
    hide Create, Mirrors, CoreInv, FoldLog;
    AgreementAlong(s0, front);
    hide Replay, ShownStatus, JustRetried, Apply, Enabled;
    OnlyCancelCancels(Replay(s0, front).value, last, Replay(s0, actions).value) by {
      CancelStep(s0, actions);
    }
  }

  lemma CancelStep(s0: Run, actions: seq<Action>)
    requires actions != [] && Replay(s0, actions).Some? && Replay(s0, actions[..|actions| - 1]).Some?
    ensures var p, last := Replay(s0, actions[..|actions| - 1]).value, actions[|actions| - 1];
      Enabled(p, last) && Replay(s0, actions).value == Apply(p, last)
  {
  }

  lemma OnlyCancelCancels(p: Run, a: Action, s: Run)
    requires CoreInv(p) && Enabled(p, a) && s == Apply(p, a) && s.status == RunCancelled
    ensures a in {ObserveCancel, RequestCancel} && s.nodes == SkipOpen(p.nodes) && UniqueIds(p.nodes)
    ensures forall i :: 0 <= i < |p.nodes| ==> p.nodes[i].status in {Pending, Waiting, Succeeded}
    ensures s.log == p.log + [RunEvent(|p.log| + 1, RunCancelledEvent)]
  {
    LastSequenceIsLength(p.log);
    if p.status == RunCancelled {
      NothingAfterCancel(p, a);
    }
    CancelsOnly(p, a);
    forall i | 0 <= i < |p.nodes| ensures p.nodes[i].status in {Pending, Waiting, Succeeded} {
      assert NodeFits(p.status, p.worker, p.nodes[i]);
    }
  }

  lemma CancelsOnly(p: Run, a: Action)
    requires Enabled(p, a) && Apply(p, a).status == RunCancelled && p.status != RunCancelled && (p.worker != Gone ==> p.status == RunRunning)
    ensures a == ObserveCancel || (a == RequestCancel && p.status in {RunQueued, RunWaiting})
  {
    hide AfterResult, WithStatus, WithAnswer, SkipOpen, FailRunning, ResetFailed, Find, FirstWaiting, NextNode, LastSequence, ReapEvents;
  }

  /** Whether the page shows this status for this node. */
  ghost predicate PageShows(log: seq<Event>, n: Node, status: NodeState) {
    TimelineNode(n.id, n.index, status) in TimelineOf(log).nodes
  }

  /** The timeline of a cancelled run, whatever its history: nothing is shown as pending or waiting; who
      waited for the user is shown as skipped; who had succeeded still is; and a stored status is shown
      wrongly exactly for a node that was answered or was to be retried, and had not been restarted. */
  lemma CancelledRunsAreShown(
      agent: AgentRef, isManager: bool, isOrigin: bool, maxRevisions: int, actions: seq<Action>, k: nat)
    requires Replay(Create(agent, isManager, isOrigin, maxRevisions), actions).Some?
    requires var s := Replay(Create(agent, isManager, isOrigin, maxRevisions), actions).value;
      s.status == RunCancelled && k < |s.nodes|
    ensures var s0 := Create(agent, isManager, isOrigin, maxRevisions);
      var s := Replay(s0, actions).value;
      && (forall x :: x in TimelineOf(s.log).nodes ==> x.status !in {Pending, Waiting})
      && actions != [] && Replay(s0, actions[..|actions| - 1]).Some?
      && var p := Replay(s0, actions[..|actions| - 1]).value;
         |p.nodes| == |s.nodes|
         && (p.nodes[k].status == Succeeded ==> PageShows(s.log, s.nodes[k], Succeeded))
         && (p.nodes[k].status == Waiting && !p.nodes[k].answered ==> PageShows(s.log, s.nodes[k], Skipped))
         && (forall x :: x in TimelineOf(s.log).nodes && x.id == s.nodes[k].id ==>
               (x.status == s.nodes[k].status <==>
                 p.nodes[k].status == Succeeded || (p.nodes[k].status == Waiting && !p.nodes[k].answered)))
  {
    var s0 := Create(agent, isManager, isOrigin, maxRevisions);
    CancelledFrom(agent, isManager, isOrigin, maxRevisions, actions);
    hide Create, Replay, Mirrors;
    var p, s := Replay(s0, actions[..|actions| - 1]).value, Replay(s0, actions).value;
    CancelShows(p, s, k);
  }

  lemma CancelShows(p: Run, s: Run, k: nat)
    requires Mirrors(p) && s.nodes == SkipOpen(p.nodes) && UniqueIds(p.nodes) && k < |p.nodes|
    requires forall i :: 0 <= i < |p.nodes| ==> p.nodes[i].status in {Pending, Waiting, Succeeded}
    requires s.log == p.log + [RunEvent(|p.log| + 1, RunCancelledEvent)]
    ensures forall x :: x in TimelineOf(s.log).nodes ==> x.status !in {Pending, Waiting}
    ensures p.nodes[k].status == Succeeded ==> PageShows(s.log, s.nodes[k], Succeeded)
    ensures p.nodes[k].status == Waiting && !p.nodes[k].answered ==> PageShows(s.log, s.nodes[k], Skipped)
    ensures forall x :: x in TimelineOf(s.log).nodes && x.id == s.nodes[k].id ==>
      (x.status == s.nodes[k].status <==> p.nodes[k].status == Succeeded || (p.nodes[k].status == Waiting && !p.nodes[k].answered))
  {
    var f, n := FoldLog(p.log), p.nodes[k];
    CancelFolds(p.log, |p.log| + 1);
    OneSkipped(p, k);
    hide FoldLog, TimelineOf, SkipOpen, Mirrors, ShownAs, SkipOpenNodes;
    forall x | x in TimelineOf(s.log).nodes ensures x.id in f.nodes && x == SkipOpenNodes(f.nodes)[x.id] {
      ListHolds(s.log, x);
    }
    NoneOpenShown(f.nodes);
    if n.id in f.nodes {
      ListHolds(s.log, SkipOpenNodes(f.nodes)[n.id]);
    }
  }

  lemma CancelFolds(log: seq<Event>, next: nat)
    ensures FoldLog(log + [RunEvent(next, RunCancelledEvent)]).nodes == SkipOpenNodes(FoldLog(log).nodes)
    ensures SkipOpenNodes(FoldLog(log).nodes).Keys == FoldLog(log).nodes.Keys
  {
    FoldAppend(log, RunEvent(next, RunCancelledEvent));
  }

  lemma NoneOpenShown(shown: map<NodeId, TimelineNode>)
    ensures forall id :: id in SkipOpenNodes(shown) ==> id in shown && SkipOpenNodes(shown)[id].status !in {Pending, Waiting}
  {
  }

  lemma OneSkipped(p: Run, k: nat)
    requires Mirrors(p) && k < |p.nodes| && p.nodes[k].status in {Pending, Waiting, Succeeded}
    ensures var n, m, shown := p.nodes[k], SkipOpen(p.nodes)[k], FoldLog(p.log).nodes;
      && m.id == n.id && m.index == n.index && (n.status != Pending ==> n.id in shown)
      && (n.id in shown ==>
            var x := SkipOpenNodes(shown)[n.id];
            && x.id == n.id && x.index == n.index
            && (n.status == Succeeded ==> x.status == Succeeded)
            && (n.status == Waiting && !n.answered ==> x.status == Skipped)
            && (x.status == m.status <==> n.status == Succeeded || (n.status == Waiting && !n.answered)))
  {
    FoldOrderFits(p.log);
    assert NodeMirrors(p.nodes[k], FoldLog(p.log).nodes);
    hide FoldLog;
  }
}
