/** The browser's fold over the event log of a run: one pass over the events with local variables, then a
    sort of the nodes by index. */
module Timelines {
  import opened Options
  import opened RunStates
  import opened NodeIds
  import opened RunModel

  datatype TimelineNode = TimelineNode(id: NodeId, index: int, status: NodeState)

  /** The variables of the fold. A JavaScript map remembers insertion order, here `order`. */
  datatype Fold = Fold(
    runStatus: RunState,
    nodes: map<NodeId, TimelineNode>,
    order: seq<NodeId>,
    pendingQuestion: Option<NodeId>,
    terminal: bool,
    lastSequence: nat)

  datatype Timeline = Timeline(
    runStatus: RunState,
    nodes: seq<TimelineNode>,
    pendingQuestion: Option<NodeId>,
    terminal: bool,
    lastSequence: nat)

  const START := Fold(RunQueued, map[], [], None, false, 0)

  /** The helper that looks a node up and creates it when the event is the first to name it. */
  function Touch(f: Fold, id: NodeId, index: Option<int>): Fold {
    if id in f.nodes then f
    else
      var at := if index.Some? then index.value else |f.nodes|;
      f.(nodes := f.nodes[id := TimelineNode(id, at, Pending)], order := f.order + [id])
  }

  function Mark(f: Fold, id: NodeId, index: Option<int>, status: NodeState): Fold {
    var g := Touch(f, id, index);
    g.(nodes := g.nodes[id := g.nodes[id].(status := status)])
  }

  function SkipOpenNodes(nodes: map<NodeId, TimelineNode>): map<NodeId, TimelineNode> {
    map id | id in nodes ::
      if nodes[id].status in {Pending, Waiting} then nodes[id].(status := Skipped) else nodes[id]
  }

  /** One turn of the loop over events. */
  function Absorb(f0: Fold, e: Event): Fold {
    var f := f0.(lastSequence := if e.sequenceNo > f0.lastSequence then e.sequenceNo else f0.lastSequence);
    match e.kind
    case RunStarted => f.(runStatus := RunRunning)
    case NodeStarted => if e.nodeId.Some? then Mark(f, e.nodeId.value, e.nodeIndex, Running) else f
    case ContextLoaded | AgentStarted | ToolStarted | ToolCompleted | ArtifactCreated =>
      if e.nodeId.Some? then Touch(f, e.nodeId.value, None) else f
    case ClarificationRequested =>
      var g := if e.nodeId.Some? then Mark(f, e.nodeId.value, None, Waiting).(pendingQuestion := e.nodeId) else f;
      g.(runStatus := RunWaiting)
    case ClarificationReceived =>
      var g := f.(pendingQuestion := None, runStatus := RunQueued);
      if e.nodeId.Some? then Mark(g, e.nodeId.value, None, Running) else g
    case NodeCompleted => if e.nodeId.Some? then Mark(f, e.nodeId.value, None, Succeeded) else f
    case NodeFailed => if e.nodeId.Some? then Mark(f, e.nodeId.value, None, Failed) else f
    case RunCompleted => f.(runStatus := RunSucceeded, terminal := true)
    case RunFailedEvent => f.(runStatus := RunFailed, terminal := true)
    case RunCancelledEvent => f.(runStatus := RunCancelled, terminal := true, nodes := SkipOpenNodes(f.nodes))
    case _ => f
  }

  function FoldLog(log: seq<Event>): Fold {
    if log == [] then START else Absorb(FoldLog(log[..|log| - 1]), log[|log| - 1])
  }

  lemma FoldAppend(log: seq<Event>, e: Event)
    ensures FoldLog(log + [e]) == Absorb(FoldLog(log), e)
  {
    assert (log + [e])[..|log|] == log;
  }

  lemma FoldNext(log: seq<Event>, k: nat)
    requires k < |log|
    ensures FoldLog(log[..k + 1]) == Absorb(FoldLog(log[..k]), log[k])
  {
    assert log[..k + 1][..k] == log[..k];
  }

  lemma AbsorbFailed(f: Fold, e: Event)
    requires e.kind == NodeFailed && e.nodeId.Some? && e.sequenceNo > f.lastSequence
    ensures Absorb(f, e) == Mark(f, e.nodeId.value, None, Failed).(lastSequence := e.sequenceNo)
  {
  }

  lemma AbsorbCompleted(f: Fold, e: Event)
    requires e.kind == NodeCompleted && e.nodeId.Some? && e.sequenceNo > f.lastSequence
    ensures Absorb(f, e) == Mark(f, e.nodeId.value, None, Succeeded).(lastSequence := e.sequenceNo)
  {
  }

  lemma AbsorbRunFailed(f: Fold, e: Event)
    requires e.kind == RunFailedEvent && e.sequenceNo > f.lastSequence
    ensures Absorb(f, e) == f.(runStatus := RunFailed, terminal := true, lastSequence := e.sequenceNo)
  {
  }

  // ----- the order of the nodes shown -----

  ghost predicate OrderFits(f: Fold) {
    && (forall id :: id in f.order <==> id in f.nodes)
    && (forall i, j :: 0 <= i < j < |f.order| ==> f.order[i] != f.order[j])
    && (forall id :: id in f.nodes ==> f.nodes[id].id == id)
  }

  lemma TouchFits(f: Fold, id: NodeId, index: Option<int>)
    requires OrderFits(f)
    ensures OrderFits(Touch(f, id, index)) && id in Touch(f, id, index).nodes
  {
  }

  lemma MarkFits(f: Fold, id: NodeId, index: Option<int>, status: NodeState)
    requires OrderFits(f)
    ensures OrderFits(Mark(f, id, index, status))
  {
    TouchFits(f, id, index);
  }

  lemma AbsorbFits(f0: Fold, e: Event)
    requires OrderFits(f0)
    ensures OrderFits(Absorb(f0, e))
  {
    var f := f0.(lastSequence := if e.sequenceNo > f0.lastSequence then e.sequenceNo else f0.lastSequence);
    var g := Absorb(f0, e);
    SameListsFit(f0, f);
    hide OrderFits, Mark, Touch, SkipOpenNodes;
    if e.kind == RunCancelledEvent {
      SkipFits(f);
      SameListsFit(f.(nodes := SkipOpenNodes(f.nodes)), g);
    } else if e.nodeId.None? {
      SameListsFit(f, g);
    } else {
      var id := e.nodeId.value;
      match e.kind
      case NodeStarted => MarkFits(f, id, e.nodeIndex, Running);
      case ContextLoaded | AgentStarted | ToolStarted | ToolCompleted | ArtifactCreated => TouchFits(f, id, None);
      case ClarificationRequested =>
        MarkFits(f, id, None, Waiting);
        SameListsFit(Mark(f, id, None, Waiting), g);
      case ClarificationReceived =>
        SameListsFit(f, f.(pendingQuestion := None, runStatus := RunQueued));
        MarkFits(f.(pendingQuestion := None, runStatus := RunQueued), id, None, Running);
      case NodeCompleted => MarkFits(f, id, None, Succeeded);
      case NodeFailed => MarkFits(f, id, None, Failed);
      case _ => SameListsFit(f, g);
    }
  }

  lemma SameListsFit(f: Fold, g: Fold)
    requires OrderFits(f) && g.nodes == f.nodes && g.order == f.order
    ensures OrderFits(g)
  {
  }

  lemma SkipFits(f: Fold)
    requires OrderFits(f)
    ensures OrderFits(f.(nodes := SkipOpenNodes(f.nodes)))
  {
  }

  lemma {:induction false} FoldOrderFits(log: seq<Event>)
    ensures OrderFits(FoldLog(log))
  {
    if log != [] {
      FoldOrderFits(log[..|log| - 1]);
      AbsorbFits(FoldLog(log[..|log| - 1]), log[|log| - 1]);
    }
  }

  function Listed(f: Fold): seq<TimelineNode>
    requires OrderFits(f)
  {
    seq(|f.order|, i requires 0 <= i < |f.order| => assert f.order[i] in f.order; f.nodes[f.order[i]])
  }

  /** Insertion into a list sorted by index; equal indices keep their order, as in a stable sort. */
  function Place(sorted: seq<TimelineNode>, n: TimelineNode): seq<TimelineNode> {
    if sorted == [] || sorted[|sorted| - 1].index <= n.index then sorted + [n]
    else Place(sorted[..|sorted| - 1], n) + [sorted[|sorted| - 1]]
  }

  function SortByIndex(nodes: seq<TimelineNode>): seq<TimelineNode> {
    if nodes == [] then [] else Place(SortByIndex(nodes[..|nodes| - 1]), nodes[|nodes| - 1])
  }

  predicate Ascending(nodes: seq<TimelineNode>) {
    forall i, j :: 0 <= i < j < |nodes| ==> nodes[i].index <= nodes[j].index
  }

  lemma AscendingAppend(nodes: seq<TimelineNode>, n: TimelineNode)
    requires Ascending(nodes) && forall x :: x in multiset(nodes) ==> x.index <= n.index
    ensures Ascending(nodes + [n])
  {
    forall i | 0 <= i < |nodes| ensures nodes[i].index <= n.index {
      assert nodes[i] in multiset(nodes);
    }
  }

  lemma {:induction false} PlaceMembers(sorted: seq<TimelineNode>, n: TimelineNode)
    ensures multiset(Place(sorted, n)) == multiset(sorted) + multiset{n}
  {
    if sorted != [] {
      var front, last := sorted[..|sorted| - 1], sorted[|sorted| - 1];
      assert sorted == front + [last];
      PlaceMembers(front, n);
    }
  }

  lemma {:induction false} PlaceAscends(sorted: seq<TimelineNode>, n: TimelineNode)
    requires Ascending(sorted)
    ensures Ascending(Place(sorted, n))
  {
    if sorted == [] || sorted[|sorted| - 1].index <= n.index {
      forall x | x in multiset(sorted) ensures x.index <= n.index {
        assert x in sorted;
      }
      AscendingAppend(sorted, n);
    } else {
      var front, last := sorted[..|sorted| - 1], sorted[|sorted| - 1];
      assert forall i :: 0 <= i < |front| ==> front[i].index <= last.index;
      PlaceAscends(front, n);
      PlaceMembers(front, n);
      forall x | x in multiset(Place(front, n)) ensures x.index <= last.index {
        assert x == n || x in front;
      }
      AscendingAppend(Place(front, n), last);
    }
  }

  lemma {:induction false} SortByIndexSorts(nodes: seq<TimelineNode>)
    ensures Ascending(SortByIndex(nodes))
    ensures multiset(SortByIndex(nodes)) == multiset(nodes)
  {
    if nodes != [] {
      SortByIndexSorts(nodes[..|nodes| - 1]);
      PlaceAscends(SortByIndex(nodes[..|nodes| - 1]), nodes[|nodes| - 1]);
      PlaceMembers(SortByIndex(nodes[..|nodes| - 1]), nodes[|nodes| - 1]);
      assert nodes == nodes[..|nodes| - 1] + [nodes[|nodes| - 1]];
    }
  }

  /** The timeline the page shows for a log. */
  ghost function TimelineOf(log: seq<Event>): Timeline {
    FoldOrderFits(log);
    var f := FoldLog(log);
    Timeline(f.runStatus, SortByIndex(Listed(f)), f.pendingQuestion, f.terminal, f.lastSequence)
  }

  /** The loop as written: one pass with local variables, then a sort. */
  method DeriveTimeline(events: seq<Event>) returns (t: Timeline)
    ensures t == TimelineOf(events)
  {
    assert FoldLog([]) == START && events[..0] == [];
    hide FoldLog, SortByIndex, Listed, OrderFits, SkipOpenNodes;
    var nodes: map<NodeId, TimelineNode> := map[];
    var order: seq<NodeId> := [];
    var runStatus, pendingQuestion, terminal, last := RunQueued, None, false, 0;
    for k := 0 to |events|
      invariant FoldLog(events[..k]) == Fold(runStatus, nodes, order, pendingQuestion, terminal, last)
    {
      var e := events[k];
      FoldNext(events, k);
      if e.sequenceNo > last {
        last := e.sequenceNo;
      }
      if e.nodeId.Some? && e.nodeId.value !in nodes
         && e.kind in {NodeStarted, ContextLoaded, AgentStarted, ToolStarted, ToolCompleted, ArtifactCreated,
                       ClarificationRequested, ClarificationReceived, NodeCompleted, NodeFailed} {
        var index := if e.kind == NodeStarted && e.nodeIndex.Some? then e.nodeIndex.value else |nodes|;
        nodes := nodes[e.nodeId.value := TimelineNode(e.nodeId.value, index, Pending)];
        order := order + [e.nodeId.value];
      }
      match e.kind {
        case RunStarted =>
          runStatus := RunRunning;
        case NodeStarted =>
          if e.nodeId.Some? {
            nodes := nodes[e.nodeId.value := nodes[e.nodeId.value].(status := Running)];
          }
        case ClarificationRequested =>
          if e.nodeId.Some? {
            nodes := nodes[e.nodeId.value := nodes[e.nodeId.value].(status := Waiting)];
            pendingQuestion := e.nodeId;
          }
          runStatus := RunWaiting;
        case ClarificationReceived =>
          pendingQuestion := None;
          runStatus := RunQueued;
          if e.nodeId.Some? {
            nodes := nodes[e.nodeId.value := nodes[e.nodeId.value].(status := Running)];
          }
        case NodeCompleted =>
          if e.nodeId.Some? {
            nodes := nodes[e.nodeId.value := nodes[e.nodeId.value].(status := Succeeded)];
          }
        case NodeFailed =>
          if e.nodeId.Some? {
            nodes := nodes[e.nodeId.value := nodes[e.nodeId.value].(status := Failed)];
          }
        case RunCompleted =>
          runStatus, terminal := RunSucceeded, true;
        case RunFailedEvent =>
          runStatus, terminal := RunFailed, true;
        case RunCancelledEvent =>
          runStatus, terminal := RunCancelled, true;
          nodes := SkipOpenNodes(nodes);
        case _ =>
      }
    }
    assert events[..|events|] == events;
    FoldOrderFits(events);
    var f := Fold(runStatus, nodes, order, pendingQuestion, terminal, last);
    t := Timeline(runStatus, SortByIndex(Listed(f)), pendingQuestion, terminal, last);
  }
}
