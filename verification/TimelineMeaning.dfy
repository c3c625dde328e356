/** What the timeline shows, for any list of events at all: each part of it is settled by one event. */
module TimelineMeanings {
  import opened Options
  import opened RunStates
  import opened NodeIds
  import opened RunModel
  import opened Timelines

  /** The event makes the timeline list this node. */
  predicate Names(e: Event, id: NodeId) {
    e.nodeId == Some(id) && e.kind in {NodeStarted, ContextLoaded, AgentStarted, ToolStarted, ToolCompleted, ArtifactCreated,
                                       ClarificationRequested, ClarificationReceived, NodeCompleted, NodeFailed}
  }

  /** The status an event gives the node it names. */
  function Says(kind: EventType): Option<NodeState> {
    match kind
    case NodeStarted | ClarificationReceived => Some(Running)
    case ClarificationRequested => Some(Waiting)
    case NodeCompleted => Some(Succeeded)
    case NodeFailed => Some(Failed)
    case _ => None
  }

  predicate SaysOf(e: Event, id: NodeId) {
    Names(e, id) && Says(e.kind).Some?
  }

  predicate CancelledAfter(log: seq<Event>, k: int) {
    exists j :: 0 <= j < |log| && j > k && log[j].kind == RunCancelledEvent
  }

  /** Event k is the last that gives the node a status. */
  predicate LastSaid(log: seq<Event>, id: NodeId, k: int) {
    0 <= k < |log| && SaysOf(log[k], id) && forall j :: k < j < |log| ==> !SaysOf(log[j], id)
  }

  predicate FirstNamed(log: seq<Event>, id: NodeId, k: int) {
    0 <= k < |log| && Names(log[k], id) && forall j :: 0 <= j < k ==> !Names(log[j], id)
  }

  ghost predicate SaidMeans(log: seq<Event>, id: NodeId, status: NodeState, k: int) {
    LastSaid(log, id, k)
    && status == (if Says(log[k].kind) == Some(Waiting) && CancelledAfter(log, k) then Skipped else Says(log[k].kind).value)
  }

  ghost predicate MentionMeans(log: seq<Event>, id: NodeId, status: NodeState, k: int) {
    FirstNamed(log, id, k) && (forall j :: 0 <= j < |log| ==> !SaysOf(log[j], id))
    && status == (if CancelledAfter(log, k) then Skipped else Pending)
  }

  /** A node has the status the last event said, or is pending when none did; a cancellation after that
      skips it if it was pending or waiting. */
  ghost predicate StatusMeans(log: seq<Event>, id: NodeId, status: NodeState) {
    (exists k :: SaidMeans(log, id, status, k)) || exists k :: MentionMeans(log, id, status, k)
  }

  /** A node has the index that the first event naming it gives, if it is the event of its start and
      gives one; otherwise it is numbered by how many nodes were listed before. */
  ghost predicate IndexMeans(log: seq<Event>, id: NodeId, index: int) {
    exists k :: FirstNamed(log, id, k)
      && index == if log[k].kind == NodeStarted && log[k].nodeIndex.Some? then log[k].nodeIndex.value else |FoldLog(log[..k]).nodes|
  }

  predicate Named(log: seq<Event>, id: NodeId) {
    exists k :: 0 <= k < |log| && Names(log[k], id)
  }

  lemma FrontOf(log: seq<Event>, e: Event)
    ensures |log + [e]| == |log| + 1 && (log + [e])[|log|] == e && forall i :: 0 <= i < |log| ==> (log + [e])[i] == log[i]
  {
  }

  lemma NamedNext(log: seq<Event>, e: Event, id: NodeId)
    ensures Named(log + [e], id) <==> Named(log, id) || Names(e, id)
  {
    FrontOf(log, e);
    if k :| 0 <= k < |log| && Names(log[k], id) {
      assert Names((log + [e])[k], id);
    }
    if Names(e, id) {
      assert Names((log + [e])[|log|], id);
    }
  }

  lemma CancelledNext(log: seq<Event>, e: Event, k: int)
    requires k < |log|
    ensures CancelledAfter(log + [e], k) <==> CancelledAfter(log, k) || e.kind == RunCancelledEvent
  {
    FrontOf(log, e);
    if j :| 0 <= j < |log| && j > k && log[j].kind == RunCancelledEvent {
      assert (log + [e])[j].kind == RunCancelledEvent;
    }
    if e.kind == RunCancelledEvent {
      assert (log + [e])[|log|].kind == RunCancelledEvent;
    }
  }

  lemma SaidStays(log: seq<Event>, e: Event, id: NodeId, status: NodeState, k: int)
    requires SaidMeans(log, id, status, k) && !SaysOf(e, id)
    ensures SaidMeans(log + [e], id, if e.kind == RunCancelledEvent && status in {Pending, Waiting} then Skipped else status, k)
  {
    hide Names, CancelledAfter;
    FrontOf(log, e);
    CancelledNext(log, e, k);
    assert LastSaid(log + [e], id, k);
  }

  lemma MentionStays(log: seq<Event>, e: Event, id: NodeId, status: NodeState, k: int)
    requires MentionMeans(log, id, status, k) && !SaysOf(e, id)
    ensures MentionMeans(log + [e], id, if e.kind == RunCancelledEvent && status in {Pending, Waiting} then Skipped else status, k)
  {
    hide Names, CancelledAfter;
    FrontOf(log, e);
    CancelledNext(log, e, k);
    assert FirstNamed(log + [e], id, k);
  }

  /** One more event that says nothing of the node. */
  lemma SilentNext(log: seq<Event>, e: Event, id: NodeId, status: NodeState)
    requires StatusMeans(log, id, status) && !SaysOf(e, id)
    ensures StatusMeans(log + [e], id, if e.kind == RunCancelledEvent && status in {Pending, Waiting} then Skipped else status)
  {
    hide Names, LastSaid, FirstNamed, CancelledAfter, SaysOf, SaidMeans, MentionMeans;
    if k :| SaidMeans(log, id, status, k) {
      SaidStays(log, e, id, status, k);
    } else {
      var k :| MentionMeans(log, id, status, k);
      MentionStays(log, e, id, status, k);
    }
  }

  /** An event that says something of the node. */
  lemma SaidNext(log: seq<Event>, e: Event, id: NodeId)
    requires SaysOf(e, id)
    ensures StatusMeans(log + [e], id, Says(e.kind).value)
  {
    FrontOf(log, e);
    assert LastSaid(log + [e], id, |log|) && !CancelledAfter(log + [e], |log|);
    assert SaidMeans(log + [e], id, Says(e.kind).value, |log|);
  }

  /** An event that names the node first and says nothing. */
  lemma MentionedNext(log: seq<Event>, e: Event, id: NodeId)
    requires Names(e, id) && !SaysOf(e, id) && !Named(log, id)
    ensures StatusMeans(log + [e], id, Pending)
  {
    FrontOf(log, e);
    assert forall j :: 0 <= j < |log| ==> !Names(log[j], id);
    assert FirstNamed(log + [e], id, |log|) && !CancelledAfter(log + [e], |log|);
    assert MentionMeans(log + [e], id, Pending, |log|);
  }

  lemma IndexNext(log: seq<Event>, e: Event, id: NodeId, index: int)
    requires IndexMeans(log, id, index)
    ensures IndexMeans(log + [e], id, index)
  {
    FrontOf(log, e);
    hide FoldLog, Names;
    var k :| FirstNamed(log, id, k)
      && index == if log[k].kind == NodeStarted && log[k].nodeIndex.Some? then log[k].nodeIndex.value else |FoldLog(log[..k]).nodes|;
    assert (log + [e])[..k] == log[..k];
    assert FirstNamed(log + [e], id, k);
  }

  lemma FirstIndex(log: seq<Event>, e: Event, id: NodeId)
    requires Names(e, id) && !Named(log, id)
    ensures IndexMeans(log + [e], id,
      if e.kind == NodeStarted && e.nodeIndex.Some? then e.nodeIndex.value else |FoldLog(log).nodes|)
  {
    FrontOf(log, e);
    hide FoldLog;
    assert forall j :: 0 <= j < |log| ==> !Names(log[j], id);
    assert (log + [e])[..|log|] == log;
    assert FirstNamed(log + [e], id, |log|);
  }

  function IndexIn(e: Event): Option<int> {
    if e.kind == NodeStarted then e.nodeIndex else None
  }

  lemma AbsorbNodes(f: Fold, e: Event)
    ensures Absorb(f, e).nodes ==
      if e.kind == RunCancelledEvent then SkipOpenNodes(f.nodes)
      else if e.nodeId.Some? && Names(e, e.nodeId.value) then
        if Says(e.kind).Some? then Mark(f, e.nodeId.value, IndexIn(e), Says(e.kind).value).nodes
        else Touch(f, e.nodeId.value, None).nodes
      else f.nodes
  {
    hide SkipOpenNodes, Mark, Touch;
    if e.nodeId.Some? {
      var id, g := e.nodeId.value, f.(lastSequence := if e.sequenceNo > f.lastSequence then e.sequenceNo else f.lastSequence);
      OnlyNodesMatter(f, g, id);
      OnlyNodesMatter(f, g.(pendingQuestion := None, runStatus := RunQueued), id);
    }
  }

  lemma OnlyNodesMatter(f: Fold, g: Fold, id: NodeId)
    requires g.nodes == f.nodes
    ensures forall index :: Touch(g, id, index).nodes == Touch(f, id, index).nodes
    ensures forall index, status :: Mark(g, id, index, status).nodes == Mark(f, id, index, status).nodes
  {
  }

  /** One event's effect on the nodes. */
  lemma AbsorbNode(f: Fold, e: Event, id: NodeId)
    ensures var g := Absorb(f, e);
      && (id in g.nodes <==> id in f.nodes || Names(e, id))
      && (id in f.nodes ==>
            g.nodes[id].index == f.nodes[id].index
            && g.nodes[id].status == (if SaysOf(e, id) then Says(e.kind).value
                                      else if e.kind == RunCancelledEvent && f.nodes[id].status in {Pending, Waiting} then Skipped
                                      else f.nodes[id].status))
      && (id !in f.nodes && Names(e, id) ==>
            g.nodes[id].index == (if e.kind == NodeStarted && e.nodeIndex.Some? then e.nodeIndex.value else |f.nodes|)
            && g.nodes[id].status == (if SaysOf(e, id) then Says(e.kind).value else Pending))
  {
    hide Absorb, Names, Says;
    AbsorbNodes(f, e);
    NamesOnly(e, id);
  }

  lemma NamesOnly(e: Event, id: NodeId)
    ensures Names(e, id) ==> e.nodeId == Some(id) && e.kind != RunCancelledEvent
    ensures e.nodeId == Some(id) && Names(e, e.nodeId.value) ==> Names(e, id)
    ensures e.kind == NodeStarted ==> Says(e.kind) == Some(Running)
  {
  }

  /** The nodes of the timeline of any events: those named, each with the index its first mention gives
      and the status the last word about it gives. */
  lemma {:induction false} NodesMean(log: seq<Event>, id: NodeId)
    ensures id in FoldLog(log).nodes <==> Named(log, id)
    ensures id in FoldLog(log).nodes ==>
      IndexMeans(log, id, FoldLog(log).nodes[id].index) && StatusMeans(log, id, FoldLog(log).nodes[id].status)
  {
    hide StatusMeans, IndexMeans, Named, Absorb, Names, SaysOf;
    if log == [] {
      NothingNamed(id);
    } else {
      var front, e := log[..|log| - 1], log[|log| - 1];
      assert log == front + [e];
      NodesMean(front, id);
      AbsorbNode(FoldLog(front), e, id);
      NamedNext(front, e, id);
      if Named(front, id) {
        IndexNext(front, e, id, FoldLog(front).nodes[id].index);
        if SaysOf(e, id) {
          SaidNext(front, e, id);
        } else {
          SilentNext(front, e, id, FoldLog(front).nodes[id].status);
        }
      } else if Names(e, id) {
        FirstIndex(front, e, id);
        if SaysOf(e, id) {
          SaidNext(front, e, id);
        } else {
          MentionedNext(front, e, id);
        }
      }
    }
  }

  lemma NothingNamed(id: NodeId)
    ensures id !in FoldLog([]).nodes && !Named([], id)
  {
  }

  // ----- the rest of the timeline -----

  /** The status of the run that an event of this kind announces. */
  function Announces(kind: EventType): Option<RunState> {
    match kind
    case RunStarted => Some(RunRunning)
    case ClarificationRequested => Some(RunWaiting)
    case ClarificationReceived => Some(RunQueued)
    case RunCompleted => Some(RunSucceeded)
    case RunFailedEvent => Some(RunFailed)
    case RunCancelledEvent => Some(RunCancelled)
    case _ => None
  }

  predicate LastAnnounced(log: seq<Event>, k: int) {
    0 <= k < |log| && Announces(log[k].kind).Some? && forall j :: k < j < |log| ==> Announces(log[j].kind).None?
  }

  ghost predicate RunMeans(log: seq<Event>, status: RunState) {
    || (exists k :: LastAnnounced(log, k) && Announces(log[k].kind) == Some(status))
    || ((forall j :: 0 <= j < |log| ==> Announces(log[j].kind).None?) && status == RunQueued)
  }

  /** Questions open with an event that names the asking node and close with any answer. */
  predicate AboutQuestion(e: Event) {
    e.kind == ClarificationReceived || (e.kind == ClarificationRequested && e.nodeId.Some?)
  }

  predicate LastAboutQuestion(log: seq<Event>, k: int) {
    0 <= k < |log| && AboutQuestion(log[k]) && forall j :: k < j < |log| ==> !AboutQuestion(log[j])
  }

  ghost predicate QuestionMeans(log: seq<Event>, question: Option<NodeId>) {
    || (exists k :: LastAboutQuestion(log, k) && question == if log[k].kind == ClarificationReceived then None else log[k].nodeId)
    || ((forall j :: 0 <= j < |log| ==> !AboutQuestion(log[j])) && question == None)
  }

  predicate Ends(kind: EventType) {
    kind in {RunCompleted, RunFailedEvent, RunCancelledEvent}
  }

  predicate HighestNumber(log: seq<Event>, n: nat) {
    && (forall j :: 0 <= j < |log| ==> log[j].sequenceNo <= n)
    && (n == 0 || exists j :: 0 <= j < |log| && log[j].sequenceNo == n)
  }

  lemma AbsorbFlags(f: Fold, e: Event)
    ensures var g := Absorb(f, e);
      && g.runStatus == (if Announces(e.kind).Some? then Announces(e.kind).value else f.runStatus)
      && g.pendingQuestion ==
         (if AboutQuestion(e) then if e.kind == ClarificationReceived then None else e.nodeId else f.pendingQuestion)
      && (g.terminal <==> f.terminal || Ends(e.kind))
      && g.lastSequence == (if e.sequenceNo > f.lastSequence then e.sequenceNo else f.lastSequence)
  {
    hide SkipOpenNodes, Mark, Touch;
    FlagsStay();
  }

  lemma FlagsStay()
    ensures forall f, id, index, status :: SameFlags(f, Mark(f, id, index, status))
    ensures forall f, id, index :: SameFlags(f, Touch(f, id, index))
  {
  }

  predicate SameFlags(f: Fold, g: Fold) {
    g.runStatus == f.runStatus && g.pendingQuestion == f.pendingQuestion && g.terminal == f.terminal && g.lastSequence == f.lastSequence
  }

  lemma RunNext(log: seq<Event>, e: Event, status: RunState)
    requires RunMeans(log, status)
    ensures RunMeans(log + [e], if Announces(e.kind).Some? then Announces(e.kind).value else status)
  {
    FrontOf(log, e);
    if Announces(e.kind).Some? {
      assert LastAnnounced(log + [e], |log|);
    } else if k :| LastAnnounced(log, k) && Announces(log[k].kind) == Some(status) {
      assert LastAnnounced(log + [e], k);
    }
  }

  lemma QuestionNext(log: seq<Event>, e: Event, question: Option<NodeId>)
    requires QuestionMeans(log, question)
    ensures QuestionMeans(log + [e],
      if AboutQuestion(e) then if e.kind == ClarificationReceived then None else e.nodeId else question)
  {
    FrontOf(log, e);
    if AboutQuestion(e) {
      assert LastAboutQuestion(log + [e], |log|);
    } else if k :| LastAboutQuestion(log, k) && question == if log[k].kind == ClarificationReceived then None else log[k].nodeId {
      assert LastAboutQuestion(log + [e], k);
    }
  }

  predicate SomeEnd(log: seq<Event>) {
    exists j :: 0 <= j < |log| && Ends(log[j].kind)
  }

  lemma EndNext(log: seq<Event>, e: Event)
    ensures SomeEnd(log + [e]) <==> SomeEnd(log) || Ends(e.kind)
  {
    FrontOf(log, e);
    if j :| 0 <= j < |log| && Ends(log[j].kind) {
      assert Ends((log + [e])[j].kind);
    }
    assert Ends(e.kind) ==> Ends((log + [e])[|log|].kind);
  }

  lemma NumberNext(log: seq<Event>, e: Event, n: nat)
    requires HighestNumber(log, n)
    ensures HighestNumber(log + [e], if e.sequenceNo > n then e.sequenceNo else n)
  {
    FrontOf(log, e);
    if e.sequenceNo > n {
      assert (log + [e])[|log|].sequenceNo == e.sequenceNo;
    } else if j :| 0 <= j < |log| && log[j].sequenceNo == n {
      assert (log + [e])[j].sequenceNo == n;
    }
  }

  /** Status, question, end and resume point of any events: the last event that announces a status, the
      last that is about a question, whether any ends the run, and the highest number. */
  lemma {:induction false} FlagsMean(log: seq<Event>)
    ensures RunMeans(log, TimelineOf(log).runStatus) && QuestionMeans(log, TimelineOf(log).pendingQuestion)
    ensures TimelineOf(log).terminal <==> SomeEnd(log)
    ensures HighestNumber(log, TimelineOf(log).lastSequence)
  {
    hide RunMeans, QuestionMeans, SomeEnd, HighestNumber, Absorb, SortByIndex;
    if log == [] {
      NothingMeant();
    } else {
      var front, e := log[..|log| - 1], log[|log| - 1];
      assert log == front + [e];
      FlagsMean(front);
      AbsorbFlags(FoldLog(front), e);
      RunNext(front, e, FoldLog(front).runStatus);
      QuestionNext(front, e, FoldLog(front).pendingQuestion);
      EndNext(front, e);
      NumberNext(front, e, FoldLog(front).lastSequence);
    }
  }

  lemma NothingMeant()
    ensures RunMeans([], RunQueued) && QuestionMeans([], None) && !SomeEnd([]) && HighestNumber([], 0)
  {
  }
}
