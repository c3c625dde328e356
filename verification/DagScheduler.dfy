/** Batches of a workflow graph, level by level, by counting predecessors. */
module DagScheduler {
  import opened Options
  import opened Graphs

  datatype PlanError = UnknownEndpoint | CyclicWorkflow

  /** Edges into v whose source has not been processed, with multiplicity. */
  function Incoming(edges: seq<Edge>, done: set<Id>, v: Id): nat {
    if edges == [] then 0
    else
      var last := edges[|edges| - 1];
      Incoming(edges[..|edges| - 1], done, v) + (if last.target == v && last.source !in done then 1 else 0)
  }

  /** The targets of u's edges, in edge order. */
  function Targets(edges: seq<Edge>, u: Id): seq<Id> {
    if edges == [] then []
    else
      var last := edges[|edges| - 1];
      Targets(edges[..|edges| - 1], u) + (if last.source == u then [last.target] else [])
  }

  function Times(s: seq<Id>, v: Id): nat {
    multiset(s)[v]
  }

  predicate EndpointsKnown(ids: seq<Id>, edges: seq<Edge>) {
    forall i :: 0 <= i < |edges| ==> edges[i].source in ids && edges[i].target in ids
  }

  lemma {:induction false} TargetsAreEdges(edges: seq<Edge>, u: Id, v: Id)
    ensures v in Targets(edges, u) <==> HasEdge(edges, u, v)
  {
    if edges != [] {
      TargetsAreEdges(edges[..|edges| - 1], u, v);
      assert edges == edges[..|edges| - 1] + [edges[|edges| - 1]];
    }
  }

  /** Processing u removes exactly its own edges from the count. */
  lemma {:induction false} ProcessOne(edges: seq<Edge>, done: set<Id>, u: Id, v: Id)
    requires u !in done
    ensures Incoming(edges, done + {u}, v) + Times(Targets(edges, u), v) == Incoming(edges, done, v)
  {
    if edges != [] {
      ProcessOne(edges[..|edges| - 1], done, u, v);
    }
  }

  lemma {:induction false} IncomingMeans(edges: seq<Edge>, done: set<Id>, v: Id)
    ensures Incoming(edges, done, v) == 0 <==> forall u :: HasEdge(edges, u, v) ==> u in done
  {
    if edges != [] {
      var front, last := edges[..|edges| - 1], edges[|edges| - 1];
      IncomingMeans(front, done, v);
      assert edges == front + [last];
      assert forall u :: HasEdge(edges, u, v) <==> HasEdge(front, u, v) || last == Edge(u, v);
      if last.target == v && last.source !in done {
        assert HasEdge(edges, last.source, v);
      }
    }
  }

  lemma {:induction false} IncomingOfNothing(edges: seq<Edge>, done: set<Id>, v: Id)
    requires forall i :: 0 <= i < |edges| ==> edges[i].target != v
    ensures Incoming(edges, done, v) == 0
  {
    if edges != [] {
      IncomingOfNothing(edges[..|edges| - 1], done, v);
    }
  }

  // ----- the state of the algorithm between batches -----

  /** `level` holds, once each, exactly the unprocessed nodes that wait for nothing. */
  ghost predicate LevelIs(ids: seq<Id>, edges: seq<Edge>, done: set<Id>, level: seq<Id>) {
    && Distinct(level)
    && forall v :: v in level <==> v in ids && v !in done && Incoming(edges, done, v) == 0
  }

  predicate CountersAre(ids: seq<Id>, edges: seq<Edge>, done: set<Id>, indegree: map<Id, int>) {
    && indegree.Keys == Members(ids)
    && forall v :: v in indegree ==> indegree[v] == Incoming(edges, done, v)
  }

  function Flatten(batches: seq<seq<Id>>): seq<Id> {
    if batches == [] then [] else Flatten(batches[..|batches| - 1]) + batches[|batches| - 1]
  }

  /** The processed nodes are the batches so far, each node in the batch of its longest walk. */
  ghost predicate BatchesAre(edges: seq<Edge>, done: set<Id>, batches: seq<seq<Id>>) {
    && Members(Flatten(batches)) == done
    && Distinct(Flatten(batches))
    && (forall k :: 0 <= k < |batches| ==> batches[k] != [] && forall v :: v in batches[k] ==> Longest(edges, v, k))
    && (forall v :: v in done ==> AtMost(edges, v, |batches| - 1))
  }

  ghost predicate Ready(edges: seq<Edge>, level: seq<Id>, k: nat) {
    forall v :: v in level ==> Longest(edges, v, k)
  }

  lemma DistinctConcat(a: seq<Id>, b: seq<Id>)
    requires Distinct(a) && Distinct(b) && forall v :: v in b ==> v !in a
    ensures Distinct(a + b)
  {
    forall i, j | 0 <= i < j < |a + b| ensures (a + b)[i] != (a + b)[j] {
      if i < |a| <= j {
        assert b[j - |a|] in b && a[i] in a;
      }
    }
  }

  /** A whole level becomes the next batch. */
  lemma BatchAdded(ids: seq<Id>, edges: seq<Edge>, done: set<Id>, level: seq<Id>, batches: seq<seq<Id>>)
    requires LevelIs(ids, edges, done, level) && BatchesAre(edges, done, batches) && level != []
    requires Ready(edges, level, |batches|)
    ensures BatchesAre(edges, done + Members(level), batches + [level])
  {
    var more := batches + [level];
    assert more[..|more| - 1] == batches;
    assert Flatten(more) == Flatten(batches) + level;
    forall v | v in level ensures v !in Flatten(batches) {
      assert v in Flatten(batches) ==> v in Members(Flatten(batches));
    }
    DistinctConcat(Flatten(batches), level);
    assert Members(Flatten(more)) == done + Members(level);
    forall v | v in done + Members(level) ensures AtMost(edges, v, |more| - 1) {
      if v in done {
        assert AtMost(edges, v, |batches| - 1);
      }
    }
  }

  /** Every predecessor of a processed node was processed. */
  predicate Closed(edges: seq<Edge>, done: set<Id>) {
    forall v :: v in done ==> Incoming(edges, done, v) == 0
  }

  // ----- inside a batch -----

  /** The counters while a batch is being processed: `gone` are the sources already taken off, and
      `partial` the targets of the current source taken off so far. */
  predicate CountersMid(edges: seq<Edge>, gone: set<Id>, partial: seq<Id>, indegree: map<Id, int>) {
    forall v :: v in indegree ==> indegree[v] == Incoming(edges, gone, v) - Times(partial, v)
  }

  /** The next level: nodes outside the batch whose counter is zero; each was released by it. */
  ghost predicate NextIs(edges: seq<Edge>, done: set<Id>, batch: seq<Id>, indegree: map<Id, int>, next: seq<Id>) {
    && Distinct(next)
    && (forall v :: v in next <==> v in indegree && v !in done && v !in batch && indegree[v] == 0)
    && (forall v :: v in next ==> exists u :: u in batch && HasEdge(edges, u, v))
  }

  /** A target of a batch node is neither processed nor in the batch, and still counted. */
  lemma TargetIsLater(edges: seq<Edge>, done: set<Id>, batch: seq<Id>, u: Id, c: Id)
    requires Closed(edges, done) && u in batch && u !in done && HasEdge(edges, u, c)
    requires forall v :: v in batch ==> Incoming(edges, done, v) == 0
    ensures c !in done && c !in batch
  {
    IncomingMeans(edges, done, c);
  }

  lemma {:induction false} TimesGrows(s: seq<Id>, j: nat, v: Id)
    requires j < |s|
    ensures Times(s[..j + 1], v) == Times(s[..j], v) + (if s[j] == v then 1 else 0)
    ensures Times(s[..j + 1], v) <= Times(s, v)
  {
    assert s[..j + 1] == s[..j] + [s[j]];
    assert s == s[..j + 1] + s[j + 1..];
  }

  /** The counter of a target is positive just before it is decremented. */
  lemma CounterPositive(edges: seq<Edge>, gone: set<Id>, u: Id, j: nat, indegree: map<Id, int>)
    requires u !in gone && j < |Targets(edges, u)| && Targets(edges, u)[j] in indegree
    requires CountersMid(edges, gone, Targets(edges, u)[..j], indegree)
    ensures indegree[Targets(edges, u)[j]] >= 1
  {
    var c := Targets(edges, u)[j];
    TimesGrows(Targets(edges, u), j, c);
    ProcessOne(edges, gone, u, c);
  }

  /** Takes one source off the counters of its targets; targets that reach zero join the level. */
  method Release(edges: seq<Edge>, ghost done: set<Id>, ghost batch: seq<Id>, ghost gone: set<Id>, u: Id,
                 children: seq<Id>, counters: map<Id, int>, level: seq<Id>)
    returns (indegree: map<Id, int>, next: seq<Id>)
    requires children == Targets(edges, u) && forall c :: c in children ==> c in counters
    requires u in batch && u !in done && u !in gone && Closed(edges, done)
    requires forall v :: v in batch ==> Incoming(edges, done, v) == 0
    requires CountersMid(edges, gone, [], counters) && NextIs(edges, done, batch, counters, level)
    ensures indegree.Keys == counters.Keys
    ensures CountersMid(edges, gone + {u}, [], indegree) && NextIs(edges, done, batch, indegree, next)
  {
    hide HalfReleased, CountersMid, NextIs, Closed, Targets;
    indegree, next := counters, level;
    ReleaseStarts(edges, done, batch, gone, children, counters, level);
    for j := 0 to |children|
      invariant HalfReleased(edges, done, batch, gone, children, j, counters, indegree, next)
    {
      var c := children[j];
      HalfReleasedNext(edges, done, batch, gone, u, children, j, counters, indegree, next);
      indegree := indegree[c := indegree[c] - 1];
      if indegree[c] == 0 {
        next := next + [c];
      }
    }
    ReleaseEnds(edges, done, batch, gone, u, children, counters, indegree, next);
  }

  /** The first j targets have been counted down. */
  ghost predicate HalfReleased(edges: seq<Edge>, done: set<Id>, batch: seq<Id>, gone: set<Id>, children: seq<Id>, j: nat,
                               counters: map<Id, int>, indegree: map<Id, int>, next: seq<Id>) {
    && j <= |children| && indegree.Keys == counters.Keys
    && CountersMid(edges, gone, children[..j], indegree) && NextIs(edges, done, batch, indegree, next)
  }

  lemma ReleaseStarts(edges: seq<Edge>, done: set<Id>, batch: seq<Id>, gone: set<Id>, children: seq<Id>,
                      counters: map<Id, int>, level: seq<Id>)
    requires CountersMid(edges, gone, [], counters) && NextIs(edges, done, batch, counters, level)
    ensures HalfReleased(edges, done, batch, gone, children, 0, counters, counters, level)
  {
    assert children[..0] == [];
  }

  lemma HalfReleasedNext(edges: seq<Edge>, done: set<Id>, batch: seq<Id>, gone: set<Id>, u: Id, children: seq<Id>, j: nat,
                         counters: map<Id, int>, indegree: map<Id, int>, next: seq<Id>)
    requires HalfReleased(edges, done, batch, gone, children, j, counters, indegree, next)
    requires j < |children| && children == Targets(edges, u) && children[j] in counters
    requires u in batch && u !in done && u !in gone && Closed(edges, done)
    requires forall v :: v in batch ==> Incoming(edges, done, v) == 0
    ensures var c := children[j];
      c in indegree
      && HalfReleased(edges, done, batch, gone, children, j + 1, counters, indegree[c := indegree[c] - 1],
                      if indegree[c] == 1 then next + [c] else next)
  {
    var c := children[j];
    TargetsAreEdges(edges, u, c);
    hide CountersMid, NextIs, Targets, HasEdge, Incoming;
    TargetIsLater(edges, done, batch, u, c);
    hide Closed;
    CounterPositive(edges, gone, u, j, indegree);
    CountersNext(edges, gone, children, j, indegree);
    NextGrows(edges, done, batch, indegree, next, u, c);
  }

  lemma ReleaseEnds(edges: seq<Edge>, done: set<Id>, batch: seq<Id>, gone: set<Id>, u: Id, children: seq<Id>,
                    counters: map<Id, int>, indegree: map<Id, int>, next: seq<Id>)
    requires HalfReleased(edges, done, batch, gone, children, |children|, counters, indegree, next)
    requires children == Targets(edges, u) && u !in gone
    ensures indegree.Keys == counters.Keys
    ensures CountersMid(edges, gone + {u}, [], indegree) && NextIs(edges, done, batch, indegree, next)
  {
    hide CountersMid, NextIs;
    assert children[..|children|] == children;
    SourceGone(edges, gone, u, indegree);
  }

  lemma CountersNext(edges: seq<Edge>, gone: set<Id>, children: seq<Id>, j: nat, indegree: map<Id, int>)
    requires j < |children| && children[j] in indegree && CountersMid(edges, gone, children[..j], indegree)
    ensures CountersMid(edges, gone, children[..j + 1], indegree[children[j] := indegree[children[j]] - 1])
  {
    forall v | v in indegree ensures Times(children[..j + 1], v) == Times(children[..j], v) + (if children[j] == v then 1 else 0) {
      TimesGrows(children, j, v);
    }
  }

  lemma SourceGone(edges: seq<Edge>, gone: set<Id>, u: Id, indegree: map<Id, int>)
    requires u !in gone && CountersMid(edges, gone, Targets(edges, u), indegree)
    ensures CountersMid(edges, gone + {u}, [], indegree)
  {
    forall v | v in indegree ensures indegree[v] == Incoming(edges, gone + {u}, v) - Times([], v) {
      ProcessOne(edges, gone, u, v);
    }
  }

  lemma NextGrows(edges: seq<Edge>, done: set<Id>, batch: seq<Id>, indegree: map<Id, int>, next: seq<Id>, u: Id, c: Id)
    requires NextIs(edges, done, batch, indegree, next)
    requires c in indegree && indegree[c] >= 1 && c !in done && c !in batch && u in batch && HasEdge(edges, u, c)
    ensures NextIs(edges, done, batch, indegree[c := indegree[c] - 1], if indegree[c] == 1 then next + [c] else next)
  {
    DistinctConcat(next, [c]);
  }

  /** Processes a whole batch. */
  method ReleaseBatch(ids: seq<Id>, edges: seq<Edge>, ghost done: set<Id>, batch: seq<Id>,
                      children: map<Id, seq<Id>>, counters: map<Id, int>)
    returns (indegree: map<Id, int>, next: seq<Id>)
    requires EndpointsKnown(ids, edges) && Closed(edges, done)
    requires LevelIs(ids, edges, done, batch) && CountersAre(ids, edges, done, counters)
    requires ChildrenAre(edges, children)
    ensures CountersAre(ids, edges, done + Members(batch), indegree)
    ensures NextIs(edges, done, batch, indegree, next)
  {
    indegree, next := counters, [];
    NothingReleasedYet(ids, edges, done, batch, counters);
    assert counters.Keys == Members(ids);
    hide CountersMid, NextIs, Closed, EndpointsKnown, Incoming, Targets, HasEdge, Members, LevelIs, CountersAre, Distinct;
    for i := 0 to |batch|
      invariant indegree.Keys == counters.Keys
      invariant CountersMid(edges, done + Members(batch[..i]), [], indegree)
      invariant NextIs(edges, done, batch, indegree, next)
    {
      var u := batch[i];
      BatchMember(ids, edges, done, batch, i);
      var targets := if u in children then children[u] else [];
      TargetsCounted(ids, edges, u, targets, counters);
      indegree, next := Release(edges, done, batch, done + Members(batch[..i]), u, targets, indegree, next);
    }
    NoneHalfTaken(ids, edges, done, batch, indegree);
  }

  lemma BatchMember(ids: seq<Id>, edges: seq<Edge>, done: set<Id>, batch: seq<Id>, i: nat)
    requires i < |batch| && LevelIs(ids, edges, done, batch)
    ensures batch[i] in batch && batch[i] !in done && batch[i] !in done + Members(batch[..i])
    ensures forall v :: v in batch ==> Incoming(edges, done, v) == 0
    ensures done + Members(batch[..i]) + {batch[i]} == done + Members(batch[..i + 1])
  {
  }

  lemma TargetsCounted(ids: seq<Id>, edges: seq<Edge>, u: Id, targets: seq<Id>, counters: map<Id, int>)
    requires EndpointsKnown(ids, edges) && targets == Targets(edges, u) && counters.Keys == Members(ids)
    ensures forall c :: c in targets ==> c in counters
  {
    forall c | c in targets ensures c in counters {
      TargetsAreEdges(edges, u, c);
      assert c in Members(ids);
    }
  }

  lemma NoneHalfTaken(ids: seq<Id>, edges: seq<Edge>, done: set<Id>, batch: seq<Id>, indegree: map<Id, int>)
    requires indegree.Keys == Members(ids) && CountersMid(edges, done + Members(batch[..|batch|]), [], indegree)
    ensures CountersAre(ids, edges, done + Members(batch), indegree)
  {
    assert batch[..|batch|] == batch;
  }

  lemma NothingReleasedYet(ids: seq<Id>, edges: seq<Edge>, done: set<Id>, batch: seq<Id>, counters: map<Id, int>)
    requires LevelIs(ids, edges, done, batch) && CountersAre(ids, edges, done, counters)
    ensures NextIs(edges, done, batch, counters, [])
    ensures CountersMid(edges, done + Members(batch[..0]), [], counters)
  {
    assert done + Members(batch[..0]) == done;
  }

  /** What the next level is, and that it is ready to become the next batch. */
  lemma NextLevel(ids: seq<Id>, edges: seq<Edge>, done: set<Id>, batch: seq<Id>, batches: seq<seq<Id>>, indegree: map<Id, int>, next: seq<Id>)
    requires LevelIs(ids, edges, done, batch) && Ready(edges, batch, |batches|)
    requires BatchesAre(edges, done + Members(batch), batches + [batch])
    requires CountersAre(ids, edges, done + Members(batch), indegree) && NextIs(edges, done, batch, indegree, next)
    ensures LevelIs(ids, edges, done + Members(batch), next) && Ready(edges, next, |batches| + 1)
  {
    forall v | v in next ensures Longest(edges, v, |batches| + 1) {
      IncomingMeans(edges, done + Members(batch), v);
      BoundFromPredecessors(edges, v, |batches| + 1);
      var u :| u in batch && HasEdge(edges, u, v);
      ExtendWalk(edges, u, v, |batches|);
    }
  }

  lemma {:induction false} FewerWait(edges: seq<Edge>, done: set<Id>, more: set<Id>, v: Id)
    requires done <= more
    ensures Incoming(edges, more, v) <= Incoming(edges, done, v)
  {
    if edges != [] {
      FewerWait(edges[..|edges| - 1], done, more, v);
    }
  }

  lemma StaysClosed(ids: seq<Id>, edges: seq<Edge>, done: set<Id>, batch: seq<Id>)
    requires Closed(edges, done) && LevelIs(ids, edges, done, batch)
    ensures Closed(edges, done + Members(batch))
  {
    forall v | v in done + Members(batch) ensures Incoming(edges, done + Members(batch), v) == 0 {
      FewerWait(edges, done, done + Members(batch), v);
    }
  }

  // ----- the two ways to end -----

  /** With nothing left to release, what is left is a set in which everything waits for something. */
  lemma NothingLeftMeansStuck(ids: seq<Id>, edges: seq<Edge>, done: set<Id>)
    requires EndpointsKnown(ids, edges) && LevelIs(ids, edges, done, []) && done < Members(ids)
    ensures Cyclic(edges)
  {
    var rest := Members(ids) - done;
    forall v | v in rest ensures HasPredecessorIn(edges, rest, v) {
      IncomingMeans(edges, done, v);
      assert v !in [];
      var u :| HasEdge(edges, u, v) && u !in done;
      assert u in rest;
    }
    var w :| w in Members(ids) && w !in done;
    assert w in rest;
    StuckSetHasCycle(edges, rest);
  }

  lemma AllDoneMeansAcyclic(ids: seq<Id>, edges: seq<Edge>, batches: seq<seq<Id>>)
    requires EndpointsKnown(ids, edges) && BatchesAre(edges, Members(ids), batches)
    ensures !Cyclic(edges)
  {
    if Cyclic(edges) {
      var p :| Walk(edges, p) && |p| >= 2 && p[0] == p[|p| - 1];
      assert HasEdge(edges, p[0], p[0 + 1]);
      assert p[0] in Members(ids);
      CycleHasNoBound(edges, p, |batches| - 1);
    }
  }

  /** What a successful plan is: every node exactly once, and in the batch whose number is the
      length of its longest incoming walk. */
  ghost predicate IsPlan(ids: seq<Id>, edges: seq<Edge>, batches: seq<seq<Id>>) {
    && Distinct(Flatten(batches)) && Members(Flatten(batches)) == Members(ids) && |Flatten(batches)| == |ids|
    && forall k :: 0 <= k < |batches| ==> batches[k] != [] && forall v :: v in batches[k] ==> Longest(edges, v, k)
  }

  ghost predicate ChildrenAre(edges: seq<Edge>, children: map<Id, seq<Id>>) {
    forall u :: Targets(edges, u) == (if u in children then children[u] else [])
  }

  lemma EdgeCounted(ids: seq<Id>, edges: seq<Edge>, e: Edge, indegree: map<Id, int>)
    requires CountersAre(ids, edges, {}, indegree) && e.target in indegree
    ensures CountersAre(ids, edges + [e], {}, indegree[e.target := indegree[e.target] + 1])
  {
    assert (edges + [e])[..|edges|] == edges;
  }

  lemma EdgeListed(edges: seq<Edge>, e: Edge, children: map<Id, seq<Id>>)
    requires ChildrenAre(edges, children)
    ensures ChildrenAre(edges + [e], children[e.source := (if e.source in children then children[e.source] else []) + [e.target]])
  {
    assert (edges + [e])[..|edges|] == edges;
  }

  /** The scheduler. It refuses edges with unknown endpoints, and reports a cycle exactly when there
      is one (self-loops included) or when two nodes share an id. */
  method Plan(ids: seq<Id>, edges: seq<Edge>) returns (r: Result<seq<seq<Id>>, PlanError>)
    ensures r == Err(UnknownEndpoint) <==> !EndpointsKnown(ids, edges)
    ensures EndpointsKnown(ids, edges) ==> (r == Err(CyclicWorkflow) <==> Cyclic(edges) || !Distinct(ids))
    ensures r.Ok? ==> IsPlan(ids, edges, r.value)
  {
    var indegree: map<Id, int> := map v | v in ids :: 0;
    var children: map<Id, seq<Id>> := map[];
    for k := 0 to |edges|
      invariant EndpointsKnown(ids, edges[..k])
      invariant CountersAre(ids, edges[..k], {}, indegree)
      invariant ChildrenAre(edges[..k], children)
    {
      var e := edges[k];
      if e.source !in indegree || e.target !in indegree {
        return Err(UnknownEndpoint);
      }
      EdgeCounted(ids, edges[..k], e, indegree);
      EdgeListed(edges[..k], e, children);
      assert edges[..k + 1] == edges[..k] + [e];
      children := children[e.source := (if e.source in children then children[e.source] else []) + [e.target]];
      indegree := indegree[e.target := indegree[e.target] + 1];
    }
    assert edges[..|edges|] == edges;
    r := Levels(ids, edges, children, indegree);
  }

  /** The nodes without incoming edges, in the order of the node list. */
  method Roots(ids: seq<Id>, edges: seq<Edge>, indegree: map<Id, int>) returns (level: seq<Id>)
    requires CountersAre(ids, edges, {}, indegree)
    ensures LevelIs(ids, edges, {}, level)
  {
    level := [];
    for k := 0 to |ids|
      invariant Distinct(level)
      invariant forall v :: v in level <==> v in ids[..k] && indegree[v] == 0
    {
      if indegree[ids[k]] == 0 && ids[k] !in level {
        DistinctConcat(level, [ids[k]]);
        level := level + [ids[k]];
      }
    }
  }

  lemma RootsReady(ids: seq<Id>, edges: seq<Edge>, level: seq<Id>)
    requires LevelIs(ids, edges, {}, level)
    ensures Ready(edges, level, 0)
  {
    forall v | v in level ensures Longest(edges, v, 0) {
      IncomingMeans(edges, {}, v);
      BoundFromPredecessors(edges, v, 0);
      SourceAttained(edges, v);
    }
  }

  /** Everything that holds between two batches. */
  ghost predicate Progress(ids: seq<Id>, edges: seq<Edge>, done: set<Id>, level: seq<Id>, batches: seq<seq<Id>>, indegree: map<Id, int>) {
    && done <= Members(ids) && Closed(edges, done)
    && CountersAre(ids, edges, done, indegree)
    && LevelIs(ids, edges, done, level) && Ready(edges, level, |batches|)
    && BatchesAre(edges, done, batches)
  }

  lemma LevelIsFresh(ids: seq<Id>, edges: seq<Edge>, done: set<Id>, level: seq<Id>)
    requires LevelIs(ids, edges, done, level) && done <= Members(ids) && level != []
    ensures done < done + Members(level) <= Members(ids)
  {
    assert level[0] in level;
    forall v | v in Members(level) ensures v in Members(ids) {
      assert v in level;
    }
  }

  /** One turn of the outer loop. */
  method NextBatch(ids: seq<Id>, edges: seq<Edge>, ghost done: set<Id>, batch: seq<Id>, ghost batches: seq<seq<Id>>,
                   children: map<Id, seq<Id>>, counters: map<Id, int>)
    returns (indegree: map<Id, int>, level: seq<Id>)
    requires EndpointsKnown(ids, edges) && ChildrenAre(edges, children) && batch != []
    requires Progress(ids, edges, done, batch, batches, counters)
    ensures Progress(ids, edges, done + Members(batch), level, batches + [batch], indegree)
    ensures Members(ids) - (done + Members(batch)) < Members(ids) - done
  {
    BatchAdded(ids, edges, done, batch, batches);
    StaysClosed(ids, edges, done, batch);
    LevelIsFresh(ids, edges, done, batch);
    indegree, level := ReleaseBatch(ids, edges, done, batch, children, counters);
    NextLevel(ids, edges, done, batch, batches, indegree, level);
  }

  method Levels(ids: seq<Id>, edges: seq<Edge>, children: map<Id, seq<Id>>, counters: map<Id, int>)
    returns (r: Result<seq<seq<Id>>, PlanError>)
    requires EndpointsKnown(ids, edges) && CountersAre(ids, edges, {}, counters)
    requires ChildrenAre(edges, children)
    ensures r == Err(CyclicWorkflow) <==> Cyclic(edges) || !Distinct(ids)
    ensures r.Ok? ==> IsPlan(ids, edges, r.value)
    ensures r != Err(UnknownEndpoint)
  {
    var indegree := counters;
    var level := Roots(ids, edges, indegree);
    RootsReady(ids, edges, level);
    var batches: seq<seq<Id>> := [];
    var seen := 0;
    ghost var done: set<Id> := {};
    while level != []
      invariant Progress(ids, edges, done, level, batches, indegree)
      invariant seen == |Flatten(batches)|
      decreases Members(ids) - done
    {
      var batch := level;
      indegree, level := NextBatch(ids, edges, done, batch, batches, children, indegree);
      assert (batches + [batch])[..|batches|] == batches;
      batches := batches + [batch];
      seen := seen + |batch|;
      done := done + Members(batch);
    }
    Finished(ids, edges, done, batches, indegree);
    r := if seen != |ids| then Err(CyclicWorkflow) else Ok(batches);
  }

  lemma Finished(ids: seq<Id>, edges: seq<Edge>, done: set<Id>, batches: seq<seq<Id>>, indegree: map<Id, int>)
    requires EndpointsKnown(ids, edges) && Progress(ids, edges, done, [], batches, indegree)
    ensures |Flatten(batches)| != |ids| ==> Cyclic(edges) || !Distinct(ids)
    ensures |Flatten(batches)| == |ids| ==> Distinct(ids) && !Cyclic(edges) && IsPlan(ids, edges, batches)
  {
    DistinctSize(Flatten(batches));
    DistinctSize(ids);
    SubsetSize(done, Members(ids));
    if |Flatten(batches)| == |ids| {
      assert done == Members(ids);
      AllDoneMeansAcyclic(ids, edges, batches);
    } else if Distinct(ids) {
      assert |done| == |Flatten(batches)| && |Members(ids)| == |ids|;
      assert done != Members(ids);
      NothingLeftMeansStuck(ids, edges, done);
    }
  }

  /** In a plan every edge's source is in a strictly earlier batch than its target. */
  lemma SourcesComeFirst(ids: seq<Id>, edges: seq<Edge>, batches: seq<seq<Id>>, u: Id, v: Id, j: nat, k: nat)
    requires IsPlan(ids, edges, batches) && HasEdge(edges, u, v)
    requires j < |batches| && u in batches[j] && k < |batches| && v in batches[k]
    ensures j < k
  {
    EdgesClimb(edges, u, v, j, k);
  }
}
