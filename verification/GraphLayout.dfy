/** The agent graph drawn in layers: a memoised depth-first search gives each node its layer, then
    boxes are placed column by column. */
module GraphLayout {
  import opened Graphs
  import DagScheduler

  datatype GraphNode = GraphNode(id: Id, name: string, command: string)

  datatype GraphEdge = GraphEdge(source: Id, target: Id, isFailureRoute: bool)

  datatype Placed = Placed(node: GraphNode, x: real, y: real, layer: nat)

  const NODE_W := 232.0
  const NODE_H := 96.0
  const GAP_X := 130.0
  const GAP_Y := 36.0
  const ORDER: seq<string> := ["/auto", "/asset", "/copy", "/master", "/resize", "/editable", "/qc", "/export"]

  /** Failure routes and self-handoffs do not count for layering. */
  function Forward(edges: seq<GraphEdge>): seq<Edge> {
    if edges == [] then []
    else
      var last := edges[|edges| - 1];
      Forward(edges[..|edges| - 1]) + (if !last.isFailureRoute && last.source != last.target then [Edge(last.source, last.target)] else [])
  }

  predicate GoesForward(e: GraphEdge, u: Id, v: Id) {
    e.source == u && e.target == v && u != v && !e.isFailureRoute
  }

  /** Exactly the edges to another node that are no failure routes are layered. */
  lemma {:induction false} ForwardMeans(edges: seq<GraphEdge>, u: Id, v: Id)
    ensures HasEdge(Forward(edges), u, v) <==> exists e <- edges :: GoesForward(e, u, v)
  {
    if edges != [] {
      var front, last := edges[..|edges| - 1], edges[|edges| - 1];
      assert edges == front + [last];
      ForwardMeans(front, u, v);
      hide Forward;
      ForwardNext(edges, u, v);
    }
  }

  lemma ForwardNext(edges: seq<GraphEdge>, u: Id, v: Id)
    requires edges != []
    ensures HasEdge(Forward(edges), u, v) <==> HasEdge(Forward(edges[..|edges| - 1]), u, v) || GoesForward(edges[|edges| - 1], u, v)
  {
    var front, last := edges[..|edges| - 1], edges[|edges| - 1];
    var goes := !last.isFailureRoute && last.source != last.target;
    assert forall x :: x in Forward(edges) <==> (x in Forward(front) || (goes && x == Edge(last.source, last.target)));
  }

  function Parents(forward: seq<Edge>, v: Id): seq<Id> {
    if forward == [] then []
    else
      var last := forward[|forward| - 1];
      Parents(forward[..|forward| - 1], v) + (if last.target == v then [last.source] else [])
  }

  lemma {:induction false} ParentsAreEdges(forward: seq<Edge>, u: Id, v: Id)
    ensures u in Parents(forward, v) <==> HasEdge(forward, u, v)
  {
    if forward != [] {
      ParentsAreEdges(forward[..|forward| - 1], u, v);
      assert forward == forward[..|forward| - 1] + [forward[|forward| - 1]];
    }
  }

  /** v is reached from u over at least one edge. */
  ghost predicate Leads(edges: seq<Edge>, u: Id, v: Id) {
    exists p :: WalkTo(edges, p, v) && |p| >= 2 && p[0] == u
  }

  lemma LeadsDirectly(edges: seq<Edge>, u: Id, v: Id)
    requires HasEdge(edges, u, v)
    ensures Leads(edges, u, v)
  {
    assert WalkTo(edges, [u, v], v);
  }

  lemma LeadsFurther(edges: seq<Edge>, u: Id, v: Id, w: Id)
    requires HasEdge(edges, u, v) && Leads(edges, v, w)
    ensures Leads(edges, u, w)
  {
    var p :| WalkTo(edges, p, w) && |p| >= 2 && p[0] == v;
    PrependWalk(edges, u, p);
    assert WalkTo(edges, [u] + p, w);
  }

  /** The layers known so far are longest-walk lengths, unless there is a cycle. */
  ghost predicate Exact(edges: seq<Edge>, layer: map<Id, nat>) {
    Cyclic(edges) || forall v :: v in layer ==> Longest(edges, v, layer[v])
  }

  ghost predicate IsDepth(edges: seq<Edge>, v: Id, d: int) {
    Cyclic(edges) || Longest(edges, v, d)
  }

  /** A layer above 1 rests on a parent one layer below, on any graph. */
  ghost predicate Supported(edges: seq<Edge>, layer: map<Id, nat>) {
    forall v :: v in layer && layer[v] > 1 ==> SupportedNode(edges, layer, v, layer[v])
  }

  ghost predicate SupportedNode(edges: seq<Edge>, layer: map<Id, nat>, v: Id, d: nat) {
    exists u :: u in layer && HasEdge(edges, u, v) && layer[u] == d - 1
  }

  /** Unless there is a cycle, every node being visited lies ahead of the one asked for. */
  ghost predicate Ahead(edges: seq<Edge>, visiting: set<Id>, id: Id) {
    Cyclic(edges) || forall w :: w in visiting ==> Leads(edges, id, w)
  }

  ghost predicate SourcesWithin(edges: seq<Edge>, universe: set<Id>) {
    forall u, v :: HasEdge(edges, u, v) ==> u in universe
  }

  ghost predicate Sound(edges: seq<Edge>, layer: map<Id, nat>, universe: set<Id>) {
    Supported(edges, layer) && Exact(edges, layer) && layer.Keys <= universe
  }

  predicate Extends(before: map<Id, nat>, now: map<Id, nat>) {
    forall v :: v in before ==> v in now && now[v] == before[v]
  }

  /** Layers once given stay, and nodes being visited get none. */
  predicate Grown(before: map<Id, nat>, now: map<Id, nat>, visiting: set<Id>) {
    Extends(before, now) && now.Keys * visiting <= before.Keys
  }

  lemma GrownFurther(first: map<Id, nat>, before: map<Id, nat>, now: map<Id, nat>, visiting: set<Id>)
    requires Grown(first, before, visiting) && Grown(before, now, visiting)
    ensures Grown(first, now, visiting) && Extends(before, now)
  {
  }

  lemma ParentWithin(edges: seq<Edge>, universe: set<Id>, u: Id, v: Id)
    requires SourcesWithin(edges, universe) && HasEdge(edges, u, v)
    ensures u in universe
  {
  }

  lemma NoneLookedAt(edges: seq<Edge>, layer: map<Id, nat>, visiting: set<Id>, id: Id, parents: seq<Id>)
    ensures Grown(layer, layer, visiting) && DeepestSoFar(edges, layer, id, parents[..0], 0, id)
    ensures parents[..|parents|] == parents
  {
  }

  class Layering {
    const forward: seq<Edge>
    var layer: map<Id, nat>
    var visiting: set<Id>

    constructor (forward: seq<Edge>)
      ensures this.forward == forward && layer == map[] && visiting == {}
    {
      this.forward := forward;
      layer := map[];
      visiting := {};
    }

    /** The recursion terminates on every graph, because the set being visited grows within a finite
        universe; on an acyclic graph its result is the longest incoming walk. */
    method Depth(id: Id, ghost universe: set<Id>) returns (d: nat)
      requires id in universe && visiting <= universe && SourcesWithin(forward, universe)
      requires Sound(forward, layer, universe) && Ahead(forward, visiting, id)
      modifies this
      decreases universe - visiting, 0
      ensures visiting == old(visiting) && Sound(forward, layer, universe)
      ensures Grown(old(layer), layer, visiting)
      ensures if id in layer then layer[id] == d else id in visiting && d == 0
      ensures IsDepth(forward, id, d)
    {
      if id in layer {
        return layer[id];
      }
      if id in visiting {
        NotAheadOfItself(forward, visiting, id);
        return 0;
      }
      visiting := visiting + {id};
      assert visiting - {id} == old(visiting);
      d := DeepestParent(id, universe);
      visiting := visiting - {id};
      LayerAdded(forward, layer, universe, id, d);
      layer := layer[id := d];
    }

    /** The greatest depth(parent) + 1, or 0 without parents. */
    method DeepestParent(id: Id, ghost universe: set<Id>) returns (d: nat)
      requires id in visiting && visiting <= universe && id !in layer && SourcesWithin(forward, universe)
      requires Sound(forward, layer, universe) && Ahead(forward, visiting - {id}, id)
      modifies this
      decreases universe - visiting, 1
      ensures visiting == old(visiting) && Sound(forward, layer, universe)
      ensures Grown(old(layer), layer, visiting)
      ensures d > 1 ==> SupportedNode(forward, layer, id, d)
      ensures IsDepth(forward, id, d)
    {
      hide Sound, Ahead, DeepestSoFar, IsDepth, SourcesWithin, HasEdge, Parents, SupportedNode, Grown, Extends;
      d := 0;
      var parents := Parents(forward, id);
      ghost var best: Id := id;
      NoneLookedAt(forward, layer, visiting, id, parents);
      for k := 0 to |parents|
        invariant visiting == old(visiting) && Sound(forward, layer, universe)
        invariant Grown(old(layer), layer, visiting)
        invariant DeepestSoFar(forward, layer, id, parents[..k], d, best)
      {
        ParentsAreEdges(forward, parents[k], id);
        ParentWithin(forward, universe, parents[k], id);
        AheadOfParent(forward, visiting, parents[k], id);
        ghost var known := layer;
        var up := Depth(parents[k], universe);
        GrownFurther(old(layer), known, layer, visiting);
        DeeperStep(forward, known, layer, id, parents, k, d, best, up);
        if up + 1 > d {
          d := up + 1;
          best := parents[k];
        }
      }
      FromParents(forward, layer, id, d, best);
    }

    /** Every id gets a layer. On an acyclic graph it is the longest incoming walk; on any graph it
        is at most the number of nodes there are. */
    method LayerAll(ids: seq<Id>, ghost universe: set<Id>)
      requires visiting == {} && layer == map[]
      requires Members(ids) <= universe && SourcesWithin(forward, universe)
      modifies this
      ensures forall id :: id in ids ==> id in layer
      ensures Exact(forward, layer)
      ensures forall id :: id in layer ==> layer[id] <= |universe|
    {
      for k := 0 to |ids|
        invariant visiting == {} && Sound(forward, layer, universe)
        invariant forall id :: id in ids[..k] ==> id in layer
      {
        assert ids[k] in Members(ids);
        ghost var known := layer;
        var _ := Depth(ids[k], universe);
        assert forall id :: id in ids[..k] ==> id in known;
      }
      forall id | id in layer ensures layer[id] <= |universe| {
        var below := Descent(forward, layer, id);
        SubsetSize(below, universe);
      }
    }
  }

  lemma NotAheadOfItself(edges: seq<Edge>, visiting: set<Id>, id: Id)
    requires id in visiting && Ahead(edges, visiting, id)
    ensures Cyclic(edges)
  {
  }

  lemma LayerAdded(edges: seq<Edge>, layer: map<Id, nat>, universe: set<Id>, id: Id, d: nat)
    requires Sound(edges, layer, universe) && id in universe && id !in layer
    requires IsDepth(edges, id, d) && (d > 1 ==> SupportedNode(edges, layer, id, d))
    ensures Sound(edges, layer[id := d], universe)
  {
    var now := layer[id := d];
    forall v | v in now && now[v] > 1 ensures SupportedNode(edges, now, v, now[v]) {
      assert SupportedNode(edges, layer, v, now[v]);
      var u :| u in layer && HasEdge(edges, u, v) && layer[u] == now[v] - 1;
      assert u in now && now[u] == layer[u];
    }
  }

  lemma AheadOfParent(edges: seq<Edge>, visiting: set<Id>, p: Id, id: Id)
    requires HasEdge(edges, p, id) && id in visiting && Ahead(edges, visiting - {id}, id)
    ensures Ahead(edges, visiting, p)
  {
    LeadsDirectly(edges, p, id);
    if !Cyclic(edges) {
      forall w | w in visiting ensures Leads(edges, p, w) {
        if w != id {
          LeadsFurther(edges, p, id, w);
        }
      }
    }
  }

  /** d is the greatest depth + 1 over the parents seen, attained at `best`. */
  ghost predicate DeepestSoFar(edges: seq<Edge>, layer: map<Id, nat>, id: Id, parents: seq<Id>, d: nat, best: Id) {
    && (d > 0 ==> HasEdge(edges, best, id) && IsDepth(edges, best, d - 1))
    && (d > 1 ==> best in layer && layer[best] == d - 1)
    && (Cyclic(edges) || forall i :: 0 <= i < |parents| ==> AtMost(edges, parents[i], d - 1))
  }

  lemma DeeperStep(edges: seq<Edge>, known: map<Id, nat>, layer: map<Id, nat>, id: Id, parents: seq<Id>, k: nat, d: nat, best: Id, up: nat)
    requires k < |parents| && DeepestSoFar(edges, known, id, parents[..k], d, best) && Extends(known, layer)
    requires HasEdge(edges, parents[k], id) && IsDepth(edges, parents[k], up)
    requires up > 0 ==> parents[k] in layer && layer[parents[k]] == up
    ensures DeepestSoFar(edges, layer, id, parents[..k + 1],
      if up + 1 > d then up + 1 else d, if up + 1 > d then parents[k] else best)
  {
    hide Cyclic, HasEdge;
    var most := if up + 1 > d then up + 1 else d;
    if !Cyclic(edges) {
      var more := parents[..k + 1];
      forall i | 0 <= i < |more| ensures AtMost(edges, more[i], most - 1) {
        if i < k {
          assert AtMost(edges, parents[..k][i], d - 1);
        }
      }
    }
  }

  lemma FromParents(edges: seq<Edge>, layer: map<Id, nat>, id: Id, d: nat, best: Id)
    requires DeepestSoFar(edges, layer, id, Parents(edges, id), d, best)
    ensures IsDepth(edges, id, d) && (d > 1 ==> SupportedNode(edges, layer, id, d))
  {
    if !Cyclic(edges) {
      forall u | HasEdge(edges, u, id) ensures AtMost(edges, u, d - 1) {
        ParentsAreEdges(edges, u, id);
      }
      BoundFromPredecessors(edges, id, d);
      if d > 0 {
        ExtendWalk(edges, best, id, d - 1);
      } else {
        SourceAttained(edges, id);
      }
    }
  }

  /** From a node in layer k one can step down through k nodes in layers k, k - 1, ..., 1. */
  lemma {:induction false} Descent(edges: seq<Edge>, layer: map<Id, nat>, v: Id) returns (below: set<Id>)
    requires v in layer && Supported(edges, layer)
    ensures |below| == layer[v] && below <= layer.Keys && forall u :: u in below ==> layer[u] <= layer[v]
    decreases layer[v]
  {
    if layer[v] == 0 {
      below := {};
    } else if layer[v] == 1 {
      below := {v};
    } else {
      assert SupportedNode(edges, layer, v, layer[v]);
      var u :| u in layer && HasEdge(edges, u, v) && layer[u] == layer[v] - 1;
      var rest := Descent(edges, layer, u);
      assert v !in rest;
      below := rest + {v};
    }
  }

  // ----- from layers to boxes -----

  function LayerOf(layer: map<Id, nat>, n: GraphNode): nat {
    if n.id in layer then layer[n.id] else 0
  }

  /** The nodes of one layer, in the order of the node list. */
  function InLayer(nodes: seq<GraphNode>, layer: map<Id, nat>, l: nat): seq<GraphNode> {
    if nodes == [] then []
    else
      var last := nodes[|nodes| - 1];
      InLayer(nodes[..|nodes| - 1], layer, l) + (if LayerOf(layer, last) == l then [last] else [])
  }

  /** The nodes of all layers below l. */
  function Below(nodes: seq<GraphNode>, layer: map<Id, nat>, l: nat): seq<GraphNode> {
    if nodes == [] then []
    else
      var last := nodes[|nodes| - 1];
      Below(nodes[..|nodes| - 1], layer, l) + (if LayerOf(layer, last) < l then [last] else [])
  }

  lemma {:induction false} NextLayerBelow(nodes: seq<GraphNode>, layer: map<Id, nat>, l: nat)
    ensures multiset(Below(nodes, layer, l + 1)) == multiset(Below(nodes, layer, l)) + multiset(InLayer(nodes, layer, l))
  {
    if nodes != [] {
      NextLayerBelow(nodes[..|nodes| - 1], layer, l);
    }
  }

  lemma {:induction false} NothingBelowZero(nodes: seq<GraphNode>, layer: map<Id, nat>)
    ensures Below(nodes, layer, 0) == []
  {
    if nodes != [] {
      NothingBelowZero(nodes[..|nodes| - 1], layer);
    }
  }

  /** All nodes lie below a bound on all layers. */
  lemma {:induction false} AllBelow(nodes: seq<GraphNode>, layer: map<Id, nat>, top: nat)
    requires forall n :: n in nodes ==> LayerOf(layer, n) < top
    ensures Below(nodes, layer, top) == nodes
  {
    hide LayerOf;
    if nodes != [] {
      var front, last := nodes[..|nodes| - 1], nodes[|nodes| - 1];
      assert nodes == front + [last];
      AllBelow(front, layer, top);
    }
  }

  function Rank(n: GraphNode): nat {
    RankFrom(n.command, 0)
  }

  function RankFrom(command: string, i: nat): nat
    decreases |ORDER| - i
  {
    if i >= |ORDER| then 100 else if ORDER[i] == command then i else RankFrom(command, i + 1)
  }

  /** The pipeline's order of commands; all other commands come behind. */
  lemma RanksAre(n: GraphNode)
    ensures Rank(n) == match n.command
      case "/auto" => 0
      case "/asset" => 1
      case "/copy" => 2
      case "/master" => 3
      case "/resize" => 4
      case "/editable" => 5
      case "/qc" => 6
      case "/export" => 7
      case _ => 100
  {
    RankStep(n.command, 0);
    RankStep(n.command, 1);
    RankStep(n.command, 2);
    RankStep(n.command, 3);
    RankStep(n.command, 4);
    RankStep(n.command, 5);
    RankStep(n.command, 6);
    RankStep(n.command, 7);
  }

  lemma RankStep(command: string, i: nat)
    requires i < 8
    ensures RankFrom(command, i) == if ORDER[i] == command then i else RankFrom(command, i + 1)
  {
  }

  /** Nodes of a layer are ordered by the canonical pipeline order, then by name. `nameBefore` stands
      for the locale's strict order of names. */
  predicate Before(nameBefore: (string, string) -> bool, a: GraphNode, b: GraphNode) {
    Rank(a) < Rank(b) || (Rank(a) == Rank(b) && nameBefore(a.name, b.name))
  }

  predicate RankSorted(nodes: seq<GraphNode>) {
    forall i, j :: 0 <= i < j < |nodes| ==> Rank(nodes[i]) <= Rank(nodes[j])
  }

  /** Comparing names orders them: of two names at most one comes first, and a name between two others
      is not skipped. */
  ghost predicate OrdersNames(nameBefore: (string, string) -> bool) {
    && (forall a, b :: !(nameBefore(a, b) && nameBefore(b, a)))
    && (forall a, b, c :: nameBefore(a, c) ==> nameBefore(a, b) || nameBefore(b, c))
  }

  /** No node comes before one listed in front of it. */
  predicate NameSorted(nameBefore: (string, string) -> bool, nodes: seq<GraphNode>) {
    forall i, j :: 0 <= i < j < |nodes| ==> !Before(nameBefore, nodes[j], nodes[i])
  }

  method InsertNode(sorted: seq<GraphNode>, n: GraphNode, nameBefore: (string, string) -> bool) returns (more: seq<GraphNode>)
    requires RankSorted(sorted)
    ensures RankSorted(more) && multiset(more) == multiset(sorted) + multiset{n}
    ensures OrdersNames(nameBefore) && NameSorted(nameBefore, sorted) ==> NameSorted(nameBefore, more)
  {
    var p := |sorted|;
    while p > 0 && Before(nameBefore, n, sorted[p - 1])
      invariant 0 <= p <= |sorted|
      invariant forall i :: p <= i < |sorted| ==> Rank(n) <= Rank(sorted[i]) && Before(nameBefore, n, sorted[i])
    {
      p := p - 1;
    }
    hide Before, Rank;
    assert sorted == sorted[..p] + sorted[p..];
    more := sorted[..p] + [n] + sorted[p..];
    SplitSorted(sorted, n, p);
    if OrdersNames(nameBefore) && NameSorted(nameBefore, sorted) {
      SplitByName(nameBefore, sorted, n, p);
    }
  }

  lemma SplitByName(nameBefore: (string, string) -> bool, sorted: seq<GraphNode>, n: GraphNode, p: nat)
    requires OrdersNames(nameBefore) && NameSorted(nameBefore, sorted) && p <= |sorted|
    requires p > 0 ==> !Before(nameBefore, n, sorted[p - 1])
    requires forall i :: p <= i < |sorted| ==> Before(nameBefore, n, sorted[i])
    ensures NameSorted(nameBefore, sorted[..p] + [n] + sorted[p..])
  {
    forall i | 0 <= i < p ensures !Before(nameBefore, n, sorted[i]) {
      assert i < p - 1 ==> !Before(nameBefore, sorted[p - 1], sorted[i]);
    }
  }

  lemma SplitSorted(sorted: seq<GraphNode>, n: GraphNode, p: nat)
    requires RankSorted(sorted) && p <= |sorted|
    requires p > 0 ==> Rank(sorted[p - 1]) <= Rank(n)
    requires forall i :: p <= i < |sorted| ==> Rank(n) <= Rank(sorted[i])
    ensures RankSorted(sorted[..p] + [n] + sorted[p..])
  {
    assert forall i :: 0 <= i < p ==> Rank(sorted[i]) <= Rank(n);
  }

  method SortLayer(nodes: seq<GraphNode>, nameBefore: (string, string) -> bool) returns (sorted: seq<GraphNode>)
    ensures multiset(sorted) == multiset(nodes) && RankSorted(sorted)
    ensures OrdersNames(nameBefore) ==> NameSorted(nameBefore, sorted)
  {
    sorted := [];
    for k := 0 to |nodes|
      invariant multiset(sorted) == multiset(nodes[..k]) && RankSorted(sorted)
      invariant OrdersNames(nameBefore) ==> NameSorted(nameBefore, sorted)
    {
      assert nodes[..k + 1] == nodes[..k] + [nodes[k]];
      sorted := InsertNode(sorted, nodes[k], nameBefore);
    }
    assert nodes[..|nodes|] == nodes;
  }

  /** Two boxes keep at least the gap between them, beside or above each other. */
  predicate Apart(a: Placed, b: Placed) {
    || a.x + NODE_W + GAP_X <= b.x || b.x + NODE_W + GAP_X <= a.x
    || a.y + NODE_H + GAP_Y <= b.y || b.y + NODE_H + GAP_Y <= a.y
  }

  predicate NoOverlap(placed: seq<Placed>) {
    forall i, j :: 0 <= i < j < |placed| ==> Apart(placed[i], placed[j])
  }

  /** Boxes are listed column by column, each column from the top in pipeline order, then by name. */
  ghost predicate InReadingOrder(nameBefore: (string, string) -> bool, placed: seq<Placed>) {
    forall i, j :: 0 <= i < j < |placed| ==> ReadsBefore(nameBefore, placed[i], placed[j])
  }

  ghost predicate ReadsBefore(nameBefore: (string, string) -> bool, a: Placed, b: Placed) {
    a.layer < b.layer ||
    (a.layer == b.layer && a.y + NODE_H + GAP_Y <= b.y && Rank(a.node) <= Rank(b.node)
     && (OrdersNames(nameBefore) ==> !Before(nameBefore, b.node, a.node)))
  }

  function X(layer: nat): real {
    60.0 + layer as real * (NODE_W + GAP_X)
  }

  function CanvasHeight(tallest: nat): real {
    80.0 + tallest as real * (NODE_H + GAP_Y)
  }

  /** The height of a column of boxes with the gaps between them. */
  function Total(rows: nat): real {
    rows as real * NODE_H + (rows as real - 1.0) * GAP_Y
  }

  /** A column is centred on the canvas. */
  function TopOf(height: real, rows: nat): real {
    (height - Total(rows)) / 2.0
  }

  /** A box of row i in a layer whose first row is at `top`. */
  function Box(n: GraphNode, layer: nat, top: real, i: nat): Placed {
    Placed(n, X(layer), top + i as real * (NODE_H + GAP_Y), layer)
  }

  function Column(nodes: seq<GraphNode>, layer: nat, top: real): seq<Placed> {
    seq(|nodes|, i requires 0 <= i < |nodes| => Box(nodes[i], layer, top, i))
  }

  function NodesOf(placed: seq<Placed>): multiset<GraphNode> {
    if placed == [] then multiset{} else NodesOf(placed[..|placed| - 1]) + multiset{placed[|placed| - 1].node}
  }

  lemma {:induction false} NodesOfConcat(a: seq<Placed>, b: seq<Placed>)
    ensures NodesOf(a + b) == NodesOf(a) + NodesOf(b)
  {
    if b == [] {
      assert a + b == a;
    } else {
      assert (a + b)[..|a + b| - 1] == a + b[..|b| - 1];
      NodesOfConcat(a, b[..|b| - 1]);
    }
  }

  lemma {:induction false} NodesOfColumn(nodes: seq<GraphNode>, layer: nat, top: real)
    ensures NodesOf(Column(nodes, layer, top)) == multiset(nodes)
  {
    if nodes != [] {
      var front := nodes[..|nodes| - 1];
      assert Column(nodes, layer, top)[..|nodes| - 1] == Column(front, layer, top);
      NodesOfColumn(front, layer, top);
      assert nodes == front + [nodes[|nodes| - 1]];
    }
  }

  lemma ColumnsApart(l: nat, m: nat)
    requires l < m
    ensures X(l) + NODE_W + GAP_X <= X(m)
  {
    assert l as real + 1.0 <= m as real;
  }

  lemma RowsApart(top: real, i: nat, j: nat)
    requires i < j
    ensures top + i as real * (NODE_H + GAP_Y) + NODE_H + GAP_Y <= top + j as real * (NODE_H + GAP_Y)
  {
    assert i as real + 1.0 <= j as real;
  }

  /** Placing one more layer to the right keeps all boxes apart. */
  lemma ColumnAdded(placed: seq<Placed>, nodes: seq<GraphNode>, l: nat, top: real)
    requires NoOverlap(placed) && forall i :: 0 <= i < |placed| ==> placed[i].layer < l && placed[i].x == X(placed[i].layer)
    ensures NoOverlap(placed + Column(nodes, l, top))
  {
    var column := Column(nodes, l, top);
    var all := placed + column;
    forall i, j | 0 <= i < j < |all| ensures Apart(all[i], all[j]) {
      if i < |placed| <= j {
        ColumnsApart(placed[i].layer, l);
      } else if |placed| <= i {
        RowsApart(top, i - |placed|, j - |placed|);
      }
    }
  }

  predicate IsPinned(n: GraphNode) {
    n.command == "/qc" || n.command == "/export"
  }

  method MaxLayer(layer: map<Id, nat>) returns (most: nat)
    ensures forall id :: id in layer ==> layer[id] <= most
    ensures most == 0 || exists id :: id in layer && layer[id] == most
  {
    most := 0;
    var left := layer.Keys;
    while left != {}
      invariant left <= layer.Keys
      invariant forall id :: id in layer && id !in left ==> layer[id] <= most
      invariant most == 0 || exists id :: id in layer && layer[id] == most
      decreases left
    {
      var id :| id in left;
      if layer[id] > most {
        most := layer[id];
      }
      left := left - {id};
    }
  }

  /** Some node drawn under this id is moved by pinning. */
  predicate PinnedId(nodes: seq<GraphNode>, id: Id) {
    exists n :: n in nodes && n.id == id && IsPinned(n)
  }

  /** Where one pinned node goes. */
  function PinTo(n: GraphNode, at: nat, most: nat): nat {
    if most < 2 then at
    else if n.command == "/qc" then (if at >= most - 1 then at else most - 1)
    else if n.command == "/export" then most
    else at
  }

  /** Quality control and export are moved to the last two layers; nothing else moves. */
  method Pin(nodes: seq<GraphNode>, layer: map<Id, nat>, most: nat) returns (pinned: map<Id, nat>)
    requires forall id :: id in layer ==> layer[id] <= most
    requires forall n :: n in nodes ==> n.id in layer
    ensures pinned.Keys == layer.Keys && forall id :: id in pinned ==> pinned[id] <= most
    ensures forall id :: id in layer && !PinnedId(nodes, id) ==> pinned[id] == layer[id]
    ensures most < 2 ==> pinned == layer
    ensures most >= 2 ==> forall i :: 0 <= i < |nodes| && nodes[i].command == "/qc" ==> pinned[nodes[i].id] >= most - 1
    ensures most >= 2 ==> forall i :: 0 <= i < |nodes| && nodes[i].command == "/export" ==> pinned[nodes[i].id] == most
  {
    pinned := layer;
    for k := 0 to |nodes|
      invariant PinnedSoFar(nodes, layer, most, k, pinned)
    {
      PinNext(nodes, layer, most, k, pinned);
      pinned := pinned[nodes[k].id := PinTo(nodes[k], pinned[nodes[k].id], most)];
    }
  }

  predicate PinnedSoFar(nodes: seq<GraphNode>, layer: map<Id, nat>, most: nat, k: nat, pinned: map<Id, nat>) {
    && k <= |nodes| && pinned.Keys == layer.Keys && (forall id :: id in pinned ==> pinned[id] <= most)
    && (forall id :: id in layer && !PinnedId(nodes, id) ==> pinned[id] == layer[id])
    && (most < 2 ==> pinned == layer)
    && (most >= 2 ==> forall i :: 0 <= i < k && nodes[i].id in pinned ==> PinHolds(nodes[i], pinned[nodes[i].id], most))
  }

  predicate PinHolds(n: GraphNode, at: nat, most: nat) {
    (n.command == "/qc" ==> at >= most - 1) && (n.command == "/export" ==> at == most)
  }

  lemma PinNext(nodes: seq<GraphNode>, layer: map<Id, nat>, most: nat, k: nat, pinned: map<Id, nat>)
    requires k < |nodes| && nodes[k].id in layer && PinnedSoFar(nodes, layer, most, k, pinned)
    ensures PinnedSoFar(nodes, layer, most, k + 1, pinned[nodes[k].id := PinTo(nodes[k], pinned[nodes[k].id], most)])
  {
    assert IsPinned(nodes[k]) ==> PinnedId(nodes, nodes[k].id);
    hide PinnedId;
  }

  method Tallest(nodes: seq<GraphNode>, layer: map<Id, nat>, most: nat) returns (tallest: nat)
    ensures tallest >= 1 && forall m :: 0 <= m <= most ==> |InLayer(nodes, layer, m)| <= tallest
  {
    tallest := 1;
    for l := 0 to most + 1
      invariant tallest >= 1 && forall m :: 0 <= m < l ==> |InLayer(nodes, layer, m)| <= tallest
    {
      if |InLayer(nodes, layer, l)| > tallest {
        tallest := |InLayer(nodes, layer, l)|;
      }
    }
  }

  /** What holds of the boxes placed so far: they are the layers below l, apart and on the canvas. */
  ghost predicate PlacedBelow(nodes: seq<GraphNode>, layer: map<Id, nat>, l: nat, height: real, placed: seq<Placed>,
                              nameBefore: (string, string) -> bool) {
    && NodesOf(placed) == multiset(Below(nodes, layer, l))
    && NoOverlap(placed) && InReadingOrder(nameBefore, placed)
    && BoxesFit(layer, l, height, placed) && Centred(placed, height)
  }

  /** Boxes for all layers, left to right. */
  method PlaceAll(nodes: seq<GraphNode>, layer: map<Id, nat>, most: nat, nameBefore: (string, string) -> bool)
    returns (placed: seq<Placed>, height: real)
    requires forall n :: n in nodes ==> LayerOf(layer, n) <= most
    ensures PlacedBelow(nodes, layer, most + 1, height, placed, nameBefore) && NodesOf(placed) == multiset(nodes)
  {
    var tallest := Tallest(nodes, layer, most);
    height := CanvasHeight(tallest);
    placed := [];
    hide PlacedBelow, NodesOf, Below, InLayer, CanvasHeight;
    NonePlaced(nodes, layer, height, nameBefore);
    for l := 0 to most + 1
      invariant PlacedBelow(nodes, layer, l, height, placed, nameBefore)
    {
      placed := PlaceRow(nodes, layer, l, placed, tallest, nameBefore);
    }
    AllPlaced(nodes, layer, most + 1, height, placed, nameBefore);
  }

  /** Boxes for one layer, sorted and centred. */
  method PlaceRow(nodes: seq<GraphNode>, layer: map<Id, nat>, l: nat, placed: seq<Placed>, tallest: nat,
                  nameBefore: (string, string) -> bool) returns (more: seq<Placed>)
    requires PlacedBelow(nodes, layer, l, CanvasHeight(tallest), placed, nameBefore) && |InLayer(nodes, layer, l)| <= tallest
    ensures PlacedBelow(nodes, layer, l + 1, CanvasHeight(tallest), more, nameBefore)
  {
    hide PlacedBelow, CanvasHeight, TopOf, Column, RankSorted, OrdersNames, NameSorted;
    var row := SortLayer(InLayer(nodes, layer, l), nameBefore);
    RowPlaced(nodes, layer, l, placed, row, tallest, nameBefore);
    more := placed + Column(row, l, TopOf(CanvasHeight(tallest), |row|));
  }

  lemma NonePlaced(nodes: seq<GraphNode>, layer: map<Id, nat>, height: real, nameBefore: (string, string) -> bool)
    ensures PlacedBelow(nodes, layer, 0, height, [], nameBefore)
  {
    NothingBelowZero(nodes, layer);
  }

  lemma AllPlaced(nodes: seq<GraphNode>, layer: map<Id, nat>, l: nat, height: real, placed: seq<Placed>,
                  nameBefore: (string, string) -> bool)
    requires PlacedBelow(nodes, layer, l, height, placed, nameBefore) && forall n :: n in nodes ==> LayerOf(layer, n) < l
    ensures NodesOf(placed) == multiset(nodes)
  {
    AllBelow(nodes, layer, l);
  }

  lemma RowPlaced(nodes: seq<GraphNode>, layer: map<Id, nat>, l: nat, placed: seq<Placed>,
                  row: seq<GraphNode>, tallest: nat, nameBefore: (string, string) -> bool)
    requires PlacedBelow(nodes, layer, l, CanvasHeight(tallest), placed, nameBefore)
    requires OrdersNames(nameBefore) ==> NameSorted(nameBefore, row)
    requires multiset(row) == multiset(InLayer(nodes, layer, l)) && |InLayer(nodes, layer, l)| <= tallest && RankSorted(row)
    ensures PlacedBelow(nodes, layer, l + 1, CanvasHeight(tallest),
                        placed + Column(row, l, TopOf(CanvasHeight(tallest), |row|)), nameBefore)
  {
    hide CanvasHeight, TopOf, Column, InLayer, NoOverlap, InReadingOrder, RankSorted, OrdersNames, NameSorted, BoxesFit, Centred;
    var height, top := CanvasHeight(tallest), TopOf(CanvasHeight(tallest), |row|);
    SameLength(row, InLayer(nodes, layer, l));
    LayersBelow(layer, l, height, placed);
    ColumnCentred(row, l, height);
    ColumnIn(row, l, top);
    CentredNext(placed, Column(row, l, top), l, height);
    ColumnAdded(placed, row, l, top);
    ColumnReads(layer, height, placed, row, l, top, nameBefore);
    ColumnInside(row, l, tallest);
    RowNodes(nodes, layer, l, placed, row, top);
    RowInLayer(nodes, layer, l, row);
    RowBoxes(layer, l, height, placed, row, top);
  }

  /** Two boxes stand opposite each other in a column. */
  predicate MirrorOf(a: Placed, b: Placed, height: real) {
    b.layer == a.layer && a.y + b.y + 96.0 == height
  }

  predicate HasMirror(placed: seq<Placed>, a: Placed, height: real) {
    exists j :: 0 <= j < |placed| && MirrorOf(a, placed[j], height)
  }

  /** A box below another one of its column stands 36 below its lower edge. */
  predicate Follows(a: Placed, b: Placed) {
    a.layer == b.layer ==> b.y == a.y + 96.0 + 36.0
  }

  /** Every column is centred on the canvas, and its boxes follow each other at a distance of 36. */
  predicate Centred(placed: seq<Placed>, height: real) {
    && (forall i :: 0 <= i < |placed| ==> HasMirror(placed, placed[i], height))
    && (forall i :: 0 <= i < |placed| - 1 ==> Follows(placed[i], placed[i + 1]))
  }

  lemma BoxesMirror(a: GraphNode, b: GraphNode, l: nat, height: real, rows: nat, i: nat)
    requires i < rows
    ensures MirrorOf(Box(a, l, TopOf(height, rows), i), Box(b, l, TopOf(height, rows), rows - 1 - i), height)
  {
    var top := TopOf(height, rows);
    var j := rows - 1 - i;
    assert j as real == rows as real - 1.0 - i as real;
    assert 2.0 * top + 132.0 * (rows as real) - 36.0 == height;
    assert i as real * 132.0 + j as real * 132.0 == (rows as real - 1.0) * 132.0;
  }

  lemma BoxesFollow(a: GraphNode, b: GraphNode, l: nat, top: real, i: nat)
    ensures Follows(Box(a, l, top, i), Box(b, l, top, i + 1))
  {
    assert (i + 1) as real * 132.0 == i as real * 132.0 + 132.0;
  }

  lemma ColumnCentred(row: seq<GraphNode>, l: nat, height: real)
    ensures Centred(Column(row, l, TopOf(height, |row|)), height)
  {
    hide MirrorOf, Follows, TopOf, Box;
    var top := TopOf(height, |row|);
    var column := Column(row, l, top);
    forall i | 0 <= i < |column| ensures HasMirror(column, column[i], height) {
      var j := |row| - 1 - i;
      BoxesMirror(row[i], row[j], l, height, |row|, i);
      assert column[j] == Box(row[j], l, top, j);
    }
    forall i | 0 <= i < |column| - 1 ensures Follows(column[i], column[i + 1]) {
      BoxesFollow(row[i], row[i + 1], l, top, i);
    }
  }

  lemma ColumnIn(row: seq<GraphNode>, l: nat, top: real)
    ensures forall b <- Column(row, l, top) :: b.layer == l
  {
  }

  lemma CentredNext(placed: seq<Placed>, column: seq<Placed>, l: nat, height: real)
    requires Centred(placed, height) && Centred(column, height)
    requires forall i :: 0 <= i < |placed| ==> placed[i].layer < l
    requires forall b <- column :: b.layer == l
    ensures Centred(placed + column, height)
  {
    hide MirrorOf;
    var all := placed + column;
    forall i | 0 <= i < |all| ensures HasMirror(all, all[i], height) {
      if i < |placed| {
        MirrorStays(placed, column, placed[i], height);
      } else {
        MirrorStays(placed, column, column[i - |placed|], height);
      }
    }
    forall i | 0 <= i < |all| - 1 ensures Follows(all[i], all[i + 1]) {
      if |placed| <= i {
        assert all[i] == column[i - |placed|] && all[i + 1] == column[i - |placed| + 1];
      }
    }
  }

  lemma MirrorStays(placed: seq<Placed>, column: seq<Placed>, a: Placed, height: real)
    requires HasMirror(placed, a, height) || HasMirror(column, a, height)
    ensures HasMirror(placed + column, a, height)
  {
    hide MirrorOf;
    var all := placed + column;
    if HasMirror(placed, a, height) {
      var j :| 0 <= j < |placed| && MirrorOf(a, placed[j], height);
      assert MirrorOf(a, all[j], height);
    } else {
      var j :| 0 <= j < |column| && MirrorOf(a, column[j], height);
      assert MirrorOf(a, all[|placed| + j], height);
    }
  }

  lemma LayersBelow(layer: map<Id, nat>, l: nat, height: real, placed: seq<Placed>)
    requires BoxesFit(layer, l, height, placed)
    ensures forall i :: 0 <= i < |placed| ==> placed[i].layer < l && placed[i].x == X(placed[i].layer)
  {
    hide X, Inside, LayerOf;
  }

  lemma RowNodes(nodes: seq<GraphNode>, layer: map<Id, nat>, l: nat, placed: seq<Placed>, row: seq<GraphNode>, top: real)
    requires NodesOf(placed) == multiset(Below(nodes, layer, l)) && multiset(row) == multiset(InLayer(nodes, layer, l))
    ensures NodesOf(placed + Column(row, l, top)) == multiset(Below(nodes, layer, l + 1))
  {
    NodesOfConcat(placed, Column(row, l, top));
    NodesOfColumn(row, l, top);
    NextLayerBelow(nodes, layer, l);
  }

  predicate BoxesFit(layer: map<Id, nat>, l: nat, height: real, placed: seq<Placed>) {
    forall i :: 0 <= i < |placed| ==>
      placed[i].layer == LayerOf(layer, placed[i].node) < l && placed[i].x == X(placed[i].layer) && Inside(placed[i], height)
  }

  lemma RowBoxes(layer: map<Id, nat>, l: nat, height: real, placed: seq<Placed>, row: seq<GraphNode>, top: real)
    requires BoxesFit(layer, l, height, placed)
    requires forall i :: 0 <= i < |row| ==> LayerOf(layer, row[i]) == l && Inside(Column(row, l, top)[i], height)
    ensures BoxesFit(layer, l + 1, height, placed + Column(row, l, top))
  {
    var column := Column(row, l, top);
    assert forall i :: 0 <= i < |column| ==> column[i] == Box(row[i], l, top, i);
  }

  /** A sorted column to the right of all others continues the reading order. */
  lemma ColumnReads(layer: map<Id, nat>, height: real, placed: seq<Placed>, row: seq<GraphNode>, l: nat, top: real,
                    nameBefore: (string, string) -> bool)
    requires InReadingOrder(nameBefore, placed) && BoxesFit(layer, l, height, placed) && RankSorted(row)
    requires OrdersNames(nameBefore) ==> NameSorted(nameBefore, row)
    ensures InReadingOrder(nameBefore, placed + Column(row, l, top))
  {
    hide Rank, X, LayerOf, Inside, OrdersNames, Before;
    var column := Column(row, l, top);
    assert forall i :: 0 <= i < |placed| ==> placed[i].layer < l;
    forall i, j | 0 <= i < j < |column| ensures ReadsBefore(nameBefore, column[i], column[j]) {
      RowsApart(top, i, j);
    }
  }

  predicate Inside(p: Placed, height: real) {
    p.x >= 60.0 && 58.0 <= p.y && p.y + NODE_H + 58.0 <= height
  }

  lemma SameLength(a: seq<GraphNode>, b: seq<GraphNode>)
    requires multiset(a) == multiset(b)
    ensures |a| == |b|
  {
    assert |multiset(a)| == |a| && |multiset(b)| == |b|;
  }

  lemma {:induction false} InLayerMembers(nodes: seq<GraphNode>, layer: map<Id, nat>, l: nat)
    ensures forall n :: n in InLayer(nodes, layer, l) ==> LayerOf(layer, n) == l
  {
    if nodes != [] {
      InLayerMembers(nodes[..|nodes| - 1], layer, l);
    }
  }

  lemma RowInLayer(nodes: seq<GraphNode>, layer: map<Id, nat>, l: nat, row: seq<GraphNode>)
    requires multiset(row) == multiset(InLayer(nodes, layer, l))
    ensures forall i :: 0 <= i < |row| ==> LayerOf(layer, row[i]) == l
  {
    InLayerMembers(nodes, layer, l);
    forall i | 0 <= i < |row| ensures LayerOf(layer, row[i]) == l {
      assert row[i] in multiset(row);
      assert row[i] in InLayer(nodes, layer, l);
    }
  }

  lemma ColumnInside(row: seq<GraphNode>, l: nat, tallest: nat)
    requires |row| <= tallest
    ensures var height := CanvasHeight(tallest);
      forall i :: 0 <= i < |row| ==> Inside(Column(row, l, TopOf(height, |row|))[i], height)
  {
    var height, top := CanvasHeight(tallest), TopOf(CanvasHeight(tallest), |row|);
    var total := Total(|row|);
    forall i | 0 <= i < |row| ensures Inside(Column(row, l, top)[i], height) {
      assert i as real + 1.0 <= |row| as real <= tallest as real;
      assert top + i as real * (NODE_H + GAP_Y) + NODE_H <= top + total;
      assert X(l) >= 60.0;
    }
  }

  function IdsOf(nodes: seq<GraphNode>): seq<Id> {
    seq(|nodes|, i requires 0 <= i < |nodes| => nodes[i].id)
  }

  predicate HasBack(edges: seq<GraphEdge>) {
    exists i :: 0 <= i < |edges| && edges[i].isFailureRoute
  }

  /** The greatest right and lower edges of the boxes, 0 without boxes. */
  predicate AreGreatest(placed: seq<Placed>, maxX: real, maxY: real) {
    && (forall i :: 0 <= i < |placed| ==> placed[i].x + NODE_W <= maxX && placed[i].y + NODE_H <= maxY)
    && maxX >= 0.0 && maxY >= 0.0
    && (maxX == 0.0 || exists i :: 0 <= i < |placed| && placed[i].x + NODE_W == maxX)
    && (maxY == 0.0 || exists i :: 0 <= i < |placed| && placed[i].y + NODE_H == maxY)
  }

  /** The drawing leaves 60 to the right and below, 110 below when an edge loops back, and is no smaller
      than 600 by 360. */
  ghost predicate IsExtent(placed: seq<Placed>, hasBack: bool, width: real, height: real) {
    exists maxX, maxY :: AreGreatest(placed, maxX, maxY)
      && width == AtLeast(maxX + 60.0, 600.0) && height == AtLeast(maxY + (if hasBack then 110.0 else 60.0), 360.0)
  }

  function AtLeast(a: real, b: real): real {
    if a > b then a else b
  }

  method Extent(placed: seq<Placed>, hasBack: bool) returns (width: real, height: real)
    ensures IsExtent(placed, hasBack, width, height)
  {
    var maxX, maxY := 0.0, 0.0;
    for k := 0 to |placed|
      invariant AreGreatest(placed[..k], maxX, maxY)
    {
      assert forall i :: 0 <= i < k ==> placed[..k][i] == placed[..k + 1][i];
      var right, lower := placed[k].x + NODE_W, placed[k].y + NODE_H;
      assert placed[..k + 1][k] == placed[k];
      maxX := AtLeast(right, maxX);
      maxY := AtLeast(lower, maxY);
    }
    assert placed[..|placed|] == placed;
    width := AtLeast(maxX + 60.0, 600.0);
    height := AtLeast(maxY + (if hasBack then 110.0 else 60.0), 360.0);
  }

  /** With three layers or more, export stands in the last column and quality control in the last two. */
  predicate PinnedRight(placed: seq<Placed>, most: nat) {
    forall i :: 0 <= i < |placed| ==>
      placed[i].layer <= most && (most >= 2 ==> PinHolds(placed[i].node, placed[i].layer, most))
  }

  /** The column of every node: depths are searched, and then the pinned commands move right. */
  method ColumnsOf(nodes: seq<GraphNode>, edges: seq<GraphEdge>) returns (layer: map<Id, nat>, most: nat)
    ensures forall n :: n in nodes ==> n.id in layer && layer[n.id] <= most
    ensures most >= 2 ==> forall i :: 0 <= i < |nodes| ==> PinHolds(nodes[i], LayerOf(layer, nodes[i]), most)
    ensures !Cyclic(Forward(edges)) ==> forall n :: n in nodes && !PinnedId(nodes, n.id) ==>
      Longest(Forward(edges), n.id, layer[n.id])
  {
    var forward := Forward(edges);
    var search := new Layering(forward);
    ghost var universe := Members(IdsOf(nodes)) + (set e | e in forward :: e.source);
    forall u, v | HasEdge(forward, u, v) ensures u in universe {
      assert Edge(u, v) in forward;
    }
    search.LayerAll(IdsOf(nodes), universe);
    forall n | n in nodes ensures n.id in search.layer {
      var i :| 0 <= i < |nodes| && nodes[i] == n;
      assert IdsOf(nodes)[i] in IdsOf(nodes);
    }
    most := MaxLayer(search.layer);
    layer := Pin(nodes, search.layer, most);
  }

  /** The whole layout: every node is drawn exactly once, boxes never overlap and are listed in reading
      order, pinned or not, on any graph; and without cycles every node that is not pinned stands in
      the column of its longest incoming walk. */
  method LayoutGraph(nodes: seq<GraphNode>, edges: seq<GraphEdge>, nameBefore: (string, string) -> bool)
    returns (placed: seq<Placed>, width: real, height: real, ghost canvas: real)
    ensures NodesOf(placed) == multiset(nodes)
    ensures NoOverlap(placed) && InReadingOrder(nameBefore, placed)
    ensures (forall i :: 0 <= i < |placed| ==> Inside(placed[i], canvas)) && InColumns(placed) && Centred(placed, canvas)
    ensures IsExtent(placed, HasBack(edges), width, height)
    ensures exists most :: PinnedRight(placed, most)
    ensures !Cyclic(Forward(edges)) ==> forall i :: 0 <= i < |placed| && !PinnedId(nodes, placed[i].node.id) ==>
      Longest(Forward(edges), placed[i].node.id, placed[i].layer)
  {
    hide IsExtent, NoOverlap, InReadingOrder, OrdersNames, Inside, CanvasHeight, HasBack, PinnedRight,
      Cyclic, Forward, PinnedId, Longest, PinHolds, NodesOf, Below, InColumns, Centred;
    var layer, most := ColumnsOf(nodes, edges);
    var total: real;
    placed, total := PlaceAll(nodes, layer, most, nameBefore);
    canvas := total;
    width, height := Extent(placed, HasBack(edges));
    DrawnAreNodes(nodes, placed);
    AtLayers(layer, most + 1, canvas, placed);
    PinnedAreRight(nodes, layer, most, canvas, placed);
  }

  predicate InColumns(placed: seq<Placed>) {
    forall i :: 0 <= i < |placed| ==> placed[i].x == 60.0 + placed[i].layer as real * 362.0
  }

  lemma AtLayers(layer: map<Id, nat>, l: nat, height: real, placed: seq<Placed>)
    requires BoxesFit(layer, l, height, placed)
    ensures InColumns(placed)
  {
    hide Inside, LayerOf;
  }

  lemma DrawnAreNodes(nodes: seq<GraphNode>, placed: seq<Placed>)
    requires NodesOf(placed) == multiset(nodes)
    ensures forall i :: 0 <= i < |placed| ==> placed[i].node in nodes
  {
    forall i | 0 <= i < |placed| ensures placed[i].node in nodes {
      DrawnIsNode(placed, i);
      assert placed[i].node in multiset(nodes);
    }
  }

  lemma PinnedAreRight(nodes: seq<GraphNode>, layer: map<Id, nat>, most: nat, height: real, placed: seq<Placed>)
    requires BoxesFit(layer, most + 1, height, placed)
    requires forall i :: 0 <= i < |placed| ==> placed[i].node in nodes
    requires forall n :: n in nodes ==> n.id in layer
    requires most >= 2 ==> forall i :: 0 <= i < |nodes| ==> PinHolds(nodes[i], LayerOf(layer, nodes[i]), most)
    ensures PinnedRight(placed, most)
  {
    hide Inside;
    forall i | 0 <= i < |placed| && most >= 2 ensures PinHolds(placed[i].node, placed[i].layer, most) {
      var j :| 0 <= j < |nodes| && nodes[j] == placed[i].node;
    }
  }

  lemma {:induction false} DrawnIsNode(placed: seq<Placed>, i: nat)
    requires i < |placed|
    ensures placed[i].node in NodesOf(placed)
  {
    if i < |placed| - 1 {
      DrawnIsNode(placed[..|placed| - 1], i);
    }
  }

  /** Two algorithms, one function: the memoised search and the level scheduler give every node of an
      acyclic graph the same number. */
  lemma SearchAgreesWithScheduler(ids: seq<Id>, edges: seq<Edge>, batches: seq<seq<Id>>, layer: map<Id, nat>, k: nat, v: Id)
    requires DagScheduler.IsPlan(ids, edges, batches) && k < |batches| && v in batches[k]
    requires !Cyclic(edges) && Exact(edges, layer) && v in layer
    ensures layer[v] == k
  {
    LongestUnique(edges, v, layer[v], k);
  }
}
