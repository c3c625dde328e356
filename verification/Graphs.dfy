/** Directed graphs as lists of edges: walks, cycles, and the longest walk that leads to a node, used for the
    batches of a workflow and for the layers of its drawing alike. */
module Graphs {
  type Id = string

  datatype Edge = Edge(source: Id, target: Id)

  predicate HasEdge(edges: seq<Edge>, u: Id, v: Id) {
    Edge(u, v) in edges
  }

  /** Node ids, each but the first reached from the one before it. */
  predicate Walk(edges: seq<Edge>, p: seq<Id>) {
    p != [] && forall i :: 0 <= i < |p| - 1 ==> HasEdge(edges, p[i], p[i + 1])
  }

  predicate WalkTo(edges: seq<Edge>, p: seq<Id>, v: Id) {
    Walk(edges, p) && p[|p| - 1] == v
  }

  ghost predicate Cyclic(edges: seq<Edge>) {
    exists p :: Walk(edges, p) && |p| >= 2 && p[0] == p[|p| - 1]
  }

  /** No walk that ends at v has more than k edges. */
  ghost predicate AtMost(edges: seq<Edge>, v: Id, k: int) {
    forall p :: WalkTo(edges, p, v) ==> |p| - 1 <= k
  }

  /** Some walk that ends at v has exactly k edges. */
  ghost predicate Attained(edges: seq<Edge>, v: Id, k: int) {
    exists p :: WalkTo(edges, p, v) && |p| - 1 == k
  }

  /** The longest incoming walk of v has k edges. */
  ghost predicate Longest(edges: seq<Edge>, v: Id, k: int) {
    AtMost(edges, v, k) && Attained(edges, v, k)
  }

  lemma LongestUnique(edges: seq<Edge>, v: Id, j: int, k: int)
    requires Longest(edges, v, j) && Longest(edges, v, k)
    ensures j == k
  {
    var p :| WalkTo(edges, p, v) && |p| - 1 == j;
    var q :| WalkTo(edges, q, v) && |q| - 1 == k;
  }

  lemma ExtendWalk(edges: seq<Edge>, u: Id, v: Id, k: int)
    requires HasEdge(edges, u, v) && Attained(edges, u, k)
    ensures Attained(edges, v, k + 1)
  {
    var p :| WalkTo(edges, p, u) && |p| - 1 == k;
    assert WalkTo(edges, p + [v], v);
  }

  lemma SourceAttained(edges: seq<Edge>, v: Id)
    ensures Attained(edges, v, 0)
  {
    assert WalkTo(edges, [v], v);
  }

  /** A bound on all direct predecessors is a bound, one higher, on the node. */
  lemma BoundFromPredecessors(edges: seq<Edge>, v: Id, k: int)
    requires k >= 0
    requires forall u :: HasEdge(edges, u, v) ==> AtMost(edges, u, k - 1)
    ensures AtMost(edges, v, k)
  {
    forall p | WalkTo(edges, p, v) ensures |p| - 1 <= k {
      if |p| > 1 {
        var u := p[|p| - 2];
        assert HasEdge(edges, p[|p| - 2], p[|p| - 2 + 1]);
        assert WalkTo(edges, p[..|p| - 1], u);
      }
    }
  }

  /** Edges go strictly upwards in longest-walk length. */
  lemma EdgesClimb(edges: seq<Edge>, u: Id, v: Id, j: int, k: int)
    requires HasEdge(edges, u, v) && Longest(edges, u, j) && Longest(edges, v, k)
    ensures j < k
  {
    ExtendWalk(edges, u, v, j);
    var p :| WalkTo(edges, p, v) && |p| - 1 == j + 1;
  }

  // ----- cycles -----

  /** Going round a cycle n times gives walks of any length. */
  lemma {:induction false} CycleUnbounded(edges: seq<Edge>, p: seq<Id>, n: nat) returns (q: seq<Id>)
    requires Walk(edges, p) && |p| >= 2 && p[0] == p[|p| - 1]
    ensures WalkTo(edges, q, p[0]) && |q| > n
  {
    if n == 0 {
      q := p;
    } else {
      var r := CycleUnbounded(edges, p, n - 1);
      q := r + p[1..];
      forall i | 0 <= i < |q| - 1 ensures HasEdge(edges, q[i], q[i + 1]) {
        if i < |r| - 1 {
          assert HasEdge(edges, r[i], r[i + 1]);
        } else {
          var j := i - (|r| - 1);
          assert HasEdge(edges, p[j], p[j + 1]);
        }
      }
    }
  }

  /** A node on a cycle has no longest incoming walk. */
  lemma CycleHasNoBound(edges: seq<Edge>, p: seq<Id>, k: int)
    requires Walk(edges, p) && |p| >= 2 && p[0] == p[|p| - 1]
    ensures !AtMost(edges, p[0], k)
  {
    var q := CycleUnbounded(edges, p, if k < 0 then 0 else k + 1);
  }

  predicate Distinct(s: seq<Id>) {
    forall i, j :: 0 <= i < j < |s| ==> s[i] != s[j]
  }

  function Members(s: seq<Id>): set<Id> {
    set x | x in s
  }

  lemma {:induction false} DistinctSize(s: seq<Id>)
    ensures Distinct(s) <==> |Members(s)| == |s|
    ensures |Members(s)| <= |s|
  {
    if s != [] {
      var front, last := s[..|s| - 1], s[|s| - 1];
      DistinctSize(front);
      assert s == front + [last];
      assert Members(s) == Members(front) + {last};
      if last in front {
        assert Members(s) == Members(front);
        var i :| 0 <= i < |front| && front[i] == last;
        assert s[i] == s[|s| - 1];
      } else {
        assert |Members(s)| == |Members(front)| + 1;
        assert Distinct(front) ==> Distinct(s);
        assert Distinct(s) ==> Distinct(front);
      }
    }
  }

  lemma SubsetSize(a: set<Id>, b: set<Id>)
    requires a <= b
    ensures |a| <= |b|
    ensures |a| == |b| ==> a == b
  {
    assert b == a + (b - a);
    assert |b| == |a| + |b - a|;
  }

  predicate HasPredecessorIn(edges: seq<Edge>, rest: set<Id>, v: Id) {
    exists u :: u in rest && HasEdge(edges, u, v)
  }

  predicate Stuck(edges: seq<Edge>, rest: set<Id>) {
    forall v :: v in rest ==> HasPredecessorIn(edges, rest, v)
  }

  lemma PrependWalk(edges: seq<Edge>, u: Id, q: seq<Id>)
    requires Walk(edges, q) && HasEdge(edges, u, q[0])
    ensures Walk(edges, [u] + q)
  {
    var p := [u] + q;
    forall i | 0 <= i < |p| - 1 ensures HasEdge(edges, p[i], p[i + 1]) {
      if i > 0 { assert HasEdge(edges, q[i - 1], q[i - 1 + 1]); }
    }
  }

  /** In a set where every node has a predecessor, walks can be extended backwards at will. */
  lemma {:induction false} BackwardWalk(edges: seq<Edge>, rest: set<Id>, n: nat) returns (p: seq<Id>)
    requires rest != {} && Stuck(edges, rest)
    ensures Walk(edges, p) && |p| == n + 1 && forall i :: 0 <= i < |p| ==> p[i] in rest
  {
    if n == 0 {
      var v :| v in rest;
      p := [v];
    } else {
      var q := BackwardWalk(edges, rest, n - 1);
      assert HasPredecessorIn(edges, rest, q[0]);
      var u :| u in rest && HasEdge(edges, u, q[0]);
      PrependWalk(edges, u, q);
      p := [u] + q;
    }
  }

  lemma Repetition(p: seq<Id>, rest: set<Id>) returns (i: nat, j: nat)
    requires |p| > |rest| && forall i :: 0 <= i < |p| ==> p[i] in rest
    ensures i < j < |p| && p[i] == p[j]
  {
    DistinctSize(p);
    SubsetSize(Members(p), rest);
    i, j :| 0 <= i < j < |p| && p[i] == p[j];
  }

  lemma WalkSlice(edges: seq<Edge>, p: seq<Id>, i: nat, j: nat)
    requires Walk(edges, p) && i < j <= |p|
    ensures Walk(edges, p[i..j])
  {
    var q := p[i..j];
    forall k | 0 <= k < |q| - 1 ensures HasEdge(edges, q[k], q[k + 1]) {
      assert HasEdge(edges, p[i + k], p[i + k + 1]);
    }
  }

  lemma WalkMeetsItself(edges: seq<Edge>, p: seq<Id>, i: nat, j: nat)
    requires Walk(edges, p) && i < j < |p| && p[i] == p[j]
    ensures Cyclic(edges)
  {
    WalkSlice(edges, p, i, j + 1);
    hide Walk;
    var q := p[i..j + 1];
    assert q[0] == p[i] && q[|q| - 1] == p[j];
  }

  /** Such a set contains a cycle: a walk longer than the set meets itself. */
  lemma StuckSetHasCycle(edges: seq<Edge>, rest: set<Id>)
    requires rest != {} && Stuck(edges, rest)
    ensures Cyclic(edges)
  {
    hide Walk, Stuck, HasEdge;
    var p := BackwardWalk(edges, rest, |rest|);
    var i, j := Repetition(p, rest);
    WalkMeetsItself(edges, p, i, j);
  }
}
