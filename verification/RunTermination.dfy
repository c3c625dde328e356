/** The executor's loop ends for every behaviour of the agents. */
module RunTermination {
  import opened Options
  import opened RunStates
  import opened NodeIds
  import opened RunModel
  import opened RunInvariant

  function Unfinished(nodes: seq<Node>): nat {
    if nodes == [] then 0
    else (if nodes[0].status != Succeeded then 1 else 0) + Unfinished(nodes[1..])
  }

  function OpenManagers(nodes: seq<Node>): nat {
    if nodes == [] then 0
    else (if nodes[0].kind == Manager && nodes[0].status != Succeeded then 1 else 0) + OpenManagers(nodes[1..])
  }

  function RevisionsLeft(revisions: nat, maxRevisions: int): nat {
    if maxRevisions > revisions then maxRevisions - revisions else 0
  }

  function MeasureOf(nodes: seq<Node>, revisionsLeft: nat): nat {
    Unfinished(nodes) + 12 * OpenManagers(nodes) + 2 * revisionsLeft
  }

  /** Unfinished nodes, twelve for a manager that has not planned yet, two for each revision left. */
  function Measure(s: Run): nat {
    MeasureOf(s.nodes, RevisionsLeft(s.revisions, s.maxRevisions))
  }

  lemma {:induction false} CountsConcat(a: seq<Node>, b: seq<Node>)
    ensures Unfinished(a + b) == Unfinished(a) + Unfinished(b)
    ensures OpenManagers(a + b) == OpenManagers(a) + OpenManagers(b)
  {
    if a == [] {
      assert a + b == b;
    } else {
      assert (a + b)[1..] == a[1..] + b;
      CountsConcat(a[1..], b);
    }
  }

  lemma CountsInsert(nodes: seq<Node>, n: Node)
    requires n.kind == AgentStep && n.status == Pending
    ensures Unfinished(InsertByIndex(nodes, n)) == Unfinished(nodes) + 1
    ensures OpenManagers(InsertByIndex(nodes, n)) == OpenManagers(nodes)
  {
    var p := Position(nodes, n.index);
    CountsConcat(nodes[..p], nodes[p..]);
    assert nodes == nodes[..p] + nodes[p..];
    CountsConcat(nodes[..p], [n]);
    CountsConcat(nodes[..p] + [n], nodes[p..]);
    assert Unfinished([n]) == 1 + Unfinished([n][1..]) && OpenManagers([n]) == OpenManagers([n][1..]);
  }

  lemma {:induction false} CountsAddSteps(nodes: seq<Node>, existing: set<NodeId>, plan: seq<AgentRef>, i: nat, next: int)
    requires i <= MAX_PLAN_STEPS
    ensures Unfinished(AddSteps(nodes, existing, plan, i, next)) <= Unfinished(nodes) + (MAX_PLAN_STEPS - i)
    ensures OpenManagers(AddSteps(nodes, existing, plan, i, next)) == OpenManagers(nodes)
    decreases |plan| - i
  {
    if i < |plan| && i < MAX_PLAN_STEPS {
      var id := Step(plan[i].slug, i + 1);
      if id in existing {
        CountsAddSteps(nodes, existing, plan, i + 1, next);
      } else {
        var added := Node(id, next, AgentStep, Pending, Some(plan[i].id), false);
        CountsInsert(nodes, added);
        CountsAddSteps(InsertByIndex(nodes, added), existing, plan, i + 1, next + 1);
      }
    }
  }

  lemma CountsRevise(nodes: seq<Node>, qc: Node, revisions: nat, maxRevisions: int, qcExhausted: bool)
    ensures var r := Revise(nodes, qc, revisions, maxRevisions, qcExhausted);
      && Unfinished(r.nodes) + 2 * RevisionsLeft(r.revisions, maxRevisions) == Unfinished(nodes) + 2 * RevisionsLeft(revisions, maxRevisions)
      && OpenManagers(r.nodes) == OpenManagers(nodes)
  {
    if revisions < maxRevisions && Producer(nodes, qc).Some? {
      var producer := Producer(nodes, qc).value;
      var next := NextIndex(nodes, qc.index);
      var again := Node(Rev(producer.id, revisions + 1), next, AgentStep, Pending, producer.agent, false);
      var recheck := Node(Rev(qc.id, revisions + 1), next + 1, AgentStep, Pending, qc.agent, false);
      CountsInsert(nodes, again);
      CountsInsert(InsertByIndex(nodes, again), recheck);
    }
  }

  lemma CountsUpdate(nodes: seq<Node>, k: nat, n: Node)
    requires k < |nodes| && n.kind == nodes[k].kind
    ensures Unfinished(nodes[k := n]) + (if nodes[k].status != Succeeded then 1 else 0)
         == Unfinished(nodes) + (if n.status != Succeeded then 1 else 0)
    ensures OpenManagers(nodes[k := n]) + (if nodes[k].kind == Manager && nodes[k].status != Succeeded then 1 else 0)
         == OpenManagers(nodes) + (if n.kind == Manager && n.status != Succeeded then 1 else 0)
  {
    var a, b := nodes[..k], nodes[k + 1..];
    assert nodes == a + ([nodes[k]] + b) && nodes[k := n] == a + ([n] + b);
    CountsConcat(a, [nodes[k]] + b);
    CountsConcat(a, [n] + b);
    assert ([nodes[k]] + b)[1..] == b && ([n] + b)[1..] == b;
  }

  lemma CountsAfterResult(s: Run, node: Node, outcome: Outcome)
    ensures var r := AfterResult(s, node, outcome);
      && MeasureOf(r.nodes, RevisionsLeft(r.revisions, s.maxRevisions)) <= Measure(s) + (if node.kind == Manager then 12 else 0)
      && OpenManagers(r.nodes) == OpenManagers(s.nodes)
  {
    CountsRevise(s.nodes, node, s.revisions, s.maxRevisions, s.qcExhausted);
    var r := if node.kind in {AgentStep, Manager} && outcome.qcPassed == Some(false)
             then Revise(s.nodes, node, s.revisions, s.maxRevisions, s.qcExhausted)
             else Revision(s.nodes, s.revisions, s.qcExhausted);
    CountsAddSteps(r.nodes, Ids(s.nodes), outcome.plan, 0, NextIndex(s.nodes, node.index));
  }

  /** Finishing a node always brings the loop nearer to its end, whatever the agent returned: the
      twelve steps a manager may add and the two nodes of a revision are paid for in advance. */
  lemma FinishDecreases(s: Run, outcome: Outcome)
    requires CoreInv(s) && Enabled(s, FinishNode(outcome))
    ensures Measure(Apply(s, FinishNode(outcome))) < Measure(s)
  {
    var k := RunningNodeAt(s);
    var node := s.nodes[k];
    CountsAfterResult(s, node, outcome);
    AfterResultGrows(s, node, outcome);
    var r := AfterResult(s, node, outcome);
    assert node in r.nodes;
    FinishedCounts(r.nodes, node);
  }

  lemma FinishedCounts(grown: seq<Node>, node: Node)
    requires UniqueIds(grown) && node in grown && node.status == Running
    ensures Unfinished(WithStatus(grown, node.id, Succeeded)) == Unfinished(grown) - 1
    ensures OpenManagers(WithStatus(grown, node.id, Succeeded)) == OpenManagers(grown) - (if node.kind == Manager then 1 else 0)
  {
    var j :| 0 <= j < |grown| && grown[j] == node;
    WithStatusIsUpdate(grown, j, Succeeded);
    CountsUpdate(grown, j, node.(status := Succeeded));
  }

  /** Starting a node does not move the measure. */
  lemma StartKeepsMeasure(s: Run)
    requires CoreInv(s) && Enabled(s, StartNode)
    ensures Measure(Apply(s, StartNode)) == Measure(s)
  {
    var k := ChosenNodeAt(s);
    WithStatusIsUpdate(s.nodes, k, Running);
    CountsUpdate(s.nodes, k, s.nodes[k].(status := Running));
  }
}
