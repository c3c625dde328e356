/** What the steps that move a single node do to the rows and to the log. */
module RunSteps {
  import opened Options
  import opened RunStates
  import opened NodeIds
  import opened RunModel
  import opened RunInvariant

  lemma StartShape(s: Run) returns (k: nat)
    requires CoreInv(s) && Enabled(s, StartNode)
    ensures k < |s.nodes| && UniqueIds(s.nodes) && Runnable(s.nodes[k])
    ensures var t := Apply(s, StartNode);
      && t.nodes == s.nodes[k := s.nodes[k].(status := Running)]
      && t.log == s.log + [NodeEvent(|s.log| + 1, NodeStarted, s.nodes[k])]
      && t.status == s.status && t.attempt == s.attempt && s.status == RunRunning
  {
    k := ChosenNodeAt(s);
    WithStatusIsUpdate(s.nodes, k, Running);
  }

  lemma PauseShape(s: Run) returns (k: nat)
    requires CoreInv(s) && Enabled(s, Pause)
    ensures k < |s.nodes| && UniqueIds(s.nodes) && s.nodes[k].status == Running
    ensures var t := Apply(s, Pause);
      && t.nodes == s.nodes[k := s.nodes[k].(status := Waiting, answered := false)]
      && t.log == s.log + [Event(|s.log| + 1, ClarificationRequested, Some(s.nodes[k].id), None)]
      && t.status == RunWaiting && t.attempt == s.attempt && s.status == RunRunning
  {
    k := RunningNodeAt(s);
    WithStatusIsUpdate(s.nodes, k, Waiting);
    var waiting := s.nodes[k := s.nodes[k].(status := Waiting)];
    UpdateKeepsIds(s.nodes, k, s.nodes[k].(status := Waiting));
    WithAnswerIsUpdate(waiting, k, false);
  }

  lemma AnswerShape(s: Run) returns (k: nat)
    requires CoreInv(s) && Enabled(s, AnswerClarification)
    ensures k < |s.nodes| && UniqueIds(s.nodes) && s.nodes[k].status == Waiting
    ensures var t := Apply(s, AnswerClarification);
      && t.nodes == s.nodes[k := s.nodes[k].(answered := true)]
      && t.log == s.log + [Event(|s.log| + 1, ClarificationReceived, Some(s.nodes[k].id), None)]
      && t.status == RunQueued && t.attempt == s.attempt && s.status == RunWaiting
  {
    LastSequenceIsLength(s.log);
    FirstWaitingGives(s.nodes);
    var n :| n in s.nodes && n.id == FirstWaiting(s.nodes).value && n.status == Waiting;
    k :| 0 <= k < |s.nodes| && s.nodes[k] == n;
    WithAnswerIsUpdate(s.nodes, k, true);
  }

  lemma FailShape(s: Run) returns (k: nat)
    requires CoreInv(s) && Enabled(s, FailNode)
    ensures k < |s.nodes| && UniqueIds(s.nodes) && s.nodes[k].status == Running
    ensures var t := Apply(s, FailNode);
      && t.nodes == s.nodes[k := s.nodes[k].(status := Failed)]
      && t.log == s.log + [NodeEvent(|s.log| + 1, NodeFailed, s.nodes[k])] + [RunEvent(|s.log| + 2, RunFailedEvent)]
      && t.status == RunFailed && t.attempt == s.attempt && s.status == RunRunning
  {
    k := RunningNodeAt(s);
    WithStatusIsUpdate(s.nodes, k, Failed);
  }

  lemma FinishShape(s: Run, outcome: Outcome) returns (k: nat, grown: seq<Node>)
    requires CoreInv(s) && Enabled(s, FinishNode(outcome))
    ensures k < |s.nodes| && s.nodes[k].status == Running && GrownFrom(s.nodes, grown)
    ensures var t := Apply(s, FinishNode(outcome));
      && t.nodes == WithStatus(grown, s.nodes[k].id, Succeeded)
      && t.log == s.log + [NodeEvent(|s.log| + 1, NodeCompleted, s.nodes[k])]
      && t.status == s.status == RunRunning && t.attempt == s.attempt
  {
    k := RunningNodeAt(s);
    AfterResultGrows(s, s.nodes[k], outcome);
    grown := AfterResult(s, s.nodes[k], outcome).nodes;
  }
}
