/** The run and node state machines: which status may follow which, and the status a run
    should have given its nodes. */
module RunStates {
  datatype RunState = RunQueued | RunRunning | RunWaiting | RunSucceeded | RunFailed | RunCancelled

  datatype NodeState = Pending | Running | Succeeded | Failed | Waiting | Skipped

  function RunTransitions(current: RunState): set<RunState> {
    match current
    case RunQueued => {RunRunning, RunCancelled, RunFailed}
    case RunRunning => {RunWaiting, RunSucceeded, RunFailed, RunCancelled}
    case RunWaiting => {RunQueued, RunRunning, RunCancelled, RunFailed}
    case RunSucceeded => {}
    case RunFailed => {RunQueued}
    case RunCancelled => {}
  }

  function NodeTransitions(current: NodeState): set<NodeState> {
    match current
    case Pending => {Running, Skipped, Failed}
    case Running => {Succeeded, Failed, Waiting}
    case Waiting => {Running, Failed, Skipped}
    case Failed => {Pending}
    case Succeeded => {}
    case Skipped => {}
  }

  /** A commit either leaves a run's status alone or follows the table. */
  predicate RunMayBecome(current: RunState, target: RunState) {
    current == target || target in RunTransitions(current)
  }

  /** A commit either leaves a node's status alone or follows the table. */
  predicate NodeMayBecome(current: NodeState, target: NodeState) {
    current == target || target in NodeTransitions(current)
  }

  predicate IsTerminal(status: RunState) {
    status in {RunSucceeded, RunFailed, RunCancelled}
  }

  /** The projection rule the documentation gives for a run's status. */
  function DeriveRunState(states: seq<NodeState>, cancelled: bool): RunState {
    if cancelled then RunCancelled
    else if states == [] then RunQueued
    else if Waiting in states then RunWaiting
    else if Failed in states then RunFailed
    else if Running in states then RunRunning
    else if forall s <- states :: s in {Succeeded, Skipped} then RunSucceeded
    else if exists s <- states :: s != Pending then RunRunning
    else RunQueued
  }
}
