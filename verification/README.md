# A verified model of the run engine and its neighbours

This project models the part of the repository that has to stay right while things go wrong: the
durable run engine and the timeline folded from its events, together with the bounded-state and text
algorithms around it. Every claim below is a contract or a lemma that `dafny verify dfyconfig.toml`
checks.

## What is modelled

**The run engine.** A run is its status, its nodes ordered by index, a cancel request, a revision
counter, an append-only event log and the executor that owns it, if one is alive (`RunModel`). Every
commit is one atomic step: claim, start, progress event, pause, finish (with a manager's plan or a
quality-control revision), fail, complete, crash, answer, cancel from the API, cancel at the top of the
loop, retry, reap, startup recovery. `Replay` and `Reaches` range over every interleaving of those steps.
`RunEngine` has the same run as a mutable class with the service, recovery and executor methods as loops
and assignments; each method is proved to do exactly the step of the model, and the whole `Execute` job,
with crashes and cancel requests arriving at any turn, is proved to be a sequence of such steps that ends.

What holds in every reachable state is proved in `RunInvariant` (legal transitions, unique ids, events
numbered 1..n, one reply for a finished save node), `RunHead` (at most one node in progress, and the
projection rule in `run_state.py` against the stored status), `RunOrder` (indices and the order in which
nodes are done), `RunLimit` (how many revisions that order allows, exactly), `RunTermination` (why the loop
ends), `RunHistory` and `RunResults` (what flags, counters and rows say about the commits behind them),
`TimelineMeanings` (what the browser's fold shows for any list of events) and `TimelineAgreement` (that fold
against the stored run); `RunSteps` says what each kind of commit does to the list of nodes. `EventStream`
carries the events to the browser,
`SseParsing` is the browser's parser for arbitrary chunks, and `SseStreams` what it reads of the CRLF
frames the server's library sends.

**Around it.** `DagScheduler` and `GraphLayout` compute longest paths in two different ways, over the graph
theory in `Graphs`. `RateLimits`, `SessionMemory` and `DeltaBuffers` are algorithms that forget and must
not forget too much. `AgentVersions`, `SkillOrder` and `PromptComposition` take an agent from a draft to
the prompt; `AgentServices` runs any sequence of requests on a catalog of agents, and `AgentLaws` says of
each request what is stored before and after it. `ImageSizes`, `Templates`, `HeaderSecrets` and `Masking`
are arithmetic and text. `Options`, `Sequences` and `WhiteSpace` are shared.

## What the proofs found

Some properties hold only under a condition; each is stated with the exact condition, or with the runs
and inputs that break it.

- Node indices stay distinct with the save node on top if and only if `max_revisions` is at most 492
  (`RunLimit.IndexGuardIsExact`), and nodes are done in the order of their list if and only if it is at most
  494 (`RunLimit.StatusGuardIsExact`). The runs that break this keep every node id within the 80 characters
  of its column. The option is not bounded by the code. What does not depend on it is proved for every
  value: one node in progress at most, only succeeded nodes in a succeeded run, at most
  16 + 2 * `max_revisions` nodes.
- The projection rule differs from the stored status of a queued run exactly when some node has started, and of
  a running one when it has just been claimed, waits to restart an answered node, or is about to complete.
- A run that fails with its node agrees with the projection rule; one that is reaped or recovered does if
  and only if a node was running at that moment. Claim, crash, then either of the two: no node is marked
  failed, and the rule says QUEUED (`RunHead.FailureWithoutNode`).
- A retry writes no event, so the folded status is FAILED while the stored one is QUEUED, exactly from the
  retry to the next claim or cancel. The folded terminal flag is never reset: it is set if and only if the
  run has ended or was ever retried. A replay ends the stream if and only if one of the next 5000 events is
  a terminal one, so a page that follows a retried run from before its failure is cut off there.
- A cancel request stands exactly until the next retry, and no run is ever cancelled without one standing.
  Of a cancelled run the page shows nothing as pending or waiting, but of the nodes it lists it shows those
  with a wrong status, and only those, that had been answered or reset by a retry and were not restarted
  before the cancellation (`TimelineAgreement.CancelledRunsAreShown`).
- The client notices the end of a run only on a connection that brings the terminal event and does not
  break afterwards. If it breaks there, the client has every event and keeps connecting
  (`EventStream.LastEventEndsExactly`).
- A gap of more than 5000 events in the live stream is not filled completely; the stream is complete if
  and only if no such gap is met before it ends.
- A chunk boundary inside the CRLF that ends a frame joins that frame to the next one; a boundary inside
  any other CRLF does no harm. Every event is read, once and with nothing left over, if and only if between
  two frames with data some frame end is whole, and the last one is: a heartbeat comment may
  save the event in front of it. Without comments that means no boundary in a frame's end.
- Of a streamed reply all text arrives if and only if every chunk is sent whole. A provider that sends text
  can rely on it if and only if its deltas have at most 1953 characters and never do more than 16 empty
  ones wait between two chunks. Seventeen empty deltas push one letter out of the 64 that are sent.
- The scheduler also reports a repeated node id as a cycle.
- Connecting an existing agent never checks whether its command is free (the unique index refuses the
  write exactly when it is not), and it publishes a waiting draft without validation, so an active agent
  can end up with blank instructions, in exactly one situation (`AgentVersions.BlankDraftSlipsThrough`),
  four requests away from an empty catalog (`AgentServices.BlankAgentIsReachable`).
- A published version stays as it is until its agent, its provider, one of its tools or a handoff target is
  deleted, and only until then (`AgentServices.PublishedExactly`). An active version keeps its provider and
  its enabled tools; its handoffs it may lose, although the error in `console.py` says they would block the
  deletion: the foreign key cascades (`AgentServices.HandoffIsCut`).
- After any requests every handoff of every version leads to another agent that exists
  (`AgentLaws.EveryHandoffLeads`), so publishing never finds a handoff target missing.
- After a reorder the priorities are exactly 10, 20, ..., 10n if and only if no id was requested twice.
- Trimming keeps the longest part that fits, for all bounds, if and only if nothing precedes the first user
  message; items in front of it are charged but never kept.
- A secret can be brought back by masking itself if and only if it starts or ends with the mask character
  or contains the whole mask.
- Extracting header credentials and rendering them again restores the headers if and only if secrets that
  got the same name have the same value. `Authorization: Bearer a` and `api-key: b` share a name, the first
  value wins, and the second header comes back wrong (`HeaderSecrets.TokenAndKeyClash`).

## Model

Paths are relative to the repository. Class members are written `Module.Class.Member`.

| member | source | states |
|---|---|---|
| RunInvariant.StepKeepsCore | apps/api/app/domain/run_state.py:30-79 | every commit by any actor, also those that never call the assert functions, moves the run and each node only along the transition tables, only extends the log, drops no node, and keeps the invariant: ids unique, nodes sorted, events numbered 1..n, each node status possible for the run's status |
| RunInvariant.CoreInvAlways | apps/api/app/workers/run_executor.py:101-198 | the invariant holds in every state any interleaving of executor, API and recovery commits can reach |
| RunInvariant.CreateEstablishesCore | apps/api/app/services/runs.py:272-319 | a newly created run satisfies the invariant, for both plans |
| RunHistory.OnlyTheseMoves | apps/api/app/domain/run_state.py:31-52 | written out, the changes of status that commits make, of a run and of each of its nodes: fewer than the tables allow, as no queued or waiting run and no node but a running one ever fails |
| RunInvariant.FinishedReplies | apps/api/app/workers/run_executor.py:1282-1290 | finishing a node adds the assistant message only for the one save node, which was not done before: the run has one message if that node succeeded and none otherwise |
| RunInvariant.AfterResultGrows | apps/api/app/workers/run_executor.py:1149-1181 | a result only adds pending agent steps with fresh ids; every row there was stays, and the list stays sorted with one save node |
| RunInvariant.ReviseGrows | apps/api/app/workers/run_executor.py:1198-1243 | a revision adds only revision nodes, numbered above every earlier revision, so their ids are fresh |
| RunInvariant.LastSequenceIsLength | apps/api/app/services/events.py:43-51 | on a log numbered 1..n the query for the highest number gives n |
| RunInvariant.NodeIdStringsUnique | apps/api/app/models/workflows.py:144-151 | the id strings of a run's nodes are pairwise distinct in every reachable state, as the unique constraint on (run, node id) demands |
| NodeIds.RenderInjective | apps/api/app/workers/run_executor.py:1156 | different node identifiers give different strings, however often `:rev<n>` is appended and whatever the slugs |
| NodeIds.DecimalInjective | apps/api/app/workers/run_executor.py:1220-1233 | decimal notation tells the numbers in ids apart |
| RunHead.StepKeepsHead | apps/api/app/workers/run_executor.py:126-198 | every commit by any actor keeps: everything in front of the node that runs, waits or has failed is succeeded; a node waits unanswered only while its run waits; a succeeded run has only succeeded nodes |
| RunHead.ReachableRunsHaveOneHead | apps/api/app/workers/run_executor.py:131-198 | in every reachable state of every run, for any max_revisions: at most one node runs, waits or has failed and all before it have succeeded; none runs unless its run does; a succeeded run has only succeeded nodes, a cancelled one only succeeded and skipped ones |
| RunHead.RuleMeans | apps/api/app/domain/run_state.py:82-96 | the rule for any list of nodes: when it gives each status, with a question before a failure and a failure before all else; queued if and only if all are pending, succeeded if and only if there are nodes and all are done or skipped |
| RunHead.DerivedStatusAgrees | apps/api/app/domain/run_state.py:82-96 | in every reachable state the stored status equals the projection rule's while waiting, when succeeded and when cancelled |
| RunHead.DerivedWhileQueued | apps/api/app/domain/run_state.py:82-96 | a reachable queued run agrees with the rule if and only if none of its nodes has started |
| RunHead.DerivedWhileRunning | apps/api/app/domain/run_state.py:82-96 | a reachable running run agrees with the rule if and only if a node runs, or some have succeeded, some are pending and none waits with its answer |
| RunHead.DerivedFailureAgrees | apps/api/app/domain/run_state.py:90-91 | a commit that fails a reachable run leaves one on which the rule agrees if and only if it failed the run with its node, or, for the reaper and startup recovery, a node was running before it |
| RunHead.FailureWithoutNode | apps/api/app/workers/recovery.py:48-75 | for every agent and plan: claimed, crashed and then reaped or recovered, a run has failed while the rule derives QUEUED |
| RunOrder.StepKeepsOrder | apps/api/app/workers/run_executor.py:126-198 | for every value of max_revisions, every commit keeps the layout of the list (indices 0, 1, 2, ... up to the save node, the thousandth and later rows behind it), the bound on its length and the index beyond the save node's only from the 494th revision on; up to 494 revisions also that nothing unfinished stands in front of a succeeded node |
| RunOrder.CreateEstablishesOrder | apps/api/app/services/runs.py:40-77 | both plans start laid out like that |
| RunOrder.ReachableRunsAreOrdered | apps/api/app/services/runs.py:405-511 | in every reachable state, whatever max_revisions: that layout and at most 4 + 12 + 2 * max_revisions nodes; up to 492 revisions strictly rising indices with the save node last; up to 494 revisions succeeded nodes, then at most one that runs, waits, failed or is next, then pending ones (skipped ones when cancelled) |
| RunOrder.ResultGrows | apps/api/app/workers/run_executor.py:832-872 | whatever a node returns, the rows it adds keep the layout, go in behind it up to 494 revisions, and are at most twelve once plus two for each revision it uses; while the manager is unfinished nothing is added |
| RunOrder.FinishKeepsOrder | apps/api/app/workers/run_executor.py:384-399 | finishing the running node, with everything it schedules, keeps all of that |
| RunLimit.IndexGuardIsExact | apps/api/app/services/runs.py:37-53 | over all agents, plans and reachable states whose node ids fit their column, indices stay distinct with the save node on top if and only if 14 + 2 * max_revisions < 1000 |
| RunLimit.StatusGuardIsExact | apps/api/app/services/runs.py:37-53 | over the same runs, nodes are done in the order of their list if and only if 10 + 2 * max_revisions < 1000 |
| RunLimit.TooManyRevisionsCollide | apps/api/app/workers/run_executor.py:1215-1242 | beyond that guard a run is built, its ids within 80 characters, in which a re-check shares the save node's index |
| RunLimit.TooManyRevisionsOvertake | apps/api/app/workers/run_executor.py:1215-1242 | beyond that guard such a run is built in which a pending node stands in front of a succeeded one |
| RunLimit.ColumnFitsAlong | apps/api/app/models/workflows.py:151 | if the ids of a run fit the column at the end they fitted after every commit before, so no commit on the way was refused |
| RunLimit.Climb | apps/api/app/workers/run_executor.py:1198-1243 | a manager planned twelve steps and each but the first fails its check: from k such steps the run reaches k + 1, with the producer and the check queued once more and ids that grow only with every doubling of the list |
| RunHistory.PlansRead | apps/api/app/services/runs.py:40-77 | the ids, indices, kinds and agents of the rows of both plans, as strings, all pending and unanswered |
| RunHistory.CancelNeedsRequest | apps/api/app/services/runs.py:456-498 | after any history the cancel flag is set if and only if a cancel was requested and no retry came after it; a cancelled run has such a request behind it; the attempt is one more than the number of retries |
| RunHistory.RetryGoesOn | apps/api/app/services/runs.py:482-508 | whatever was requested before, after a retry the next claim leads to the choice of a node and not to a cancellation |
| RunHistory.FailedNodeRunsAgain | apps/api/app/services/runs.py:489-498 | retry, claim, choose, start: the node that failed is the one that runs, and no other row has changed |
| RunHistory.ExhaustedExactly | apps/api/app/workers/run_executor.py:1198-1202 | after any history the run is marked exhausted if and only if at some commit a check failed with no revision left |
| RunHistory.EachNodeCompletesOnce | apps/api/app/workers/run_executor.py:384-399 | after any history the log holds a completion of a node if and only if the node has succeeded, and never two |
| RunResults.FailedCheckMeans | apps/api/app/workers/run_executor.py:1194-1244 | a check that fails: with no revision left the run is marked exhausted and no row is added; without a producer neither; otherwise exactly two rows are added, the last agent's node that can be sent back once more and the check once more, with consecutive indices, pending, each for its own agent, and one revision is used |
| RunResults.PassedCheckMeans | apps/api/app/workers/run_executor.py:832-872 | any other result of a node that is no manager changes nothing but that node's status |
| RunResults.PlanIsLaidOut | apps/api/app/workers/run_executor.py:1149-1181 | when a manager is done its run is: the rows before it, itself succeeded, the first twelve steps of its plan in order, each for its own agent, and the save node |
| RunTermination.FinishDecreases | apps/api/app/workers/run_executor.py:126-179 | finishing any node with any result strictly decreases unfinished nodes + 12 per unfinished manager + 2 per revision left |
| RunTermination.StartKeepsMeasure | apps/api/app/workers/run_executor.py:263-274 | starting a node does not change that measure |
| RunTermination.CountsAddSteps | apps/api/app/workers/run_executor.py:1154-1181 | a manager's plan of any length adds at most twelve unfinished nodes |
| RunTermination.CountsRevise | apps/api/app/workers/run_executor.py:1198-1243 | the two nodes of a revision are paid for by the revision used |
| RunEngine.WorkflowRun.constructor | apps/api/app/services/runs.py:272-319 | creating a run stores the plan of the routed agent as pending nodes |
| RunEngine.WorkflowRun.Cancel | apps/api/app/services/runs.py:456-480 | refused exactly for a succeeded, failed or cancelled run; otherwise exactly the cancel step: a queued or waiting run ends with its open nodes skipped, a running one keeps the request |
| RunEngine.WorkflowRun.Retry | apps/api/app/services/runs.py:482-511 | allowed exactly for failed runs; failed nodes are pending again, the attempt counts up, no cancel request stands afterwards, no event is written; what follows from it over histories is RunHistory |
| RunEngine.WorkflowRun.AnswerClarification | apps/api/app/services/runs.py:405-453 | accepted exactly for a waiting run with a waiting node; the first one gets its answer and stays waiting, the run is queued, one event says so |
| RunEngine.WorkflowRun.ReapIfStale | apps/api/app/services/runs.py:343-388 | a stale running run fails with its running nodes, each reported without its index, then the run |
| RunEngine.WorkflowRun.RecoverIfStale | apps/api/app/workers/recovery.py:48-75 | at startup a stale running run fails with its running nodes, and only the run's failure is reported |
| RunEngine.WorkflowRun.PickNode | apps/api/app/workers/run_executor.py:131-139 | the executor takes the first node in index order that is pending or has its answer |
| RunEngine.WorkflowRun.NextFreeIndex | apps/api/app/workers/run_executor.py:1152 | one above the highest index below the save node |
| RunEngine.WorkflowRun.PickProducer | apps/api/app/workers/run_executor.py:1203-1214 | the last succeeded agent node of another agent before the check |
| RunEngine.WorkflowRun.MaybeRequestRevision | apps/api/app/workers/run_executor.py:1194-1244 | producer and check are queued once more while revisions are left; otherwise the run is marked exhausted |
| RunEngine.WorkflowRun.ExpandManagerPlan | apps/api/app/workers/run_executor.py:1149-1181 | the first twelve steps become nodes with rising indices, unless their id exists |
| RunEngine.WorkflowRun.ScheduleFollowUps | apps/api/app/workers/run_executor.py:832-872 | a failed report first asks for a revision, then a manager's plan is expanded over the nodes as last read |
| RunEngine.WorkflowRun.StartChosen | apps/api/app/workers/run_executor.py:263-274 | exactly the start step, with its event |
| RunEngine.WorkflowRun.PauseForUser | apps/api/app/workers/run_executor.py:758-779 | exactly the pause step: node and run wait, any earlier answer is dropped, the executor returns |
| RunEngine.WorkflowRun.FinishNode | apps/api/app/workers/run_executor.py:384-400 | exactly the finish step: follow-ups scheduled, reply written for the save node, node done, one event |
| RunEngine.WorkflowRun.FailRun | apps/api/app/workers/run_executor.py:200-246 | exactly the failure step: node and run fail, in that order in the log |
| RunEngine.WorkflowRun.CancelAtTop | apps/api/app/workers/run_executor.py:191-198 | exactly the cancel step of the loop |
| RunEngine.WorkflowRun.Turn | apps/api/app/workers/run_executor.py:126-179 | one turn, with cancel requests and a crash possible at each point, is a sequence of steps of the model; it ends the executor or strictly decreases the measure |
| RunEngine.WorkflowRun.Loop | apps/api/app/workers/run_executor.py:126-189 | the loop ends for every behaviour of the agents, and a run it leaves running was left by a crash |
| RunEngine.WorkflowRun.Execute | apps/api/app/workers/run_executor.py:89-189 | the job claims a run exactly when it is queued, refines a sequence of model steps, always terminates, and changes nothing if it could not claim |
| RunEngine.EventRecorder.Add | apps/api/app/services/events.py:43-72 | an event gets the cached next number, or one above the highest stored on first use |
| RunEngine.EventRecorder.LastNumber | apps/api/app/services/events.py:45-48 | the highest number in the log, 0 when it is empty |
| Timelines.DeriveTimeline | apps/web/src/lib/timeline.ts:41-154 | the loop with its local variables and the final sort give the timeline defined by folding the log; what that timeline is, is said event by event in TimelineMeanings and against the stored run in TimelineAgreement |
| TimelineMeanings.NodesMean | apps/web/src/lib/timeline.ts:50-153 | for any list of events: the nodes shown are those named by an event that can name one; each has the index its first mention gives and the status the last event about it says, pending if none says any; a cancellation after that turns pending and waiting into skipped |
| TimelineMeanings.FlagsMean | apps/web/src/lib/timeline.ts:58-146 | for any list of events: the status shown is the last one announced, the question is that of the last event about questions, the terminal flag means that some event ends a run, and the last number is the highest |
| Timelines.FoldOrderFits | apps/web/src/lib/timeline.ts:50-57 | the fold lists each node named by the log exactly once, in order of first mention |
| Timelines.SortByIndexSorts | apps/web/src/lib/timeline.ts:153 | the nodes shown are the folded ones in order of index |
| TimelineAgreement.StepKeepsMirror | apps/web/src/lib/timeline.ts:58-152 | every commit, with the events it writes, keeps the fold in step with each stored node: which nodes are shown, their index, and which stored statuses each shown one can stand for |
| TimelineAgreement.ListHolds | apps/web/src/lib/timeline.ts:153 | the list shown holds exactly the nodes the fold knows, as it knows them |
| TimelineAgreement.NodesAreShown | apps/web/src/lib/timeline.ts:41-154 | in every reachable state the page shows only stored nodes, with their index and a status that fits the stored one; a node it does not show has not started |
| TimelineAgreement.CancelledRunsAreShown | apps/web/src/lib/timeline.ts:144-152 | for every cancelled run, whatever its history: nothing is shown pending or waiting, the node that waited unanswered is shown skipped, every succeeded one succeeded, and a shown status differs from the stored one exactly for a node that had been answered or reset and not restarted |
| TimelineAgreement.FoldedStatusAgrees | apps/web/src/lib/timeline.ts:41-154 | after any interleaving the folded status is the stored one, except that directly after a retry it is FAILED while the run is queued |
| TimelineAgreement.OnlyClaimOrCancelAfterRetry | apps/api/app/services/runs.py:482-508 | from a queued run only a claim or a cancel can follow, so that is where the exception ends |
| TimelineAgreement.ShownFlags | apps/web/src/lib/timeline.ts:106-146 | in every reachable state the page shows a question exactly while the run waits (a cancelled run may keep it), it is the waiting node's, the last number is the log's length, and the terminal flag means ended or ever retried |
| TimelineAgreement.SucceededRunsAreShownWhole | apps/web/src/lib/timeline.ts:153 | for a succeeded run, whatever max_revisions, the timeline shows each stored node once, all succeeded and in order of index; up to 492 revisions that is the stored list itself |
| TimelineAgreement.FinishedTimelineIsTheRun | apps/web/src/lib/timeline.ts:119-127 | nodes all succeeded and mirrored by the fold are shown each once in order of index, and as the stored list itself where indices differ |
| TimelineAgreement.MirrorRecover | apps/api/app/workers/recovery.py:50-75 | recovery writes no event for the nodes it fails, and the fold still mirrors the run |
| EventStream.ReplayRows | apps/api/app/services/events.py:82-91 | a replay gives the stored numbers after `after`, consecutive, at most 5000, and all of them when it gives fewer |
| EventStream.Stream | apps/api/app/api/v1/runs.py:147-188 | the generator sends each event once, in order, none left out, if and only if it ends with the replay or no gap in the live events exceeds 5000; unless it ended, every live event was sent; it ends with the replay exactly when the run had ended or the replay holds a terminal event |
| EventStream.Follow | apps/api/app/api/v1/runs.py:162-187 | the live part skips repeats and fills gaps, completely if and only if each fits one replay; it ends only with a terminal event, and until then nothing that arrives is left out |
| EventStream.PrefixGapFree | apps/api/app/api/v1/runs.py:150-157 | whatever part of such a stream arrives before a connection drops never jumps ahead |
| EventStream.Subscribe | apps/web/src/lib/sse.ts:44-86 | over any number of connections fed gap-free from the last number, each of which may be cut and may break: consecutive events, each once, and all that any connection brings up to the last one, or to the first that brings a terminal event and does not break, on which the client ends |
| EventStream.ReadConnection | apps/web/src/lib/sse.ts:62-79 | one connection: the events beyond the last number, up to the highest it brings, and whether one of them is terminal |
| EventStream.ReplayEndsClient | apps/web/src/lib/sse.ts:49-84 | one unbroken connection that is not cut before its replay is over ends the client, if a terminal event it lacks is stored within the next 5000, and the client has it |
| EventStream.LastEventEndsExactly | apps/web/src/lib/sse.ts:62-84 | when the last event of a run is its only terminal one, the client ends if and only if the connection that brings it does not break afterwards |
| EventStream.ReplayEndsExactly | apps/api/app/api/v1/runs.py:153-160 | a replay after any event number ends the stream if and only if one of the next 5000 events is terminal |
| EventStream.RetriedRunReplaysAsEnded | apps/api/app/api/v1/runs.py:147-160 | a reachable run's log holds a terminal event if and only if the run has ended or was retried, and then a replay from the start ends the stream when the log has at most 5000 events |
| SseParsing.SseParser.Feed | apps/web/src/lib/sse.ts:23-42 | a chunk's events and the new buffer are those of parsing the old buffer with the normalised chunk |
| SseParsing.SseParser.ReadData | apps/web/src/lib/sse.ts:30-33 | the trimmed values of the data lines, joined |
| SseParsing.RestIsIncomplete | apps/web/src/lib/sse.ts:27-29 | the buffer left over never contains a blank line |
| SseParsing.ParseInParts | apps/web/src/lib/sse.ts:24-41 | parsing in two parts is parsing the whole |
| SseParsing.FeedingIsParsing | apps/web/src/lib/sse.ts:23-42 | feeding chunks one by one is parsing their normalised concatenation |
| SseParsing.NormalizationExact | apps/web/src/lib/sse.ts:24 | normalising chunk by chunk equals normalising the stream if and only if no CRLF pair is cut |
| SseParsing.ChunkingIrrelevant | apps/web/src/lib/sse.ts:23-42 | for any text at all: two cuttings that cut no CRLF pair give the same events and the same buffer |
| SseParsing.WholeFrame | apps/web/src/lib/sse.ts:27-37 | a one-line frame ended by CRLF CRLF gives its event |
| SseParsing.CutFrame | apps/web/src/lib/sse.ts:24 | the same frame cut inside its last CRLF gives no event and stays in the buffer |
| SseStreams.NormalizedWithCuts | apps/web/src/lib/sse.ts:24 | what is normalised chunk by chunk is the stream with each CRLF pair shortened, except those with a chunk boundary inside |
| SseStreams.WhatArrives | apps/web/src/lib/sse.ts:23-42 | for frames of any lines sent with CRLF and chunks cut anywhere: the events and the buffer are those of the frames with each one whose end was cut joined to the next |
| SseStreams.FramesArrive | apps/web/src/lib/sse.ts:23-42 | frames kept apart by whole ends give each its event and an empty buffer; otherwise something stays in the buffer or fewer events arrive than frames with data were sent |
| SseStreams.ChunkingIsExact | apps/web/src/lib/sse.ts:23-42 | events and buffer are those of the uncut stream if and only if between two frames with data some frame end is whole and the last end is; for every payload parser in one direction, for the payload itself in the other |
| SseStreams.EncodedEventsArrive | apps/api/app/api/v1/runs.py:147-190 | of the messages and heartbeat comments the server sends, every message is read once and in order with nothing left over if and only if the chunks keep their frames apart like that |
| SseStreams.MessagesArrive | apps/api/app/api/v1/runs.py:155 | without comments: if and only if no chunk ends inside the CRLF that ends a frame |
| SseStreams.SingleDataLine | apps/web/src/lib/sse.ts:30-33 | a frame with one data line, among lines of any other field or comment, gives its trimmed value, which is the data of section 9.2.6 of the WHATWG HTML Living Standard if and only if that data neither starts nor ends with white space |
| DagScheduler.Plan | apps/api/app/adapters/scheduler/dag.py:17-45 | unknown endpoints are refused; a cycle is reported if and only if the edges have one (a self-loop is one, a repeated edge is not) or an id repeats; otherwise every node is in exactly one batch, that of its longest incoming path |
| DagScheduler.Levels | apps/api/app/adapters/scheduler/dag.py:29-45 | the batch loop ends with such a plan or reports the cycle |
| DagScheduler.ReleaseBatch | apps/api/app/adapters/scheduler/dag.py:31-42 | processing a batch leaves each counter at the number of unprocessed predecessors, and queues exactly the nodes that wait for nothing more |
| DagScheduler.SourcesComeFirst | apps/api/app/adapters/scheduler/dag.py:29-45 | each edge's source is in a strictly earlier batch than its target |
| Graphs.StuckSetHasCycle | apps/api/app/adapters/scheduler/dag.py:43-44 | nodes that all wait for one another contain a cycle |
| Graphs.CycleHasNoBound | apps/api/app/adapters/scheduler/dag.py:43-44 | a node on a cycle has no longest incoming path, so it is never scheduled |
| GraphLayout.Layering.Depth | apps/web/src/lib/graph-layout.ts:29-38 | the memoised search ends on every graph; without cycles it gives the longest incoming path; layers once given never change |
| GraphLayout.Layering.LayerAll | apps/web/src/lib/graph-layout.ts:39 | every node gets a layer, exact without cycles and bounded on any graph |
| GraphLayout.SearchAgreesWithScheduler | apps/web/src/lib/graph-layout.ts:27-39 | on an acyclic graph the layer of a node is the number of its batch in the scheduler's plan |
| GraphLayout.Pin | apps/web/src/lib/graph-layout.ts:41-45 | with three layers or more export moves to the last and quality control to the last two; nothing else moves |
| GraphLayout.SortLayer | apps/web/src/lib/graph-layout.ts:51-60 | a layer's nodes are reordered by the pipeline order, and by name within one rank when names can be compared consistently |
| GraphLayout.ColumnsOf | apps/web/src/lib/graph-layout.ts:26-45 | every node gets a column; without cycles that of its longest incoming path unless its id is pinned, and pinned commands stand right |
| GraphLayout.Extent | apps/web/src/lib/graph-layout.ts:65-69 | the loop finds the greatest right and lower edge and adds 60, or 110 below when an edge loops back, with 600 by 360 at least |
| GraphLayout.ForwardMeans | apps/web/src/lib/graph-layout.ts:23 | the edges that count for columns are exactly those to another node that are no failure routes |
| GraphLayout.RanksAre | apps/web/src/lib/graph-layout.ts:14-55 | the rank of each command, written out |
| GraphLayout.LayoutGraph | apps/web/src/lib/graph-layout.ts:21-70 | every node is drawn exactly once, no two boxes come closer than the gaps, all lie on the canvas, each column at 60 + 362 times its number and centred on the canvas with 36 between its boxes, boxes are listed column by column, by rank and then by name, export and quality control stand right, without cycles every other node stands in the column of its longest incoming path, and width and height leave the margins around the boxes that stand out most |
| RateLimits.RateLimiter.Check | apps/api/app/core/ratelimit.py:37-62 | with a clock that never goes back the decision is that of a limiter that forgets nothing; after a refusal there is room from `retry_after` on and none until one second before; after an accepted request memory holds at most 10,000 keys, or only such as have a request in the last sixty seconds |
| RateLimits.RateLimiter.NoKeyExceeds | apps/api/app/core/ratelimit.py:53-58 | at any time no key has more than `limit` accepted requests in any window of sixty seconds |
| RateLimits.NoWindowExceeds | apps/api/app/core/ratelimit.py:53-58 | a history whose requests were each admitted below the limit never exceeds it in any window |
| RateLimits.RateLimiter.Prune | apps/api/app/core/ratelimit.py:59-61 | exactly the keys with a request in the last sixty seconds are kept, with their queues, and the limiter's state stays sound against the full history |
| RateLimits.QueueCounts | apps/api/app/core/ratelimit.py:54-56 | a queue without old times has exactly the recent requests of the whole history |
| RateLimits.RoomWhenOldestLeaves | apps/api/app/core/ratelimit.py:56-57 | the queue is full until its oldest time leaves the window, and then is not |
| RateLimits.DelayIsRight | apps/api/app/core/ratelimit.py:57 | the whole seconds announced are enough and less than a second too many |
| SessionMemory.TrimInputList | apps/api/app/domain/session_memory.py:35-55 | the loop keeps the transcript from the first place to cut on that it accepts |
| SessionMemory.TrimmedFits | apps/api/app/domain/session_memory.py:38 | the result starts at a user message (at the start when there is none) or is empty, and is within both bounds |
| SessionMemory.CallsKeepTheirOutputs | apps/api/app/domain/session_memory.py:38 | a call and its output in the same turn are kept or dropped together |
| SessionMemory.TrimIsIdempotent | apps/api/app/domain/session_memory.py:35-55 | trimming again changes nothing |
| SessionMemory.LongestExactly | apps/api/app/domain/session_memory.py:45-54 | it keeps the longest such part that fits, for all bounds, if and only if nothing precedes the first user message |
| SessionMemory.MemoryIsBounded | apps/api/app/workers/run_executor.py:693-703 | over any sequence of turns that each add one user message, the stored transcript has at most 41 turns and starts with a user message |
| SessionMemory.TurnStores | apps/api/app/workers/run_executor.py:693-703 | a turn stores an end of the earlier transcript, then the question, then the reply: nothing earlier with another provider, all of it with the same one if it fits |
| SessionMemory.LoadHistory | apps/api/app/services/agent_gateway.py:128-152 | the history is the longest window of the newest messages within 12 messages and 12,000 characters, oldest first |
| SessionMemory.TextMeans | apps/api/app/services/agent_gateway.py:139-143 | a message of the user's or the agent's own is its text without the white space around it, cut at 2000 characters; another agent's is cut at 400 and stands behind that agent's name in brackets |
| DeltaBuffers.StreamReply | apps/api/app/workers/run_executor.py:914-1003 | a whole reply, delta by delta: what is sent is, joined, the text received without the first status line if and only if each chunk was sent whole (at most 2000 characters, nothing but empty deltas in front of the last 64); no chunk exceeds 2000 characters; one tool event exactly if some delta starts with `Generating image` |
| DeltaBuffers.ConservedExactly | apps/api/app/workers/run_executor.py:936-1003 | for any list of deltas, empty ones included, all text arrives in order if and only if each chunk was sent whole |
| DeltaBuffers.BoundIsExact | apps/api/app/workers/run_executor.py:939 | over all replies with deltas of at most m characters and never more than e empty ones waiting, text is always conserved if and only if m = 0, or m <= 1953 and e <= 16 |
| DeltaBuffers.ChunksAreSmall | apps/api/app/workers/run_executor.py:939 | no chunk has more than 2000 characters |
| DeltaBuffers.TextIs | apps/api/app/workers/run_executor.py:914-935 | the text of a reply is all its deltas but the first that starts with the status line |
| AgentServices.AgentService.Create | apps/api/app/services/agents.py:195-221 | a taken slug is refused; otherwise an agent that is not active yet, with version 1 as its draft, under a fresh id; everything else stays |
| AgentServices.AgentService.Update | apps/api/app/services/agents.py:223-261 | the errors in the code's order; after success the agent has the status and command given, or its old ones, and nothing else has changed; no two active agents share a command, and the unique index never has to refuse |
| AgentVersions.UpdatedFits | apps/api/app/services/agents.py:229-250 | whichever of command and status changed, the checks suffice for the unique index never to refuse |
| AgentServices.AgentService.OpenDraft | apps/api/app/services/agents.py:131-180 | the existing draft, or a new one with the next number |
| AgentVersions.FreshDraftCopiesActive | apps/api/app/services/agents.py:139-180 | a new draft has exactly the settings, skills, tools and handoffs of the active version, which is published |
| AgentServices.AgentService.SaveDraft | apps/api/app/services/agents.py:263-286 | only the given fields of the draft change; an unknown provider is refused |
| AgentServices.AgentService.Publish | apps/api/app/services/agents.py:379-409 | the draft is published, or a published version becomes active again, after validation; the unique index never has to refuse |
| AgentVersions.PublishedHasInstructions | apps/api/app/services/agents.py:289-377 | a version activated by publishing has instructions |
| AgentServices.AgentService.SetConnection | apps/api/app/services/agents.py:819-898 | succeeds unless the key is refused or, for anything but an origin connection, the command is taken, which only the unique index notices |
| AgentServices.AgentService.MakeRunnable | apps/api/app/services/agents.py:868-886 | instructions are written where the consulted version has none, then whatever draft there is becomes active |
| AgentVersions.BlankDraftSlipsThrough | apps/api/app/services/agents.py:870-885 | a connection leaves an agent with blank instructions if and only if a blank draft waited beside an active version that has some |
| AgentServices.BlankAgentIsReachable | apps/api/app/services/agents.py:868-886 | create with instructions, publish, save a draft without, connect: an active agent whose active version has blank instructions |
| AgentServices.AgentService.Write | apps/api/app/models/agents.py:31-42 | the unique index refuses a write exactly when two active agents would share a command afterwards |
| AgentServices.AgentService.AttachSkill | apps/api/app/services/agents.py:412-462 | the draft has the skill once, with the given settings and the priority given or the skill's default |
| AgentServices.AgentService.DetachSkill | apps/api/app/services/agents.py:490-501 | exactly that skill leaves the draft |
| AgentServices.AgentService.Reorder | apps/api/app/services/agents.py:464-488 | the draft's priorities follow the wanted order; unattached ids are refused |
| AgentServices.AgentService.AttachTool | apps/api/app/services/agents.py:503-534 | the tool's binding is set in the draft, an unknown tool refused |
| AgentServices.AgentService.DetachTool | apps/api/app/services/agents.py:536-547 | exactly that tool leaves the draft |
| AgentServices.AgentService.AddHandoff | apps/api/app/services/agents.py:549-581 | the handoff is set in the draft; itself and unknown agents are refused |
| AgentServices.AgentService.RemoveHandoff | apps/api/app/services/agents.py:583-596 | exactly that handoff leaves the draft |
| AgentServices.AgentService.DeleteAgent | apps/api/app/api/v1/admin/console.py:256-285 | refused for an agent used in a run or message; otherwise it goes, and with it the handoffs to it in every version |
| AgentServices.AgentService.DeleteProvider | apps/api/app/services/providers.py:217-248 | refused while an active version or a draft has the provider; otherwise it is cleared in the versions left |
| AgentServices.AgentService.DeleteTool | apps/api/app/services/integrations.py:214-236 | refused while an active version has it enabled; otherwise its bindings leave every version |
| AgentVersions.EditedFits | apps/api/app/services/agents.py:131-180 | every edit works on the one draft: versions stay numbered 1..n, published ones untouched, commands unique |
| AgentVersions.PutFits | apps/api/app/services/agents.py:379-409 | publishing and going back keep all of that |
| AgentVersions.ConnectedAllFit | apps/api/app/services/agents.py:868-887 | so does a connection, provided the command is free |
| AgentServices.EditIsSound | apps/api/app/services/agents.py:263-286 | no edit of a draft publishes it, changes its number or id, or binds a skill twice |
| AgentServices.StepKeepsAll | apps/api/app/services/agents.py:131-180 | every request, refused or not, keeps versions numbered 1..n with at most the newest a draft, the active version published and commands of active agents unique; all but accepted deletions keep every published version unchanged |
| AgentServices.EveryHistoryFits | apps/api/app/models/agents.py:31-42 | after any sequence of requests on an empty catalog all of that holds |
| AgentServices.PublishedExactly | apps/api/app/models/agents.py:121-216 | over any requests whatever, a version once published stays with its bindings as it is if and only if no later request deletes its agent, its provider, one of its tools or one of its handoff targets; nothing lost ever comes back |
| AgentServices.HandoffIsCut | apps/api/app/api/v1/admin/console.py:256-285 | after four requests an agent that hands off to another is published; deleting that other one, never used in a chat, is accepted and takes the handoff out of the active published version |
| AgentServices.ActiveKeepsItsMeans | apps/api/app/services/providers.py:217-248 | deleting a provider or an integration's tool, accepted or not, leaves every active version its settings, skills, handoffs and enabled tools |
| AgentLaws.RefusedChangesNothing | apps/api/app/services/agents.py:195-261 | after any requests, a refused one leaves everything stored as it was |
| AgentLaws.UpdateWrites | apps/api/app/services/agents.py:236-250 | after any requests, an accepted update sets the status and the command where given and leaves slug, versions, active version and all other agents alone |
| AgentLaws.UpdateAnswers | apps/api/app/services/agents.py:223-250 | which error an update gets, read off what is stored: unknown, command taken by an active agent, no published version |
| AgentLaws.CommandChangesHands | apps/api/app/services/agents.py:229-250 | two agents with one command, the first active: the second is refused, the first is disabled, the second is enabled, and enabling the first again is refused |
| AgentLaws.CreateWrites | apps/api/app/services/agents.py:195-221 | an accepted creation adds one agent under a new id, in draft state, with one draft of number 1 that has the given fields and the defaults elsewhere |
| AgentLaws.EditWrites | apps/api/app/services/agents.py:131-180 | an accepted edit starts from the waiting draft, or from a new one with the content of the active version, and changes it by exactly what this kind of edit says, field by field; the agent and all others are otherwise the same |
| AgentLaws.EditAnswers | apps/api/app/services/agents.py:263-596 | which error each kind of edit gets, and that it gets none otherwise |
| AgentLaws.PublishWrites | apps/api/app/services/agents.py:379-409 | publishing a draft is refused exactly for blank instructions, a command taken by an active agent, a handoff target that is missing, or one of the other problems; accepted, the draft as saved becomes the active published version, with the note if one is given, and the agent is active |
| AgentLaws.RollbackWrites | apps/api/app/services/agents.py:384-396 | going back to a version of one's own that was published makes it the active one and changes no version |
| AgentLaws.NothingToPublish | apps/api/app/services/agents.py:397-400 | without a draft and without a version named, publishing is refused |
| AgentLaws.ConnectWrites | apps/api/app/services/agents.py:819-898 | which error a connection gets, and what it leaves: nothing for an origin one; otherwise an active agent, and, where a draft waits or instructions are missing, that draft or a new one published as the active version, with the given text where they are missing |
| AgentLaws.DeletionWrites | apps/api/app/api/v1/admin/console.py:256-285 | when each deletion is refused, and exactly what an accepted one takes out of every version of every agent |
| AgentLaws.EveryHandoffLeads | apps/api/app/services/agents.py:549-596 | after any requests slugs are unique and every handoff of every version leads to another agent that exists |
| SkillOrder.ReorderSkills | apps/api/app/services/agents.py:464-481 | refused with the unattached ids; otherwise each binding's priority is ten times its place in the wanted order and nothing else changes |
| SkillOrder.OthersOfSort | apps/api/app/services/agents.py:473-480 | picking the unrequested skills out of the sorted list is sorting them alone, ties in their old order |
| SkillOrder.WantedNamesAll | apps/api/app/services/agents.py:473-480 | requested skills and the rest together are exactly the attached skills |
| SkillOrder.PrioritiesAreExact | apps/api/app/services/agents.py:464-481 | the n priorities are exactly 10, 20, ..., 10n if and only if no id was requested twice |
| SkillOrder.RanksMean | apps/api/app/services/agents.py:472-481 | a requested skill's priority is ten times the place of its last mention; every other skill ranks behind all mentions, and these keep the order of the priorities they had |
| PromptComposition.Compose | apps/api/app/services/composer.py:69-89 | the sections in their order with the skills by priority and slug, each optional one exactly when its text is not blank |
| PromptComposition.SectionsMean | apps/api/app/services/composer.py:69-87 | in every prompt the sections stand in one fixed order; platform rules and instructions are always there, a skill's section exactly when the skill is given, every other section exactly when its text holds something that is no white space |
| PromptComposition.ResolveMeans | apps/api/app/services/agent_factory.py:37-74 | a binding takes part if and only if it is enabled, its skill is active and the version it follows exists: a published one it is pinned to, or else the active one; it brings that version's text and number, its own priority, and its own variables over the version's defaults |
| PromptComposition.AscendingIsUnique | apps/api/app/services/composer.py:74 | skills whose keys differ have one order by priority and slug |
| PromptComposition.OrderOfLoadingIsIrrelevant | apps/api/app/services/agent_factory.py:37-74 | the prompt does not depend on the order in which bindings were loaded |
| PromptComposition.PromptFollowsTheRequest | apps/api/app/services/composer.py:74-76 | after a reorder without repeated ids, the skills that take part stand in the prompt in exactly the order asked for, the others behind |
| ImageSizes.Flexible | apps/api/app/domain/image_sizes.py:80-100 | for every ratio both edges are multiples of 16, at least 768 and at most 3840, the aspect is at most 3:1 and within 1/96 of the clamped request, the pixels are within 1.7 and 1.9 million, and the result is the first guess: no repair loop runs |
| ImageSizes.GuessIsGood | apps/api/app/domain/image_sizes.py:86-93 | the rounded edges already satisfy all of this |
| ImageSizes.PixelsFit | apps/api/app/domain/image_sizes.py:87-93 | the rounding keeps the product of the edges within those bounds |
| ImageSizes.AspectNear | apps/api/app/domain/image_sizes.py:84-93 | deriving the long edge from the rounded short one keeps the aspect within 1/96 |
| ImageSizes.NarrowTo | apps/api/app/domain/image_sizes.py:89-95 | the ratio loop ends within 3:1 and leaves a good edge alone |
| ImageSizes.GrowToMinimum | apps/api/app/domain/image_sizes.py:96-97 | the growing loop reaches the minimum and leaves a big enough size alone |
| ImageSizes.ShrinkToMaximum | apps/api/app/domain/image_sizes.py:98-99 | the shrinking loop ends within the limits and leaves a small enough size alone |
| Templates.SecretsIn | apps/api/app/domain/templates.py:38-46 | the loops collect the secrets of the placeholders of all templates given, each once, in order of first appearance |
| Templates.SecretsOfMeans | apps/api/app/domain/templates.py:38-46 | those are each secret asked for, once |
| Templates.MissingSecretExactly | apps/api/app/domain/templates.py:70-77 | strict rendering fails if and only if some secret of the template is not given, and names such a one |
| Templates.NeverFails | apps/api/app/domain/templates.py:74-77 | rendering that is not strict never fails |
| Templates.PlainRenders | apps/api/app/domain/templates.py:91 | text without placeholder syntax renders to itself |
| Templates.SecretTemplateRenders | apps/api/app/domain/templates.py:59-91 | brace-free text followed by one secret renders to the text and the secret's value |
| Templates.PlaceholderRenders | apps/api/app/domain/templates.py:67-91 | any template whose front holds no brace and is followed by a placeholder, with any white space inside: the front, the placeholder's value, and the rest rendered on its own, or the error of the first of them that fails |
| Templates.HoleMeans | apps/api/app/domain/templates.py:17 | what is read as a placeholder is two braces, white space, a name of the allowed characters, white space and two braces |
| HeaderSecrets.ExtractCredentials | apps/api/app/domain/curl_parser.py:282-320 | for every header, with the names, hint words and schemes written out: one that names no credential or holds a placeholder is unchanged; any other with a value becomes a placeholder, behind the scheme and a space if it has one, and its credential is listed under the placeholder's name; nothing is listed that is not the end of some header's value or the `-u` token |
| HeaderSecrets.SensitiveIs | apps/api/app/domain/curl_parser.py:17-36 | a name carries a credential if and only if it is one of the seventeen listed or holds one of the ten hint words |
| HeaderSecrets.EachIsHandled | apps/api/app/domain/curl_parser.py:293-320 | each single header becomes what those rules say |
| HeaderSecrets.SlugIsWords | apps/api/app/domain/curl_parser.py:153-155 | the name made from a header is its words in small letters joined by underscores, whatever stands around and between them, or `secret` without words |
| HeaderSecrets.ClientSecretFound | apps/api/app/domain/curl_parser.py:298-320 | `X-Client-Secret: s3cret` is found under `x_client_secret`, though it is on no list |
| HeaderSecrets.SlugIsName | apps/api/app/domain/curl_parser.py:153-155 | the name made from any header is not empty and fits a placeholder |
| HeaderSecrets.FindingFits | apps/api/app/domain/curl_parser.py:299-320 | the text left standing and the secret together are the header's value |
| HeaderSecrets.FoundRestored | apps/api/app/domain/curl_parser.py:293-320 | one templated header comes back if and only if its secret's name leads to its own value |
| HeaderSecrets.BasicRestored | apps/api/app/domain/curl_parser.py:282-291 | the same for the header made from `-u` |
| HeaderSecrets.StoredExactly | apps/api/app/services/integrations.py:337-340 | keeping the first value of a name keeps every secret if and only if same-named secrets are equal |
| HeaderSecrets.RoundTripExactly | apps/api/app/domain/curl_parser.py:282-320 | rendering the extracted headers with the stored secrets restores all original values if and only if same-named secrets are equal |
| HeaderSecrets.ClashingPair | apps/api/app/services/integrations.py:337-340 | any two headers whose secrets get one name but differ: the second comes back with the first one's secret |
| HeaderSecrets.TokenAndKeyClash | apps/api/app/domain/curl_parser.py:299-320 | an `Authorization` token and an `api-key` header are such a pair |
| Masking.MaskSecrets | apps/api/app/domain/templates.py:107-112 | the loop replaces the secrets of at least four characters, longest first |
| Masking.LongestComeFirst | apps/api/app/domain/templates.py:109 | the lengths never rise along the sorted values |
| Masking.NeverRecreated | apps/api/app/domain/templates.py:111 | replacing any secret never creates an occurrence of one that neither starts nor ends with the mask character nor contains the mask |
| Masking.NoSecretShows | apps/api/app/domain/templates.py:107-112 | every such secret of at least four characters is absent from the result, whatever the overlaps |
| Masking.OthersAreLeftAlone | apps/api/app/domain/templates.py:107-112 | a text that holds no secret of four or more characters is returned as it is |
| Masking.OneSecretIsMasked | apps/api/app/domain/templates.py:107-112 | the first occurrence of a single secret becomes eight bullets, the text in front stays, and the rest is masked in the same way |
| Masking.RemovedExactly | apps/api/app/domain/templates.py:111 | a secret is removed from every text if and only if it is such a one |
| Masking.MaskingIsIdempotent | apps/api/app/domain/templates.py:107-112 | masking a masked preview changes nothing |

## Left out

The engine:

- Node rows are values in a sequence, so aliasing between a row read before and after a refresh is not modelled; the run itself is a mutable object.
- A single writer is assumed: reaping and recovery happen only when the executor is gone. Heartbeats and the clock appear as one flag that says the run is stale.
- Database failures, locks and isolation; the claim with its row lock is one step. A failure inside a node before its start was committed, and work a node leaves half done in its transaction when it raises.
- Publishing on the event bus, and a crash between a commit and the publication of its events.
- What happens when the database refuses a node id of more than 80 characters: the runs of the model have ids of any length, and those of `RunLimit` fit the column.
- The copy of the plan in `plan_json`, artifacts, usage, messages other than their number. Nodes with equal indices are listed in the order they were added; the query leaves their order open.
- The manager's plan is an arbitrary list of steps: how it is read from the agent's output or guessed from keywords is not modelled.
- Timelines.DeriveTimeline: names, labels, agents, tools, previews, artifacts and error texts are not in the timeline modelled.
- TimelineAgreement.StepKeepsMirror: a node shown as failed may be stored as pending, because a retry resets it without an event, and one shown as running may be stored as waiting with its answer, because it has not been restarted; both are as in the code.
- EventStream.Subscribe: the feed of each connection, and whether it breaks, are parameters; a feed may not jump ahead; that the generator provides such a feed is Stream and PrefixGapFree, up to the gap of 5000. The number of connections is finite, and a page that is closed is one with fewer of them.
- SseParsing.ChunkingIrrelevant: one direction only, as it is about texts that need not be streams of frames; for the CRLF frames a server sends, SseStreams.ChunkingIsExact has both.
- SseStreams.EncodedEventsArrive: the server's library is modelled by its documented frame, lines and frames ended by CRLF, and heartbeats by the comment they carry. JSON parsing is a function given to the parser, defined on every payload sent. Bytes are decoded before they are parsed.

The rest:

- GraphLayout.SortLayer: the comparison of names by locale is a parameter; order by name is promised when it compares consistently.
- The curves between boxes.
- RateLimits.RateLimiter.Check: assumes a clock that never goes back, as the wall clock mostly does. The Redis path is not modelled.
- SessionMemory.LoadHistory: messages are those the query returned, with the command already parsed off; the loop appends in front instead of appending and reversing.
- Item sizes are given numbers of at least two characters, not the length of a JSON text; token budgets are parameters.
- AgentServices.AgentService.Publish: provider, model, skill and tool problems are one boolean; instructions, command and handoff targets are modelled.
- AgentServices.AgentService.SetConnection: the connection's own fields (endpoint, key, configuration) are not modelled.
- AgentServices.PublishedExactly: an import from a cURL command is a creation and a publication, and choosing a runtime changes only a connection's fields, so neither is a request of its own. Which agents were used in chats, and which providers and integrations there are, comes with each request; deleting a whole organization is not modelled.
- Tool bindings and handoffs are maps from their target, so their uniqueness holds by construction. A failed request rolls everything back. Which providers, skills and tools exist comes with each request. Role checks, audit records and encryption of keys are not modelled.
- PromptComposition.Compose: sections are modelled by name and order; their text and the substitution of skill variables are not.
- ImageSizes.Flexible: real arithmetic with the square root given by its defining equation, not IEEE floats; reading a size from a text and the fixed sizes of other models are not modelled.
- Templates.SecretTemplateRenders: variables are a flat map; nested paths, structured values and JSON escaping are not modelled.
- HeaderSecrets.RoundTripExactly: requires header names to differ, as keys of a dictionary do, and headers that stay as they are to hold no placeholder syntax. Letters are lowered as in ASCII. The rest of the cURL parser, credentials in queries included, is not modelled.
