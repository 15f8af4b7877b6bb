# Linpo planning and dispatch: a verified model

Linpo lets a planner agent lay out a flow of tasks as a dependency graph, streams the plan to its clients while it is
being written, turns the confirmed plan into task rows and dispatches those rows when their dependencies are done. This
project models the parts of that path where the logic is intricate and proves what they promise.

* **The graph.** `FlowCanvas` is `resolve_layers`, Kahn's algorithm with its in-place queue, counters and levels.
  `ReleaseOrder` says in which order its queue releases nodes, `Countdown` which entries it releases when ids are
  repeated. `CompletionCheck` is the session service's second,
  independent Kahn and the checks around it. `Graph` says what a cycle, a chain and a level are, without any algorithm;
  both implementations are proved against it and therefore agree.
* **Scheduling.** `FlowConfirmation` writes the rows, `TaskBoard` is the table with every request that changes it,
  `TaskDependencies` the text encoding of dependency lists between the two. `SchedulerSteps` takes the same requests
  apart into their commits: a request reads a row, may wait for the gateway, and writes what it decided from that
  reading, the status only if it changed, the extras as a whole. `SchedulerRuns` proves what holds in every
  interleaving of any number of dispatchers and requests, `SchedulerRaces` has the runs in which more is lost,
  `RequestCommits` the way back from commits to whole requests. `FlowProgress` says exactly which flows can be run to
  their end, `ConfirmedRuns` what that means for flows that `confirm_flow` has created, `DeclaredDependencies` follows
  one declared dependency from the draft to the running row. `StepMeanings` says of every step what it does to the
  columns of a row.
* **Planner sessions.** `PlannerSession` has the service calls as methods on one session row, `SessionRuns` what any
  sequence of calls keeps: finished sessions stay finished, a revision names one plan, the published patches rebuild the
  plan on the client, a repeated callback batch changes nothing. `CompletedPlans` is about which completed plans have
  been checked. `PlannerMeanings` and `SessionMeanings` say what events, nodes and calls come to in terms of what was sent.
* **Realtime plumbing.** `IngestOwner` is the arbitration between internal callbacks and the observer bridge,
  `RealtimeHub` the publish/subscribe hub whose puts are not covered by its lock, `EventBuffer` the bounded replay
  buffer with the loop that reads it, `PendingEvents` the merging and reordering of observer events.
* **Parsing streams.** `StreamParser` is the incremental JSON-Lines extractor, `LineMeanings` what becomes of every line
  that reaches it, `StreamFrames` the proof that chunk boundaries do not matter, `PendingLines` the order of what it holds back outside frames, `BracketScanner` the quote-aware scanners, `NodeDrafts` the clean-up of the planner's answer.

Code that changes things in loops is modelled as methods with loops and proved against specification functions or
predicates; protocols are transition systems whose invariants are proved for every run. Databases are maps, a commit is
one atomic step, and a call that raises before its commit leaves its session unchanged. Sending a message, the existence
of output files, the clock and fresh ids are parameters, and so is what others commit while a method waits for the
gateway.

What the scheduler promises comes in three strengths. In every run whatsoever no row is claimed more often than it has
entered the queue, and no row lists a node it was not created with. A finished row keeps its status exactly if no request
overwrites it with a status decided on an older reading. And a row that has
started has a completed row for every dependency it is still owed: together with the marks of interruptions and the rows
that requests are at work on, that holds throughout a run exactly if each of its steps is harmless, which is to say that
it overwrites no such mark and takes back no completed row on which one of those rows relies. `owed` are the
dependencies a row was created with, less those a deletion has taken out since. A request that still finds the status it
decided on is harmless. The code does not check any of this, and the four runs in `SchedulerRaces` show what then
happens: a late failed send undoes a completion under a running dependent, a late interruption reopens a completed row,
and an accepted send or a late stripping erases the mark of an interruption, so that `continue_task` approves the
interrupted row, in the second case ahead of its dependencies.

Other places where the code does less than one might expect are stated with the exact condition under which it does
what one would: `TaskDependencies.RoundTripIff` and `DeclaredDependencies.AlwaysAwaitedIff` (the list `["none"]` and ids
with commas or outer blanks do not survive the text form), `SchedulerRuns.MarksHoldIff`,
`SessionRuns.ReplacingKeepsFinishedIff` (`replace_nodes` has no terminal guard),
`CompletedPlans.StatusEventSkipsTheCheck`, `SessionRuns.DeletionPatchExactIff` (the published deletion does not mention
the dependencies that were stripped), `SessionRuns.ChunkIsTheTailIff` (the message query keeps the oldest 400 rows),
`CanvasDiff.DiffReplaysIff`, `PendingEvents.NodeKeyCollision` and `PendingEvents.TopologyFirstIff`,
`RealtimeHub.ReceivedInOrderIff`, `NodeDrafts.DependencySurvivesIff` with `NodeDrafts.KeepsIdIff`,
`FlowCanvas.RaisesIff` (repeated ids) and `PendingLines.OvertakesIff` (text outside the frames that
`StreamFrames.ChunkingIsIrrelevant` is about).

`dafny verify dfyconfig.toml` checks the whole project.

## Model

| member | source | states |
|---|---|---|
| FlowCanvas.ResolveLayers | app/services/flow_canvas_service.py:19-70 | for every input: each entry the queue releases comes out, behind them, once each, the ids it does not release, and `raise` mode gives up exactly if fewer entries were released than listed. Unless a node without known dependencies is listed twice, that means: it raises exactly when the dependency relation (unknown and self edges ignored, repeats allowed) has a cycle or an id is repeated; on success the layers partition the ids, none is empty, and a node's layer is the length of its longest dependency chain; in `append_unresolved` mode the extra last layer is, sorted, exactly the nodes that depend on a cycle, and there is one exactly when there is a cycle. For distinct ids the other nodes come in first-in-first-out release order |
| IdOrder.TextLessMeans | app/services/flow_canvas_service.py:52 | the order of that last layer: one id is before another if it is a proper prefix of it or has the smaller character where they first differ |
| FlowCanvas.RaisesIff | app/services/flow_canvas_service.py:50-63 | for every input, `raise` mode gives a result exactly if every node with dependencies is listed once and its counter is brought to zero by the released entries |
| Countdown.ReleasedIsDetermined | app/services/flow_canvas_service.py:37-48 | which entries are released is determined by the graph and the list, not by the order of the queue |
| FlowCanvas.HiddenCycle | app/services/flow_canvas_service.py:41-50 | for the list r, r, a, b with a on r and b, and b on a, `raise` mode gives a result although a and b form a cycle |
| FlowCanvas.BuildGraph | app/services/flow_canvas_service.py:26-35 | the counters hold the number of listed known dependencies of every node, once for each time it is listed, and the successor lists hold a node once per time it lists the predecessor |
| FlowCanvas.EnteredAll | app/services/flow_canvas_service.py:30-35 | repetitions add no edge to the graph so entered, and distinct ids give the effective dependencies themselves |
| FlowCanvas.Visit | app/services/flow_canvas_service.py:37-48 | the main loop ends for every input; a node without dependencies is released as often as it is listed, any other once or not at all, and exactly if the released entries count it down; unless a node without dependencies is repeated it releases nodes in level order, each with its final level, until every remaining node waits for another remaining one; for distinct ids a node comes by the last of its dependencies to be popped, and nodes with the same last dependency in input order |
| ReleaseOrder.FifoUnique | app/services/flow_canvas_service.py:37-48 | a set of nodes has only one such release order |
| FlowCanvas.LayersAreDetermined | app/services/flow_canvas_service.py:19-70 | so the layering is determined down to the order inside each layer |
| FlowCanvas.EffectiveEdges | app/services/flow_canvas_service.py:30-35 | which listed dependencies count as edges |
| FlowCanvas.DependenciesComeEarlier | app/services/flow_canvas_service.py:37-70 | every dependency of a layered node sits in a strictly earlier layer |
| FlowCanvas.LayersArePointwiseMinimal | app/services/flow_canvas_service.py:41-48 | no numbering that rises along dependencies puts any node earlier than its layer |
| FlowCanvas.NothingIsLost | app/services/flow_canvas_service.py:50-62 | with a cycle, `append_unresolved` mode still returns every id exactly once |
| Graph.UnresolvedIffDependsOnCycle | app/services/flow_canvas_service.py:50-52 | what Kahn's algorithm leaves over are exactly the nodes that transitively depend on a cycle |
| CompletionCheck.DetectCycle | app/services/flow_planner_session_service.py:1930-1947 | reports a cycle exactly when the listed dependencies have one or name an unknown node |
| CompletionCheck.ValidateCompletionNodes | app/services/flow_planner_session_service.py:1904-1927 | accepts exactly the plans of 2 to 12 nodes with distinct ids, closed dependencies, a sensitive node and no cycle; otherwise reports the first violated check and the id it is about |
| CompletionCheck.CompletableMeans | app/services/flow_planner_session_service.py:1904-1927 | said of the nodes themselves: two to twelve of them, no id twice, every listed dependency the id of a node, one of them sensitive, and no cycle |
| CompletionCheck.CycleChecksAgree | app/services/flow_planner_session_service.py:1930-1947 | for closed plans with distinct ids the session's cycle check and the canvas layering see the same cycles |
| CompletionCheck.CompletableIsLayerable | app/services/flow_planner_session_service.py:1904-1947 | every plan that may be completed is layered without raising |
| TaskDependencies.RoundTripIff | app/services/task_output_service.py:69-73 | parsing the comma-joined text gives the list back exactly if every id is non-empty, trimmed and comma-free and the list is not `["none"]` |
| TaskDependencies.RoundTripOfClean | app/api/tasks_flow_task.py:391-490 | so the lists `confirm_flow` writes for flows with clean ids are read back unchanged |
| TaskDependencies.ParseIsClean | app/services/task_output_service.py:69-73 | whatever the stored text, parsing only yields clean ids |
| TaskDependencies.EncodeMeans | app/api/tasks_flow_task.py:469 | an empty list is written as `none`, and a further id goes behind a comma |
| TaskDependencies.ParseMeans | app/services/task_output_service.py:69-73 | read are, in order, the pieces between the commas without outer blanks, the blank ones left out; `none` reads as nothing |
| CanvasDependencies.ResolveCanvasDependsOn | app/api/flow_planner_helpers.py:75-129 | every canvas node gets its declared list, or the sources of its edges if it declares none, trimmed, restricted to known other nodes, without repeats |
| CanvasDependencies.ResolvedDependencies | app/api/flow_planner_helpers.py:75-129 | resolved dependencies are known nodes other than the node itself, in the declared list or among its edges |
| CanvasDependencies.KeptMeans | app/api/flow_planner_helpers.py:75-93 | a list keeps its known other ids in the order they first occur |
| CanvasDependencies.SourcesMean | app/api/flow_planner_helpers.py:113-129 | the edges give their sources in the order of the first edge from each |
| CanvasDependencies.ResolvingAgainChangesNothing | app/api/flow_planner_helpers.py:100-141 | resolving an already resolved node leaves it as it is |
| CanvasDependencies.UndeclaredFollowsEdges | app/api/flow_planner_helpers.py:100-129 | a node that declares nothing depends on exactly the known other ids that the known sources of its edges read as without outer blanks |
| FlowConfirmation.ConfirmFlow | app/api/tasks_flow_task.py:346-575 | refuses empty flows and those of which fewer entries are released than listed, which, unless a node without dependencies is repeated, are exactly those with a cycle or a repeated node, without touching the table; otherwise replaces the requirement's rows by one queued row per draft with its dependency list encoded, for distinct nodes with the longest chain as layer, in layer order and inside a layer first-in-first-out, and changes no other row |
| ConfirmedFlows.NewRowFacts | app/api/tasks_flow_task.py:436-490 | every column of such a row: its own time stamp, the workspace, the flow, the stripped node id, the layer, the encoded list, the agent, queued and pending |
| Listings.SortedBoardTasks | app/services/task_dispatch_service.py:296-310 | every row of the asked workspace, or of all if none is asked, once, by creation time and then by id |
| Listings.TableDecides | app/services/task_dispatch_service.py:334-355 | the dispatcher's lookup table, in which later rows win, decides runnability as the rows themselves do |
| Tasks.RunnableMeans | app/services/task_dispatch_service.py:334-355 | runnable are the queued rows of the asked workspace for each of whose listed dependencies the last row of that node, by creation time and then id, among the rows of the same named flow and workspace, is completed |
| TaskBoards.TaskBoard.DispatchNext | app/services/task_dispatch_service.py:51-171 | selects the first runnable row in listing order; claims it if it is still queued after what others commit in between, else takes none; marks it as sent, and writes the answer into whatever the table has become while the message was under way: the extras as captured before the send, the status if it differs from the one captured |
| TaskBoards.SendMeans | app/services/task_dispatch_service.py:92-171 | in columns: a row without an agent fails at once; else the row is shown as running while others commit, and an accepted send then writes only mark and dependency list, a failed one failed, into whatever row they left |
| TaskBoards.QuietSend | app/services/task_dispatch_service.py:92-171 | if nobody else commits during the send, that leaves the row running or failed by the outcome of the send and every other row alone |
| TaskBoards.TaskBoard.DispatchQueue | app/services/task_dispatch_service.py:257-278 | with a resolvable context and no rival, dispatches exactly the first min(limit, count) of the initially runnable rows, in order |
| TaskBoards.BatchTouchesOnly | app/services/task_dispatch_service.py:257-278 | such a batch changes the dispatched rows, each by its own send, and nothing else |
| Tasks.DispatchKeepsOthersRunnable | app/services/task_dispatch_service.py:334-355 | dispatching one row makes no other row runnable or unrunnable |
| TaskBoards.TaskBoard.Reconcile | app/services/task_dispatch_service.py:173-235 | a visible running row is completed exactly if it has output, fails exactly if it is stale and has none, and every other row stays as it is; reported, in listing order, are exactly the rows that fail |
| TaskBoards.TaskBoard.CompleteWithOutput | app/services/task_dispatch_service.py:433-467 | completes a running row only |
| TaskBoards.TaskBoard.InterruptTask | app/api/tasks_runtime.py:211-311 | decides on the status read before the agent is asked to pause, and writes blocked into whatever the row has become by then; leaves a row alone that was neither queued nor running |
| TaskBoards.InterruptMeans | app/api/tasks_runtime.py:228-290 | in columns: only a running row with an agent and a workspace is waited for; a row read as queued or running is then blocked as interrupted, with its dependency list as read, whatever it has become |
| TaskBoards.QuietInterrupt | app/api/tasks_runtime.py:228-290 | if nobody else commits meanwhile, exactly a queued or running row is blocked |
| TaskBoards.TaskBoard.ContinueTask | app/api/tasks_runtime.py:314-404 | a blocked row under one of the marks interrupted, stopped and blocked is queued again as pending, any other blocked row is completed as approved, and nothing else changes |
| TaskBoards.TaskBoard.StopRequirement | app/api/tasks_flow_task.py:619-720 | lists the rows of the requirement and takes them in key order: each is read in the table as others have left it, and the interruption decided on that reading is written into what the row has become while the agent was asked to pause |
| TaskBoards.TurnMeans | app/api/tasks_flow_task.py:644-720 | in columns, what one turn of such a loop writes: mark and dependency list always, the status only if it changed it |
| TaskBoards.QuietStop | app/api/tasks_flow_task.py:619-720 | if nobody else commits, exactly the queued and running rows of the requirement are interrupted |
| TaskBoards.TaskBoard.ContinueRequirement | app/api/tasks_flow_task.py:723-788 | the same loop, writing only rows it reads as blocked by an interruption |
| TaskBoards.QuietContinue | app/api/tasks_flow_task.py:723-788 | if nobody else commits, exactly the blocked rows of the requirement whose mark is `interrupted` become queued and pending, and nothing else changes |
| TaskBoards.TaskBoard.DeleteTask | app/api/tasks_runtime.py:520-581 | removes the row, then rewrites row by row the lists of its requirement that it reads as naming the node, with what others commit before and during each turn |
| TaskBoards.QuietDelete | app/api/tasks_runtime.py:520-581 | if nobody else commits, the row is gone and its node is out of the requirement's lists, and nothing else changes |
| TaskBoards.DeletedMeans | app/api/tasks_runtime.py:167-198 | in columns: of the other rows exactly those of the requirement that list the node change, in nothing but their list |
| TaskBoards.TaskBoard.RemoveDependency | app/api/tasks_runtime.py:167-198 | the stripping loop rewrites the lists it reads as naming the node, each with what others commit before and during its turn |
| TaskBoards.TaskBoard.DeleteRequirement | app/api/tasks_flow_task.py:292-343 | the deletion loop over the listed rows removes every row of the requirement and no other, and returns their ids in listing order, none if there is no such row |
| RequestCommits.StopIsCommits | app/api/tasks_flow_task.py:619-720 | from any state of any run, the reads and writes of a stop that nothing interleaves with are steps that lead to every queued or running row of the requirement being interrupted |
| StepMeanings.ReconcileIsCommits | app/services/task_dispatch_service.py:173-235 | so does reconciling: the completions and then the failures, row by row |
| StepMeanings.ChangesMean | app/api/tasks_runtime.py:228-390 | for every request that writes a row: exactly when it does, and what it makes of the columns of the row it read |
| StepMeanings.WriteMeans | app/services/task_service.py:114-128 | the write lands on whatever the row has become: mark and dependency list as decided, the status only if the decision changed it |
| StepMeanings.PrepareMeans | app/services/task_dispatch_service.py:104-122 | likewise the write before a send, and a row that is gone ends the dispatch |
| StepMeanings.SettleMeans | app/services/task_dispatch_service.py:92-171 | likewise the write after it, or in place of it for a row without an agent |
| StepMeanings.CountsMean | app/services/task_dispatch_service.py:357-367 | a row enters the queue exactly when it becomes queued, and is claimed exactly when a claim finds it queued, which makes it running and changes nothing else |
| StepMeanings.RequeuedOnce | app/api/tasks_flow_task.py:723-788 | continuing a row under one of the three marks, or waking it with its requirement, makes it queued and pending and enters it into the queue once more |
| RequestCommits.ContinueIsCommits | app/api/tasks_flow_task.py:723-788 | likewise for continuing a requirement |
| RequestCommits.DeletionIsCommits | app/api/tasks_runtime.py:520-581 | likewise the deletion of a row and the writes that strip its node add up to what deleting promises |
| TaskSteps.StrippedDeps | app/api/tasks_runtime.py:167-198 | whatever a list looks like as text, stripping takes out the node, and nothing else unless only a dependency on a node called `none` would be left, which is then lost as well |
| SchedulerRuns.NoDoubleClaim | app/services/task_dispatch_service.py:357-367 | in every run, with any number of rival dispatchers and other requests, no row is claimed more often than it has entered the queue |
| SchedulerRuns.FinishedKeptIff | app/services/task_service.py:114-128 | a step keeps the status of a finished row exactly if it does not write a status that is neither the one it read nor the one that is there |
| SchedulerRuns.ChangeKeepsFinishedIff | app/api/tasks_runtime.py:228-290 | the write of a request keeps a finished row finished exactly if the status it read still stands, or it changes none, or the row has got the same status meanwhile |
| SchedulerRuns.SendKeepsFinishedIff | app/services/task_dispatch_service.py:97-171 | the write after a send, or in place of one for a row without an agent, keeps a finished row finished exactly if the status it writes, running for an accepted send and failed otherwise, is the one the dispatcher had read or the row's own |
| SchedulerRuns.FinishedForeverIff | app/services/task_dispatch_service.py:173-235 | over every run, a finished row keeps its status for as long as it exists exactly if no step overwrites it so |
| SchedulerRuns.TerminalForever | app/services/task_dispatch_service.py:173-235 | as long as every request finds the status it decided on, completed and failed rows stay so until they are deleted |
| SchedulerRuns.RunnableIsReady | app/services/task_dispatch_service.py:334-355 | a runnable row has a completed row for every dependency it is owed |
| SchedulerRuns.StepKeepsSafeIff | app/services/task_dispatch_service.py:51-467 | a step keeps this of all rows that have started, that dispatchers have picked, claimed or sent, or that requests have read as started, together with the marks of interruptions, exactly if it is harmless: it overwrites no such mark, and takes back no completed row that is the only one of a node such a row is owed |
| SchedulerRuns.SafeThroughoutIff | app/services/task_dispatch_service.py:51-467 | over a run it holds throughout exactly if every step is harmless |
| SchedulerRuns.DecidedIsHarmless | app/services/task_service.py:114-128 | a request that finds the status it decided on is harmless |
| SchedulerRuns.AcceptedSendIsHarmless | app/services/task_dispatch_service.py:161-171 | so is the answer to an accepted send of a row that was read as running, also when the row has been completed meanwhile, unless it has been blocked |
| SchedulerRuns.StartedOnlyAfterDependencies | app/services/task_dispatch_service.py:334-367 | in every state of every run of harmless steps, whatever the confirmed flows look like, a running or completed row has a completed row for each dependency it was created with, save those a deletion has taken out |
| SchedulerRuns.MarksHoldIff | app/services/task_dispatch_service.py:161-171 | over every run, blocked rows keep the mark of their interruption exactly if no write that sets no status lands on a row blocked after the writer had read it |
| SchedulerRuns.ContinuingNeverCompletes | app/api/tasks_runtime.py:351-390 | and as long as none does, the approval branch of `continue_task` is never taken |
| SchedulerRuns.ContinueApprovesIff | app/api/tasks_runtime.py:351-390 | continuing completes a blocked row exactly if its dispatch status is none of the three marks |
| SchedulerRaces.UndisturbedDispatch | app/services/task_dispatch_service.py:51-171 | the commits of one dispatch that nothing interleaves with add up to the row that `QuietSend` promises |
| SchedulerRaces.LateRejectionUndoesCompletion | app/services/task_dispatch_service.py:135-142 | a run in which a row is completed during its send, a dependent starts, and the failing send then marks the completed row failed |
| SchedulerRaces.LateInterruptReopensCompletion | app/api/tasks_runtime.py:228-290 | a run in which a row completes while its interruption waits for the agent, and is then blocked |
| SchedulerRaces.InterruptedSendIsApproved | app/services/task_dispatch_service.py:161-171 | a run in which an interruption falls into a send that is accepted; the row loses its mark and continuing completes it as approved |
| SchedulerRaces.LateStrippingSkipsDependencies | app/api/tasks_runtime.py:179-198 | a run in which a deletion that had read a queued row overwrites the mark of its interruption; continuing completes the row although a dependency on its list is not done |
| DeclaredDependencies.OwedIff | app/api/tasks_runtime.py:167-198 | over every run, what a row is owed at one time it is owed later exactly if no deletion in between has taken it out of the row's list or removed its node |
| DeclaredDependencies.DeclaredIsOwedIff | app/api/tasks_flow_task.py:391-490 | a new row is owed exactly what its draft declares if and only if the list consists of clean ids and is not `["none"]` |
| DeclaredDependencies.AlwaysAwaitedIff | app/services/task_dispatch_service.py:334-367 | a draft's list of clean ids is always awaited, that is, in every run of harmless steps a started row has every declared dependency completed or taken out since, if and only if it is not `["none"]` |
| FlowProgress.DrainsIff | app/services/task_dispatch_service.py:280-355 | for any table whose flow lives in one workspace: the flow can be run to its end exactly if none of it is running, failed or blocked, its waiting rows have agents and list only nodes that have a row, and no nodes wait for each other in a circle; of several rows of a node the last decides |
| FlowProgress.FlowDrains | app/services/task_dispatch_service.py:51-171 | then as many dispatches and completions as there are waiting rows finish it |
| FlowProgress.EveryScheduleDrains | app/services/task_dispatch_service.py:51-171 | and whichever runnable rows are picked, exactly that many do |
| ConfirmedRuns.ConfirmationIsCommits | app/api/tasks_flow_task.py:346-575 | from any state of any run, deleting the old rows and inserting the new ones commit by commit leads to what confirming a flow promises |
| ConfirmedRuns.ConfirmedFlowDrainsIff | app/api/tasks_flow_task.py:391-490 | a flow of n freshly confirmed nodes, distinct as stored, has n waiting rows and can be run to its end exactly if its drafts have agents and its dependency lists, as read back from their text, name only its nodes and have no cycle |
| ConfirmedFlows.GoodPlanReadsBack | app/api/tasks_flow_task.py:391-490 | they do for every accepted plan with distinct clean ids and known dependencies |
| ConfirmedRuns.ListsNeverGrow | app/api/tasks_runtime.py:167-198 | in every run, stale copies included, a row never lists a node it was not created with |
| ConfirmedRuns.FlowInRunDrainsIff | app/services/task_dispatch_service.py:334-355 | in every state of every run, a flow created from one request whose lists read back without a cycle can be run to its end exactly if none of it is running, failed or blocked, its waiting rows have agents, and none of them lists a node whose row is gone |
| ConfirmedRuns.WholeFlowNeverStuck | app/services/task_dispatch_service.py:334-355 | so an accepted plan with clean ids none of whose rows has been deleted never gets stuck by itself |
| NodePatches.BuildNodeOperations | app/services/flow_planner_session_service.py:1887-1901 | deletions for ids that went, upserts for nodes that are new or differ |
| NodePatches.OperationsMean | app/services/flow_planner_session_service.py:1887-1901 | first the deletions, in the order the old ids first occur, then for every entry whose id is new or has changed the last node of that id, in the order of the plan |
| NodePatches.PatchReplays | app/services/flow_planner_session_service.py:1887-1901 | replaying the operations on the old id-to-node map gives the new one, also when ids repeat |
| NodePatches.NoPatchIff | app/services/flow_planner_session_service.py:1887-1901 | no operation is published exactly when the two maps are equal |
| CanvasDiff.DiffCanvasNodes | app/api/flow_planner_helpers.py:156-173 | the cards that are new or differ from the previous card of their id, and a deletion for every id that went |
| CanvasDiff.OperationsMean | app/api/flow_planner_helpers.py:156-206 | published are, after the deletions, the nodes of exactly the cards that are not the last previous card of their id, in order |
| CanvasDiff.DiffReplaysIff | app/api/flow_planner_helpers.py:156-206 | replaying the planner operations gives the new plan exactly if, for every id, the last of its cards that differs from the previous plan shows the same node as the last of its cards |
| CanvasDiff.DiffReplaysForDistinctIds | app/api/flow_planner_helpers.py:186-206 | without repeated ids it always does |
| CanvasDiff.RepeatedIdsMislead | app/api/flow_planner_helpers.py:164-171 | a changed card followed by an unchanged one of the same id makes the replay differ from the new plan |
| PlannerEvents.ReadingBackChangesNothing | app/services/flow_planner_session_service.py:1807-1874 | normalising a stored node again leaves it unchanged |
| PlannerMeanings.FlowNodesEventMeans | app/services/flow_planner_session_service.py:549-614 | after an accepted `flow.nodes` event the plan has one node per raw node with an id, in order; id, title with its fallbacks, description and `sensitive` are those of the raw node, and its dependencies are exactly the text entries of its list that read as another non-blank id, in the order they first occur |
| PlannerMeanings.ClientNodeMeans | app/services/flow_planner_session_service.py:1807-1831 | a node sent by a client is refused exactly if id or title is blank, and else reads the same way |
| PlannerMeanings.AcceptedIff | app/services/flow_planner_session_service.py:1655-1782 | an event is refused exactly if it is no object, asks for an unknown status, or speaks in an unknown role where the role counts |
| PlannerMeanings.StatusMeans | app/services/flow_planner_session_service.py:1775-1782 | it asks for the status its own word names, else its payload's, in any case and without outer blanks |
| PlannerMeanings.AgentMessageMeans | app/services/flow_planner_session_service.py:1672-1683 | an assistant delta says its content, else the first text its payload has for it |
| PlannerMeanings.ErrorMessageMeans | app/services/flow_planner_session_service.py:1717-1741 | an error says the first of its five texts that is not blank, which becomes the last error |
| PlannerMeanings.OtherMessageMeans | app/services/flow_planner_session_service.py:1743-1772 | what events of no particular type say, in which role and kind |
| PlannerMeanings.SideEffectsMean | app/services/flow_planner_session_service.py:1655-1772 | only errors set the last error, only statuses other than failed clear it, only plans are silent |
| PlannerEvents.MessageCarriesKey | app/services/flow_planner_session_service.py:1611-1628 | the message an event leaves behind carries the event's own dedupe key |
| PlannerSessions.PlannerSession.ApplyEvents | app/services/flow_planner_session_service.py:482-741 | a batch is applied event by event, as the next rows say, and committed once, or raises and changes nothing |
| SessionMeanings.PlanningEventMeans | app/services/flow_planner_session_service.py:549-690 | a fresh event on a planning session: every column it leaves, the keys known, the operations published and the counts |
| SessionMeanings.FinishedEventMeans | app/services/flow_planner_session_service.py:1631-1652 | on a finished session an event that would change plan or status raises a conflict, one that confirms them is only counted, and one that does neither may speak |
| SessionMeanings.KnownEventMeans | app/services/flow_planner_session_service.py:522-547 | an event whose key is known is passed over |
| SessionMeanings.RaisesIff | app/services/flow_planner_session_service.py:522-690 | exactly which events raise: what cannot be read, a `flow.nodes` event without a list of nodes, and on a finished session an event with another plan or status |
| SessionMeanings.BatchesCompose | app/services/flow_planner_session_service.py:522-690 | a batch is its events one after the other: cut in two anywhere, the second part goes on where the first ends, or does not start if that raised |
| PlannerSessions.PlannerSession.UpsertNode | app/services/flow_planner_session_service.py:782-843 | replaces every node with the id or appends the node, raises the revision unless nothing changed, refuses finished sessions |
| SessionMeanings.UpsertMeans | app/services/flow_planner_session_service.py:782-843 | nothing happens if the first node of the id is the given one; else every node of the id is replaced in place, or the node appended, the revision rises and the last error goes |
| PlannerSessions.PlannerSession.DeleteNode | app/services/flow_planner_session_service.py:869-930 | removes the node and every dependency on it, publishes the deletion only |
| SessionMeanings.DeleteMeans | app/services/flow_planner_session_service.py:869-930 | the nodes of other ids stay in order, each without its dependency on the id; an unknown id changes nothing |
| PlannerSessions.PlannerSession.ReplaceNodes | app/services/flow_planner_session_service.py:932-979 | stores the given plan, whatever the status |
| PlannerSessions.PlannerSession.Complete | app/services/flow_planner_session_service.py:1005-1126 | completes a session whose plan passes the checks; otherwise commits it as failed with the reason and raises |
| SessionMeanings.CompleteMeans | app/services/flow_planner_session_service.py:1005-1126 | the submitted plan, or the one there is, is stored with its revision; it completes the session at the given time and says the text, or fails it with the reason as last error and last message |
| PlannerSessions.PlannerSession.SetTerminalState | app/services/flow_planner_session_service.py:1235-1294 | fails or stops a session that is still planning |
| SessionMeanings.EndMeans | app/services/flow_planner_session_service.py:1235-1294 | the text is said last unless it is blank, and is the last error of a failure only |
| PlannerSessions.PlannerSession.AppendMessage | app/services/flow_planner_session_service.py:401-446 | appends under the next number, refuses unknown roles |
| SessionMeanings.LoggedMeans | app/services/flow_planner_session_service.py:1430-1436 | the number is one more than the largest there is |
| PlannerSessions.PlannerSession.Restore | app/services/flow_planner_session_service.py:296-310 | gives a new plan only to a session that is still planning at revision 0 |
| SessionRuns.BatchPatchReplays | app/services/flow_planner_session_service.py:549-614 | the concatenated operations of a committed batch turn the id-to-node map before it into the one after it |
| SessionRuns.RedeliveryChangesNothing | app/services/flow_planner_session_service.py:522-547 | delivering a batch of keyed events without plan updates again, after any later calls, is accepted and changes nothing, even if the batch itself or a later call finished the session |
| SessionRuns.FinishedForever | app/services/flow_planner_session_service.py:1631-1652 | over any run of calls without `replace_nodes`, a session that left planning keeps status, plan, revision and completion time |
| SessionRuns.RevisionNamesPlan | app/services/flow_planner_session_service.py:602-614 | over such a run the revision never falls, and equal revisions of at least 1 mean equal plans |
| SessionRuns.CompletionTimeAndLog | app/services/flow_planner_session_service.py:660-690 | the completion time is set exactly in completed sessions, and the message log only grows |
| SessionRuns.CallEvolves | app/services/flow_planner_session_service.py:482-1294 | what every single call keeps |
| CompletedPlans.StatusEventSkipsTheCheck | app/services/flow_planner_session_service.py:660-674 | exactly the events that are read without error, are not known already and carry the completed status complete a planning session, whatever its plan, which they leave as it is or as they bring it |
| CompletedPlans.CompletedPlanOrigin | app/services/flow_planner_session_service.py:482-1126 | over every run that starts in planning, the plan of a completed session has passed the completion check if the completing call made it, and else is the plan at an event that carried the completed status |
| CompletedPlans.UncheckedCompletion | app/services/flow_planner_session_service.py:660-674 | and for every plan that would not pass there is a run that completes a session with it |
| SessionRuns.DeletionPatchExactIff | app/services/flow_planner_session_service.py:869-930 | the published deletion rebuilds the plan exactly if no other node listed the deleted one |
| SessionRuns.UpsertPatchReplays | app/services/flow_planner_session_service.py:782-843 | the published upsert always rebuilds the plan |
| SessionRuns.ChunkIsTheTailIff | app/services/flow_planner_session_service.py:1414-1428 | the appended chunk published after a batch is what was appended exactly if the log fits the 400-row window |
| IngestOwner.Arbiter.WriteLock | app/api/tasks_flow_planner.py:109-116 | one lock per session, the same on every call, shared with no other session |
| IngestOwner.Arbiter.ClaimForInternal | app/api/tasks_flow_planner.py:119-128 | internal takes the session, whoever had it |
| IngestOwner.Arbiter.ObserverCanIngest | app/api/tasks_flow_planner.py:131-142 | the bridge gets a free session and keeps its own, never one that internal has claimed |
| IngestOwner.StepKeepsInv | app/api/tasks_flow_planner.py:195-236 | every step of any number of processes keeps mutual exclusion, ownership of the writer and the shape of the log |
| IngestOwner.EnterMeans | app/api/tasks_flow_planner.py:119-142 | under the lock an internal call always gets to write and owns the session then; the bridge writes exactly if internal does not own it, and else ends and gives the lock back |
| IngestOwner.NeverStuck | app/api/tasks_flow_planner.py:195-236 | while a process waits for the lock, it can take it or its holder can go on |
| IngestOwner.FreeSessionTakesAWrite | app/api/tasks_flow_planner.py:882-899 | from every state with a free lock, whoever may write can get a write committed |
| IngestOwner.SingleSourceLog | app/api/tasks_flow_planner.py:882-899 | in every interleaving the committed log is all observer batches followed by all internal writes, and writes never overlap |
| IngestOwner.CommitsMean | app/api/tasks_flow_planner.py:882-899 | that log has an entry for every commit and for nothing else |
| IngestOwner.InternalStaysOwner | app/api/tasks_flow_planner.py:119-142 | once internal has claimed a session it stays the owner |
| RealtimeHub.Hub.Subscribe | app/services/flow_planner_realtime.py:20-35 | registers a new empty queue on one channel and returns the channel's latest number as baseline |
| RealtimeHub.Hub.Unsubscribe | app/services/flow_planner_realtime.py:36-53 | removes one subscriber, leaves the other channels alone |
| RealtimeHub.Hub.BeginPublish | app/services/flow_planner_realtime.py:207-210 | the locked part assigns the next number and copies the subscribers |
| RealtimeHub.Hub.Publish | app/services/flow_planner_realtime.py:188-220 | without interleaving every subscriber of the channel gets one envelope with the next number; the mailboxes and the number of every user, board and session that do not share the channel stay as they are; a blank session key publishes nothing |
| RealtimeHub.ChannelsMean | app/services/flow_planner_realtime.py:228-231 | two triples of user, board and session share a channel exactly if the users are equal, the sessions are equal without outer blanks, and so are the boards, a blank one counting as `default` |
| RealtimeHub.StepKeepsInv | app/services/flow_planner_realtime.py:188-220 | what every interleaved step keeps: nothing is delivered twice, nothing owed is missing from both queues and flights |
| RealtimeHub.ReceivedExactlyOnce | app/services/flow_planner_realtime.py:20-57 | a subscriber that stayed and that no publish still has to reach has received every number after its baseline exactly once, with the notice published under it |
| RealtimeHub.NeverTwice | app/services/flow_planner_realtime.py:36-53 | a subscriber that left has no duplicates and nothing from before it joined |
| RealtimeHub.ReceivedInOrder | app/services/flow_planner_realtime.py:219-220 | when publishes do not overlap, what has arrived is an ordered, gap-free stretch from the baseline on |
| RealtimeHub.ReceivedInOrderIff | app/services/flow_planner_realtime.py:207-220 | in every run, what has reached a subscriber is an ordered, gap-free stretch from its baseline on exactly if every put into its queue delivered the smallest number still on its way to it |
| RealtimeHub.PutKeepsSequenceIff | app/services/flow_planner_realtime.py:211-220 | the same for a single put |
| RealtimeHub.OverlappingPublishesReorder | app/services/flow_planner_realtime.py:207-220 | two overlapping publishes can arrive in either order |
| RealtimeHub.SubscribeIsJoin | app/services/flow_planner_realtime.py:20-35 | what `Subscribe` does to a channel is the step `Join` of that step system, with the same baseline |
| RealtimeHub.BeginPublishIsBegin | app/services/flow_planner_realtime.py:207-210 | what `BeginPublish` does is the step `Begin`, with the same number and the same targets |
| RealtimeHub.UnsubscribeIsLeave | app/services/flow_planner_realtime.py:36-53 | what `Unsubscribe` does is the step `Leave` |
| RealtimeHub.PublishesCanOverlap | app/services/flow_planner_realtime.py:207-220 | and publishes do overlap: one may begin while another is in flight |
| EventBuffer.ObserverEventBuffer.Append | app/services/observer_data.py:66-75 | numbers the event after everything appended before and keeps the newest entries that fit |
| EventBuffer.ObserverEventBuffer.Read | app/services/observer_data.py:77-103 | answers exactly as the full log would |
| EventBuffer.ObserverEventBuffer.LatestSeq | app/api/realtime.py:284-288 | the number of entries ever appended, unless the buffer holds none |
| EventBuffer.ResyncIff | app/services/observer_data.py:92-103 | a read returns precisely entries last+1 to n, or asks for a resync, which it does exactly when last + capacity < n or last > n |
| EventBuffer.ReadMeans | app/services/observer_data.py:77-91 | a read from the start returns the newest entries that fit under their numbers; of an empty buffer it asks for a resync exactly for a positive number |
| EventBuffer.NeverAGapOrARepeat | app/api/realtime.py:324-355 | however appends interleave with the reader loop, what it sends is numbered consecutively from its start and carries the events appended under those numbers |
| EventBuffer.PollResyncsOrCatchesUp | app/api/realtime.py:341-355 | a poll ends the stream exactly when the reader was outrun or started beyond the log, and otherwise fetches all that is missing |
| EventBuffer.ReaderGoesOn | app/api/realtime.py:324-355 | a reader that has not ended can poll or send, whichever is due, and an append is always possible |
| PendingEvents.PendingQueue.Handle | app/services/observer_data.py:675-711 | merges an event into the slot of its key, in place; slots are ordered by first arrival, node events accumulate all their records, of anything else the last arrival counts |
| PendingEvents.KeyMeans | app/services/observer_data.py:688-695 | which events share a slot: summaries of one agent, topologies of one agent, node events whose two ids joined with a colon read the same, and otherwise an event only with itself |
| PendingEvents.FirstKeysMean | app/services/observer_data.py:675-686 | the slots stand in the order their keys first arrived |
| PendingEvents.PendingQueue.Drain | app/services/observer_data.py:741-748 | empties the queue and returns its events, reordered; at most one topology per agent is among them |
| PendingEvents.OrderPending | app/services/observer_data.py:763-786 | the loop with its map of delayed events emits the pending events in the order the next rows are about |
| PendingEvents.OrderedEventsArePermutation | app/services/observer_data.py:763-786 | nothing is lost, added or repeated by reordering |
| PendingEvents.UndelayedKeepOrder | app/services/observer_data.py:770-781 | events that do not wait keep their relative order |
| PendingEvents.NodeEventsKeepOrder | app/services/observer_data.py:770-784 | each agent's node events come out in the order they came in |
| PendingEvents.TopologyFirstIff | app/services/observer_data.py:770-784 | a topology is applied before a node event of its agent exactly if no other topology of that agent lies between them |
| PendingEvents.NodeEventsFollowTopology | app/services/observer_data.py:763-786 | with one topology per agent every node event follows it |
| PendingEvents.KeysGiveOneTopology | app/services/observer_data.py:688-695 | the pending keys guarantee one topology per agent |
| PendingEvents.NodeKeyCollision | app/services/observer_data.py:693-694 | two node events share a slot exactly if their ids joined with a colon read the same |
| StreamParser.DecodeJsonStream | app/api/tasks_flow_planner.py:411-427 | decodes values off the front, skipping blanks between them, up to the first that does not decode, and returns the text from there on |
| StreamParser.ExtractStructuredEvents | app/api/tasks_flow_planner.py:375-509 | the loop over lines with its mode lock, the decoding of the pending text and the overflow guard have the outcome the `LineMeanings` and `StreamFrames` rows are about; the returned buffer never exceeds 16384 characters, whatever the input |
| LineMeanings.ProsePassesThrough | app/api/tasks_flow_planner.py:445-490 | a chunk that meets a free lock and an empty buffer and has no line that looks structured comes out as exactly its lines, in order, without outer blanks, less blank lines and complete fences; no events, and the lock stays free |
| LineMeanings.NoLineIsLost | app/api/tasks_flow_planner.py:458-475 | for every input each complete line that is neither blank nor a fence is in the plain text if it meets a free lock and does not look structured, and else gives its events or stands in the text that is decoded afterwards |
| LineMeanings.LinesGive | app/api/tasks_flow_planner.py:458-475 | so plain text, events and held-back text of a call are exactly those lines, each kind in order |
| LineMeanings.LineMeans | app/api/tasks_flow_planner.py:458-475 | one line: what becomes of it, and the lock it leaves for the next |
| LineMeanings.SettleMeans | app/api/tasks_flow_planner.py:476-500 | the held-back text is decoded if it is locked or looks structured, else it is plain text; the lock is set exactly while something undecoded waits, or nothing came of what was decoded |
| LineMeanings.OverflowMeans | app/api/tasks_flow_planner.py:501-509 | more than 16384 waiting characters become plain text and free the lock |
| LineMeanings.LooksMean | app/api/tasks_flow_planner.py:366-372 | what looks structured |
| LineMeanings.LinesMean | app/api/tasks_flow_planner.py:445-458 | where a line ends |
| LineMeanings.StreamMeans | app/api/tasks_flow_planner.py:411-427 | decoding skips blanks and takes off values while one fits |
| StreamParser.FlushPending | app/api/tasks_flow_planner.py:512-553 | decodes the leftover text; what does not decode is returned as plain text, and a value that is no event turns all of it into plain text |
| LineMeanings.FlushMeans | app/api/tasks_flow_planner.py:512-553 | the flushed events are those of the values decoded off the front and what is left is plain text; with a value that is no event they are those before it, and all of the text is plain |
| StreamFrames.ChunkingIsIrrelevant | app/api/tasks_flow_planner.py:375-509 | every way of cutting a stream of newline-terminated frames into chunks gives the frames' events in order, no plain lines, an empty buffer and a released lock |
| StreamFrames.TruncatedStream | app/api/tasks_flow_planner.py:512-553 | if the stream breaks off, the events of the frames that arrived come out whatever the chunks, and flushing gives what arrived of the next one as plain text |
| StreamFrames.FeedOne | app/api/tasks_flow_planner.py:375-509 | between any two calls the buffer holds exactly the begun part of the next frame and the lock is set exactly if that is not empty |
| PendingLines.OvertakesIff | app/api/tasks_flow_planner.py:445-490 | for every chunk, buffer and lock that end in a partial line: what is decoded after the complete lines is the partial line itself exactly if every complete line is blank, a fence, plain text outside the lock, or carries events; all others stand behind it, in their own order |
| PendingLines.WholeLinesKeepOrder | app/api/tasks_flow_planner.py:445-490 | a call that ends with a complete line decodes the lines it held back in the order they came |
| StreamFrames.PartialLineOvertakes | app/api/tasks_flow_planner.py:458-463 | an undecodable complete line goes behind the partial line that follows it |
| StreamFrames.BlocksAreFrames | app/api/tasks_flow_planner.py:375-388 | one-line brace blocks are frames for a codec that reads blocks, so the frame conditions can be met |
| BracketScanner.ExtractBracketBlock | app/services/flow_decomposition_service.py:522-552 | returns the one bracket block that starts at the given index, and nothing exactly if none does |
| BracketScanner.ExtractObjectBlocks | app/services/flow_decomposition_service.py:575-609 | returns the texts of the blocks the scan closes, in order |
| BracketScanner.SpansAreTopLevelBlocks | app/services/flow_decomposition_service.py:575-609 | those are exactly the top-level blocks: balanced outside quotes, back at depth 0 only at their last character, starting outside quotes and other blocks |
| BracketScanner.QuotedCountsNothing | app/services/flow_decomposition_service.py:575-609 | from a quote up to the next one of its kind that is not escaped no bracket counts, and the text behind is outside quotes |
| BracketScanner.PlainCounts | app/services/flow_decomposition_service.py:575-609 | outside quotes each opening bracket counts up, each closing one down, and nothing else does |
| BracketScanner.ScanMeans | app/services/flow_decomposition_service.py:575-609 | the scan's depth is the rise of the bracket count above its lowest point so far: unmatched closing brackets are left aside |
| BracketScanner.SpansAreDisjoint | app/services/flow_decomposition_service.py:575-609 | blocks come out in text order and do not overlap |
| BracketScanner.BlockOfABlock | app/services/flow_decomposition_service.py:575-609 | applied to a block the scanner returns just that block |
| BracketScanner.ExtractedTextsAreBlocks | app/services/flow_decomposition_service.py:575-609 | every extracted text is a block, so extracting from it changes nothing |
| BracketScanner.BlocksDelimitThemselves | app/services/flow_decomposition_service.py:522-552 | no proper prefix of a block is a block |
| NodeDrafts.NormalizeNodeId | app/services/flow_decomposition_service.py:701-713 | the loop ends, and returns the base id if it is free, else the base with the first free suffix from 2 on |
| NodeDrafts.BaseMeans | app/services/flow_decomposition_service.py:701-708 | the base id is what stands between the outer underscores of the collapsed text, or `node_` and the entry's number if the id is blank or nothing stands there |
| NodeDrafts.CollapseMeans | app/services/flow_decomposition_service.py:706 | collapsing makes one underscore of each run of other characters and keeps the allowed ones |
| NodeDrafts.TriedSize | app/services/flow_decomposition_service.py:709-712 | different suffixes are different ids, so a finite set of seen ids cannot hold them all |
| NodeDrafts.ChosenShape | app/services/flow_decomposition_service.py:701-713 | normalised ids are non-empty, made of letters, digits, `_` and `-`, and survive the dependency encoding |
| NodeDrafts.ParseNodes | app/services/flow_decomposition_service.py:367-456 | drafts one node per usable entry among the first twelve, in order, and raises exactly if there is no list or no usable entry |
| NodeDrafts.ParsedNodesMean | app/services/flow_decomposition_service.py:385-456 | the nodes of a parsed plan come from exactly the titled objects among the first twelve entries, in order; title, description (its own, else the existing one of its id, else none), dependencies in declared order, and `sensitive`, which the last node gets if no entry asks for it |
| NodeDrafts.ParsedPlanIsSound | app/services/flow_decomposition_service.py:385-456 | every parsed plan has 1 to 12 nodes with distinct ids, dependencies inside that set and never on the node itself, and a sensitive node |
| NodeDrafts.OnlySizeAndCyclesRemain | app/services/flow_decomposition_service.py:385-456 | so a parsed plan may be completed exactly if it has two nodes or more and no cycle |
| NodeDrafts.DependencySurvivesIff | app/services/flow_decomposition_service.py:408-433 | a parsed node depends on an id exactly if its entry declares it, read without outer blanks, and it is the final id of another node |
| NodeDrafts.KeepsIdIff | app/services/flow_decomposition_service.py:701-713 | an entry keeps the id it gives exactly if that has only letters, digits, `_` and `-`, no outer `_`, and no earlier node has got it |
| NodeDrafts.RenamedTargets | app/services/flow_decomposition_service.py:393-433 | for one list of entries: an id that lost an underscore loses its dependents, and of two entries with one id the dependency goes to the first |

## Left out

- FlowCanvas.ResolveLayers: when a node without dependencies is listed twice, each of its entries counts its dependents down, so they can be released before their other dependencies; which entries come out is then still exact, on which layer is left open.
- FlowConfirmation.ConfirmFlow: for drafts that repeat a node without dependencies the layers of the created rows are left open, for the same reason.
- SchedulerRuns.StartedOnlyAfterDependencies: `SafeThroughoutIff` is exact for what the proof keeps along a run, which is the statement for started rows together with the rows requests are at work on and the marks of interruptions.
- ConfirmedRuns.ConfirmedFlowDrainsIff: for node ids that are distinct without outer blanks; for others `FlowProgress.DrainsIff` says it on the table.
- A request that continues after its own write (the dispatch that follows an interruption, say) is a new request in the step system, and a write to a row that is gone raises and ends the request.
- EventBuffer.NeverAGapOrARepeat: says nothing about how soon the reader polls; with capacity 0 it receives nothing.
- `sync_requirement`: it may add unfinished dependencies to a running row, so it is no step of the scheduler.
- Artifacts, titles, temporary paths, heartbeat timestamps and the `flow_stopped` marker of task rows.
- Session creation, tokens, board checks and the realtime messages other than node patches; payload keys are taken in snake case and payload values that are no text are ignored.
- JSON itself: decoding is a function parameter that reads one value off the front of a text, and the repair of malformed JSON (`ast.literal_eval`, regular expressions) is not modelled.
- `_extract_observer_assistant_chunks` drops chunks that are blank, which can remove blanks inside a frame before the extractor sees them.
- Text is compared by code point, and lower-casing covers ASCII letters only.
- `build_layout`, `_build_canvas_nodes` and the SSE sequence counters: arithmetic and field copying.
- HTTP routing, schemas, authentication, the ORM, websocket clients, provider adapters, files, keep-alives and thread lifecycle.
- `app/services/board_task_realtime.py`, the same hub again, and `app/services/flow_draft_service.py`.
- The frontend.
