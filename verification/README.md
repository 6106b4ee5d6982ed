# Verified models of the orchestrator's state machines

This project models the stateful core of the repository in Dafny and proves what its comments, tests and
design notes promise about whole runs. Each Dafny file follows one component:

| file | component |
|---|---|
| `TurnLedger.dfy` | the durable ACP turn ledger and the controllers that dispatch from it, as a state machine with crashes, and as the classes whose methods take its steps |
| `DispatchAttempts.dfy`, `BootRecovery.dfy` | dispatch claims, and what a restart makes of turns, sessions and attempts |
| `Walks.dfy`, `CohortGraph.dfy` | directed graphs; Kahn's cycle check and the readiness rule over cohort dependencies |
| `CohortLifecycle.dfy` | compare-and-set cohort transitions |
| `Workflow.dfy`, `Readiness.dfy`, `Gathering.dfy`, `Recovery.dfy` | the workflow run scheduler on values: filing artifacts, when a stage may start, what collections hold, and rebuilding them after a restart |
| `RunSteps.dfy`, `Overlooking.dfy` | what each event of a run does, and when a ready stage is left unstarted |
| `RunScheduler.dfy`, `RunHistory.dfy`, `OverlookedRuns.dfy` | the run task itself, whole runs, and two runs that end without a ready stage |
| `Strings.dfy`, `EventText.dfy`, `EventTail.dfy`, `CellId.dfy` | the dashboard's incremental event reader, its summary cache, reconnecting clients, and cell ids |
| `EventBus.dfy` | the sequenced event bus |
| `KeyedChains.dfy` | per-key promise chains |

`dafny verify dfyconfig.toml` checks all of it.

## How the code is modelled

* Asynchronous code is cut at its awaits: each synchronous stretch is one step (or one method), and
  whatever can happen in between is another step. In `TurnLedger` the ledger write and the send inside
  `runTurn` are separate steps, so the process can also die between them.
* Objects that the source mutates are classes. Their invariants are predicates over plain values, one
  small lemma per step shows that the step keeps them, and the methods call those lemmas.
* Executors, agents, the clock and the database's answers are arguments. How far the launch of a stage gets is a
  function of the stage, which is general because a stage is launched once.
* What an operation computes is also stated without the functions it is computed with: moves of a cohort event by
  event, a summary read off the events, outcomes by response, cells by unit name, the end of a run by statuses.
* Unique ids are counters; `Instant` and timestamps are integers; hash-map iteration order is arbitrary.

## Main results

* **At-most-once delivery across crashes** (`AtMostOnceDelivery`): in every run of any number of
  controllers with crashes anywhere, each turn's payload is sent at most once, and never while its row is
  still `accepted`. `LedgerAgreesWithMemory`, `RunEvolves` and `SucceededMeansEndTurn` give the rest of the
  ledger's promises: `prompting` rows and active keys correspond one to one, final rows never change
  although `completeTurn` has no status guard, and `succeeded` means an `end_turn` answer.
* **Kahn's check** (`HasCycleAfterInsert`): exact when all endpoints lie in the plan. For arbitrary edges it
  answers `true` exactly when more nodes are stuck than there are edge targets outside the plan;
  `ForeignTargetHidesCycle` is a cyclic graph it therefore accepts.
* **Run scheduler** (`RunTask`): every handler keeps one invariant. It contains the gate (no stage starts on
  a slot fed only by delegated stages before one of them was Done), the complete gather (once a delegated
  producer is Done its gathered slots hold the latest artifact of every unit it emitted and nothing else,
  so first launches see exact collections), and completion order. `Drive` runs it over every sequence of
  events and control messages: an unfinished run never hangs silently, provided the graph has a source
  stage, and `PrimeSourceStages` shows that it would otherwise. `Recover` shows that rebuilding the inputs
  from the artifact rows, in any order, gives the live map.
* **Overlooked stages** (`OverlookedIffMissed`): the code can leave a ready stage unstarted and end the run as
  done. For every event this happens to a stage exactly if the event is the accepted Done of the producer it
  waited for last, and that producer has nothing for it: it is not delegated or stored no row for an edge into
  the stage, and is not the last producer of one of its unit_complete slots. `PlainProducerOverlooks` and `EmptyProducerOverlooks` are such runs, and
  `ServedRunOverlooksNone` is a sufficient condition for a whole run to be free of them: of the producers a
  stage awaits, the one that completed last had something for it.
* **Unit keys** (`KeysCollideIffEnclosed`): two producers of a slot can overwrite each other's units exactly when
  one stage key continues the other after a ':'. The gather and the rebuild are proved for all other keys.
* **Event tail** (`Follow`): after every tick the cached summary is that of a full re-read of the file, if the
  file was only appended to, cut below the old offset, or missing, and exactly if no entry of an earlier
  connection was inherited or one of the ticks replaced it. The text a stream holds is the file exactly
  after such changes (`ObservedIsFile`). `RewriteGoesUnnoticed` and `StaleEntryIsKept` are wrong summaries
  outside these conditions. `ExactlyOnceAcrossReconnects` covers resuming clients.
* **Event bus** (`Backfill`): without a reported gap a backfill is complete exactly if the ring is retained or
  nothing newer was published; `EvictedRunReportsNoGap` is an incomplete one. A reported gap is a false alarm
  exactly if no event newer than the asked-for number was dropped.
* **Restart** (`Restart`), **claims** (`ClaimDispatch`, `NumbersAreExact`), **chains**
  (`StartsAfterEarlier`), **transitions** (`DoneOnlyAfterReviewAndBuild`) and **cell ids**
  (`CellIdRoundTrip`, `CellIdIsInjective`) are stated over all tables, histories or inputs.

## Model

| member | source | states |
|---|---|---|
| `TurnLedger.AtMostOnceDelivery` | kbbl/core/acp/controller.ts:325-370 | Over every run from an empty ledger, with any number of controllers and crashes anywhere, each turn is sent at most once, with the payload of its row, and never while the row is `accepted` |
| `TurnLedger.LedgerAgreesWithMemory` | kbbl/core/acp/controller.ts:351-438 | While the process is up, `prompting` rows and the active turn keys of the controllers correspond one to one; every turn has been completed exactly as often as its status says, never twice |
| `TurnLedger.PromptingCanAlwaysFinish` | kbbl/core/acp/controller.ts:370-438 | No `prompting` turn is orphaned: some controller awaits its response, and recording any response makes the turn final |
| `TurnLedger.StepKeepsInv` | kbbl/core/acp/controller.ts:638-667 | Every step (accept, spawn, ledger write, send, response, child exit, fence, teardown, crash, boot) keeps the ledger invariant |
| `TurnLedger.RunKeepsInv` | kbbl/core/acp/store.ts:432-476 | The invariant holds in every state of every run |
| `TurnLedger.StepEvolves` | kbbl/core/acp/store.ts:401-430 | One step moves a row only forward and leaves a final row as it is, although the update has no status guard |
| `TurnLedger.RunEvolves` | kbbl/core/acp/store.ts:401-430 | Over any run a final row never changes and a `prompting` row never becomes `accepted` again |
| `TurnLedger.SucceededMeansEndTurn` | kbbl/core/acp/controller.ts:404-438 | A row that became `succeeded` did so through an `end_turn` answer to that very turn |
| `TurnLedger.EndTurnSucceeds` | kbbl/core/acp/controller.ts:404-412 | Conversely, a turn answered with `end_turn` while active has succeeded in every later state |
| `TurnLedger.DeliveredIsFirstAccepted` | kbbl/core/acp/store.ts:321-348 | What an agent is handed for a turn is the payload of the first accept of that turn |
| `TurnLedger.RowIsFirstAccept` | kbbl/core/acp/store.ts:321-348 | A row keeps source, payload and time of the first accept of its turn |
| `TurnLedger.RetiredBeginsNothing` | kbbl/core/acp/controller.ts:444-446 | A fenced or torn-down controller begins no turn for the rest of its life |
| `TurnLedger.OutcomeIsFitting` | kbbl/core/acp/controller.ts:372-438 | Which responses make a turn succeeded, cancelled, unknown or failed, and with which stop reason |
| `TurnLedger.TurnStore.AcceptTurn` | kbbl/core/acp/store.ts:321-348 | Inserts the given source, payload and time once per (session, key); a repeat returns the existing row, and reports a conflict exactly when the payload differs |
| `TurnLedger.TurnStore.FirstAccepted` | kbbl/core/acp/store.ts:369-385 | The accepted turn of the session that is first by creation time and row, and none only if the session has none |
| `TurnLedger.TurnStore.MarkTurnPrompting` | kbbl/core/acp/store.ts:387-399 | Flips that row and no other |
| `TurnLedger.TurnStore.CompleteTurn` | kbbl/core/acp/store.ts:401-430 | Overwrites status and stop reason of that row, whatever they were |
| `TurnLedger.TurnStore.BootSweep` | kbbl/core/acp/store.ts:438-476 | On a crashed ledger this is the Boot step: `prompting` rows become `unknown`, every other row is kept, and both kinds are counted |
| `TurnLedger.SessionController.constructor` | kbbl/core/acp/controller.ts:444-462 | A new controller is one that may dispatch, in the world after its Spawn step |
| `TurnLedger.SessionController.DispatchNext` | kbbl/core/acp/controller.ts:325-370 | Takes the enabled ledger-write and send steps, in that order, for the oldest accepted turn; sends nothing exactly when it may not dispatch or nothing is accepted |
| `TurnLedger.SessionController.RecordResponse` | kbbl/core/acp/controller.ts:370-438 | Takes the Respond step: the active turn gets the outcome of its response, and a turn that the exit handler already classified is left alone |
| `TurnLedger.SessionController.OutcomeFor` | kbbl/core/acp/controller.ts:372-438 | Succeeded exactly for end_turn, cancelled exactly for a cancelled stop, unknown exactly for a lost transport or an error on a defunct controller; the stop reason is the answered one |
| `TurnLedger.SessionController.HandleChildExit` | kbbl/core/acp/controller.ts:638-667 | Takes the ChildExit step: the active turn becomes `unknown` once |
| `TurnLedger.SessionController.MarkFenced` | kbbl/core/acp/controller.ts:479-483 | Takes the Fence step: no turn is dispatched afterwards |
| `TurnLedger.SessionController.TeardownChild` | kbbl/core/acp/controller.ts:689-697 | Takes the Teardown step |
| `DispatchAttempts.NumbersAreExact` | kbbl/core/db/dispatch-attempts.ts:52-106 | The attempts of a slot are numbered exactly 1..n |
| `DispatchAttempts.NumbersAreDistinct` | kbbl/core/db/dispatch-attempts.ts:52-106 | No two attempts of a slot share a number |
| `DispatchAttempts.PredecessorIsPrevious` | kbbl/core/db/dispatch-attempts.ts:64-75 | The first attempt of a slot has no predecessor, and every other one names the attempt numbered one less |
| `DispatchAttempts.OneAtATime` | kbbl/core/db/migrations/026_dispatch_attempts.sql:7-33 | Of two attempts of a slot at most one is dispatching or running |
| `DispatchAttempts.SettlesKeepsChain` | kbbl/core/db/dispatch-attempts.ts:146-222 | Settling any rows keeps numbering, predecessor links and the single active attempt |
| `DispatchAttempts.AppendKeepsChain` | kbbl/core/db/dispatch-attempts.ts:60-85 | A claim onto a slot without an active attempt extends the chain by one |
| `DispatchAttempts.RunningKeepsChain` | kbbl/core/db/dispatch-attempts.ts:128-144 | Marking a row running keeps the chain when no other attempt of the slot is active |
| `DispatchAttempts.AttemptTable.Latest` | kbbl/core/db/dispatch-attempts.ts:57-66 | The row with the highest number, which is the number of rows of the slot |
| `DispatchAttempts.AttemptTable.GetActive` | kbbl/core/db/dispatch-attempts.ts:222-242 | The active attempt of the slot, and none only if there is none |
| `DispatchAttempts.AttemptTable.ClaimDispatch` | kbbl/core/db/dispatch-attempts.ts:52-106 | Succeeds exactly when the slot has no active attempt and the id is new; a refused claim changes nothing and returns the active attempt |
| `DispatchAttempts.AttemptTable.MarkRunning` | kbbl/core/db/dispatch-attempts.ts:128-144 | Sets status and session of that row; refused by the unique index exactly when another attempt of the slot is active |
| `DispatchAttempts.AttemptTable.MarkFinished` | kbbl/core/db/dispatch-attempts.ts:146-178 | Settles that row whatever its status was, and keeps the chain |
| `DispatchAttempts.AttemptTable.MarkRunningFinishedBySession` | kbbl/core/db/dispatch-attempts.ts:182-220 | Settles exactly the running rows of the session and returns one of them, none only if there was none |
| `BootRecovery.GetInitialTurn` | kbbl/core/acp/store.ts:360-368 | An initial turn of the session with the least creation time, and none only if there is none |
| `BootRecovery.GetDispatchStatus` | kbbl/core/acp/session-service.ts:232-244 | Completed means the initial turn succeeded in a session that did not fail; still running means it can still succeed; not completed means it cannot |
| `BootRecovery.SettleOne` | kbbl/core/orchestrator/dispatch-reconciler.ts:60-107 | One attempt is failed, succeeded or kept according to its session and that session's initial turn |
| `BootRecovery.ReconcileDispatchAttempts` | kbbl/core/orchestrator/dispatch-reconciler.ts:60-107 | Every row is reconciled, settled rows are untouched, and the claim chain is kept |
| `BootRecovery.SettleEndedSession` | kbbl/core/orchestrator/dispatch-reconciler.ts:17-37 | When a session ends at run time only its running attempts change: they succeed only if its initial turn succeeded, fail only if it cannot, and stay only if it still can |
| `BootRecovery.Restart` | kbbl/core/server.ts:218-236 | After any crash, provisioning sessions have failed, prompting ones are idle, prompting turns are unknown and the rest is kept; no attempt is left `dispatching`; an attempt still `running` names a live legacy session or a session neither ended, fenced nor failed whose initial turn is absent or `accepted`; success is recorded only where the initial turn succeeded |
| `BootRecovery.BootLeavesNothingUnsettled` | kbbl/core/acp/session-service.ts:833-883 | Reconciling over a ledger without `prompting` rows settles every attempt as described for a restart |
| `Walks.StuckIffCyclic` | kbbl/core/db/cohort-graph.ts:44-57 | Some node ends a walk that repeats a node exactly when the graph has a directed cycle |
| `Walks.PredecessorClosedIsStuck` | kbbl/core/db/cohort-graph.ts:44-57 | A finite set in which every node has a predecessor in the set holds only nodes that no order can release |
| `Walks.TopologicalAvoidsCycles` | kbbl/core/db/cohort-graph.ts:44-57 | No node of a topological order lies on a cycle |
| `Walks.TopologicalAvoidsStuck` | kbbl/core/db/cohort-graph.ts:44-57 | No node of a topological order is stuck |
| `Walks.SubsetAcyclic` | kbbl/core/db/cohorts.ts:88-100 | Removing edges keeps a graph acyclic |
| `CohortGraph.BuildDegrees` | kbbl/core/db/cohort-graph.ts:28-39 | In-degrees and adjacency after the construction loops, duplicate edges counted |
| `CohortGraph.InitialQueue` | kbbl/core/db/cohort-graph.ts:41-44 | The queue holds exactly the nodes of degree zero, each once |
| `CohortGraph.ReleaseNeighbours` | kbbl/core/db/cohort-graph.ts:50-54 | Decrementing the neighbours of a released node keeps the degree and queue invariant |
| `CohortGraph.ProcessFirst` | kbbl/core/db/cohort-graph.ts:47-55 | One turn of the queue loop extends the topological order by the node at the head of the queue |
| `CohortGraph.CountReleased` | kbbl/core/db/cohort-graph.ts:46-55 | The loop terminates and counts all nodes but the stuck ones |
| `CohortGraph.KahnLeavesStuck` | kbbl/core/db/cohort-graph.ts:46-57 | When the queue is empty, exactly the stuck nodes are unprocessed |
| `CohortGraph.UnprocessedIsStuck` | kbbl/core/db/cohort-graph.ts:46-57 | Every unprocessed node is stuck once the queue is empty |
| `CohortGraph.NoForeignNodes` | kbbl/core/db/cohort-graph.ts:36-39 | With all edge targets in the plan there are no foreign nodes, and stuck nodes mean a cycle |
| `CohortGraph.HasCycleAfterInsert` | kbbl/core/db/cohort-graph.ts:7-58 | True exactly when more nodes are stuck than lie outside the plan; hence never a false alarm, and exact when every endpoint is in the plan |
| `CohortGraph.ForeignTargetHidesCycle` | kbbl/core/db/cohort-graph.ts:36-57 | Calls the check on a cyclic graph with an edge to another plan, and it answers false |
| `CohortGraph.NoneUnmet` | kbbl/core/db/cohorts.ts:102-115 | The count is zero exactly when every predecessor that exists is done |
| `CohortGraph.UnmetIsCounted` | kbbl/core/db/cohorts.ts:102-115 | The count is the number of rows into the cohort from an existing cohort that is not done |
| `CohortGraph.DependencyProgress` | kbbl/core/db/cohorts.ts:102-115 | In an acyclic plan that depends on no other plan and is not finished, some cohort that is not done has no unmet dependency, whatever other plans look like |
| `CohortGraph.PlanCycleIsGlobal` | kbbl/core/db/cohort-graph.ts:15-26 | For an acyclic table, checking the edges of one plan decides acyclicity of all edges |
| `CohortGraph.DependencyTable.constructor` | kbbl/core/db/cohorts.ts:64-75 | An empty table is acyclic |
| `CohortGraph.DependencyTable.InsertCohort` | kbbl/core/db/cohorts.ts:4-19 | A new cohort keeps the table acyclic and its edges inside plans |
| `CohortGraph.DependencyTable.SetStatus` | kbbl/core/db/cohort-transitions.ts:80-97 | Statuses do not affect the graph |
| `CohortGraph.DependencyTable.AddDependency` | kbbl/core/server/handlers/cohorts.ts:179-221 | Creates the edge exactly when both cohorts are in one plan, the edge is new and no cycle arises, and so keeps the graph acyclic; each refusal is given exactly for its reason and changes nothing |
| `CohortGraph.DependencyTable.DeleteDependency` | kbbl/core/db/cohorts.ts:88-100 | Removes that edge and no other; the graph stays acyclic |
| `CohortLifecycle.CohortTable.constructor` | kbbl/core/db/cohorts.ts:4-19 | An empty table |
| `CohortLifecycle.CohortTable.Insert` | kbbl/core/db/cohorts.ts:4-19 | A new cohort starts a history at waiting |
| `CohortLifecycle.CohortTable.Write` | kbbl/core/db/cohort-transitions.ts:80-97 | A committed row extends its history by one legal step and touches no other history |
| `CohortLifecycle.CohortTable.TransitionFromRow` | kbbl/core/db/cohort-transitions.ts:68-114 | Commits exactly when the event can move the row the caller holds and that row is still current, and then writes where the event leads, event by event; otherwise nothing changes and the refusal names the status |
| `CohortLifecycle.CohortTable.Transition` | kbbl/core/db/cohort-transitions.ts:57-66 | Reads the current row and commits exactly the moves of the event from it |
| `CohortLifecycle.BlockedIffSaved` | kbbl/core/db/cohort-transitions.ts:80-97 | In every legal history a cohort is blocked exactly while pre_block_status is set |
| `CohortLifecycle.BlockThenNextRestores` | kbbl/core/orchestrator/state-machine.ts:64-71 | The commit after a block is an unblock, and it restores the row |
| `CohortLifecycle.NextIsMove` | kbbl/core/orchestrator/state-machine.ts:27-37 | The transition table, looked up by status, agrees with the moves listed event by event |
| `CohortLifecycle.ApprovalBeforeBuild` | kbbl/core/orchestrator/state-machine.ts:27-37 | Whatever is ready to build, in build or built was approved in the last review before it and has not been back since |
| `CohortLifecycle.ReviewThenBuild` | kbbl/core/orchestrator/state-machine.ts:27-37 | Awaiting merge and done come only after brief_review and then building |
| `CohortLifecycle.DoneOnlyAfterReviewAndBuild` | kbbl/core/orchestrator/state-machine.ts:27-37 | From waiting, done is reached only after brief_review and then building |
| `Workflow.KeysCollideIffEnclosed` | oakridge-core/src/scheduler.rs:134-140 | Two producers of a slot can share a unit key exactly when one stage key continues the other after a colon |
| `Workflow.KeysApartIsExact` | oakridge-core/src/scheduler.rs:120-141 | The condition on the definition under which no two producers of a slot share a unit key, in both directions |
| `Workflow.UnitKeyInjective` | oakridge-core/src/scheduler.rs:120-141 | With keys apart, a unit key determines producer and unit |
| `Workflow.ColonMakesKeysCollide` | oakridge-core/src/scheduler.rs:134-140 | Producers a and a:b of one slot whose units share a key |
| `Workflow.FileOutputCell` | oakridge-core/src/scheduler.rs:657-679 | Filing an artifact changes exactly the cells it reaches, never a unit_complete slot |
| `Workflow.SoleProducerFilesUnderUnit` | oakridge-core/src/scheduler.rs:134-140 | The only producer of a slot files an artifact under its unit label, "0" if it has none, and touches no other unit |
| `Workflow.SharedSlotFilesUnderProducer` | oakridge-core/src/scheduler.rs:134-140 | One of several producers files it under its stage key, a colon and the unit |
| `Workflow.FilingSpares` | oakridge-core/src/scheduler.rs:657-668 | Unit_complete slots, and slots no edge leads to, are left alone |
| `Workflow.DeliveryIs` | oakridge-core/src/scheduler.rs:658-665 | The first input declared under a name decides how the slot is delivered |
| `Workflow.FileAllCell` | oakridge-core/src/scheduler.rs:643-681 | After a batch each cell holds the last artifact that reaches it, or what it held |
| `Workflow.SameCells` | oakridge-core/src/scheduler.rs:104-106 | Two maps without empty entries and with the same cells are equal |
| `Readiness.SourcesOfFreshRun` | oakridge-core/src/scheduler.rs:204-235 | With nothing resolved, the satisfied stages are exactly those without a required input |
| `Readiness.GrownKeepsReadiness` | oakridge-core/src/scheduler.rs:218-235 | Starting stages makes no other stage ready or unready |
| `Readiness.GrownKeepsDone` | oakridge-core/src/scheduler.rs:279-295 | Starting stages completes no producer |
| `Readiness.ProducersDoneIs` | oakridge-core/src/scheduler.rs:279-295 | True exactly if some edge leads into the slot and every one comes from a Done stage |
| `Readiness.CollectsIs` | oakridge-core/src/scheduler.rs:246-277 | A slot collects if it says so, or if its delegated consumer fans over it and a delegated producer is itself fanned |
| `Readiness.CollectionWaits` | oakridge-core/src/scheduler.rs:218-244 | A stage with a required collection, declared or inherited, is ready only when every producer of it is Done |
| `Readiness.OtherSlotNeedsOneUnit` | oakridge-core/src/scheduler.rs:228-235 | Any other slot is satisfied exactly by one unit |
| `Readiness.InputsFitIff` | oakridge-core/src/scheduler.rs:297-329 | The inputs fit exactly if no required collection is empty and no scalar slot holds two units |
| `Readiness.ResolveInputs` | oakridge-core/src/scheduler.rs:297-329 | Fails exactly on an empty required collection or several units for a scalar; otherwise every slot gets all its units, its only unit, or nothing |
| `Gathering.LatestByOutputAndUnit` | oakridge-core/src/scheduler.rs:747-776 | For every output and unit the row of maximal (version, created_at) among the instance's rows of the declared type, and no entry where there is none |
| `Gathering.CandidateIs` | oakridge-core/src/scheduler.rs:742-760 | A row counts for an output and unit if it is the instance's, names the output, has the type declared last for it, and bears the unit |
| `Gathering.SoleGatherIsByUnit` | oakridge-core/src/scheduler.rs:116-141 | With one producer the entries of an exact gather are named by the units alone |
| `Gathering.SharedGatherIsByProducer` | oakridge-core/src/scheduler.rs:116-141 | With several, by stage key, colon and unit |
| `Gathering.BatchFrom` | oakridge-core/src/scheduler.rs:778-781 | The batch holds every entry once more as an output and nothing else, in any order |
| `Gathering.GateHolds` | oakridge-core/src/scheduler.rs:552-554 | An artifact of a delegated stage is in a producer_complete slot only once that stage has been Done |
| `Gathering.SatisfiedIsGated` | oakridge-core/src/scheduler.rs:218-235 | A satisfied stage without unit_complete slots has, for every required slot fed only by delegated stages, a producer that was Done |
| `Gathering.CompleteGather` | oakridge-core/src/scheduler.rs:724-782 | When all producers of a gathered slot are Done it holds exactly one entry per emitted (producer, unit), each of maximal (version, created_at) |
| `Gathering.StartKeepsInv` | oakridge-core/src/scheduler.rs:331-477 | Adding an entry for a gated stage keeps the invariant |
| `Gathering.StatusKeepsInv` | oakridge-core/src/scheduler.rs:829-834 | Writing a status keeps the invariant, up to the release owed by a stage that became Done |
| `Gathering.RowKeepsInv` | oakridge-core/src/executor/mod.rs:266-300 | A new artifact row keeps the invariant while its instance is not Done |
| `Gathering.UnitKeepsInv` | oakridge-core/src/scheduler.rs:578-599 | Early unit delivery touches only unit_complete slots |
| `Gathering.FileKeepsInv` | oakridge-core/src/scheduler.rs:552-558 | Filing an artifact of a stage that is not delegated leaves gathered slots alone |
| `Gathering.ReleaseKeepsInv` | oakridge-core/src/scheduler.rs:724-782 | Releasing the latest artifacts of a completed delegated stage makes its gathered slots complete and spares every other producer's units |
| `Gathering.ReleaseCompletesUnit` | oakridge-core/src/scheduler.rs:643-681 | After the release, each unit's cell holds its latest artifact, and is empty if nothing was emitted for it |
| `Gathering.ReleaseSparesOthers` | oakridge-core/src/scheduler.rs:643-681 | The release changes no cell of another producer in a gathered slot |
| `Gathering.NothingToRelease` | oakridge-core/src/scheduler.rs:729-732 | A stage that is not delegated owes no gathered slot anything |
| `Gathering.LaunchIsWellFed` | oakridge-core/src/scheduler.rs:297-329 | A first launch of a stage without unit_complete slots gets exact collections in its required gathered slots; so does any launch while the producers are Done |
| `Gathering.PrepareInputs` | oakridge-core/src/scheduler.rs:353-366 | Inputs for a launch that is gated and gets exact collections |
| `RunSteps.PopKeepsAwake` | oakridge-core/src/scheduler.rs:160-202 | Handling an event other than a status change keeps what drives the run |
| `RunSteps.DoneKeepsOrder` | oakridge-core/src/scheduler.rs:797-827 | No stage has been Done before all producers of its unit_complete slots |
| `RunSteps.EndedIs` | oakridge-core/src/scheduler.rs:857-876 | A run can end when every stage is Done or Failed; it is Failed exactly if one failed, Done exactly if all are Done |
| `RunSteps.RecordedStatusIs` | oakridge-core/src/scheduler.rs:797-834 | The status recorded is the one reported, except that a Done before the last unit input counts as Running; no other entry changes |
| `RunSteps.ExhaustedIs` | oakridge-core/src/scheduler.rs:920-931 | A unit_complete slot is exhausted when every edge into it comes from a Done stage |
| `RunSteps.DeliverUnitsCell` | oakridge-core/src/scheduler.rs:578-599 | A finished unit goes, under its own id, to the unit_complete slots its output leads to and nowhere else |
| `RunSteps.EndedHaveNoHandle` | oakridge-core/src/scheduler.rs:835-837 | A stage that is Done or Failed has no handle |
| `RunSteps.ActivationHolds` | oakridge-core/src/scheduler.rs:331-477 | However a launch ends, the whole invariant is kept |
| `RunSteps.PopHolds` | oakridge-core/src/scheduler.rs:160-202 | Emitted artifacts are handled in emission order |
| `RunSteps.EmissionIsLogged` | oakridge-core/src/executor/mod.rs:266-350 | A stored and announced artifact is the next one in emission order |
| `RunSteps.ReleaseFeeds` | oakridge-core/src/scheduler.rs:735-781 | The released batch is delivered to exactly the stages for which the completed stage has a row on one of its edges |
| `RunSteps.FilingElsewhere` | oakridge-core/src/scheduler.rs:657-679 | Filing leaves the slots of a stage alone that nothing is delivered to |
| `RunSteps.ReleasedBy` | oakridge-core/src/scheduler.rs:643-721 | A release changes only the slots of the stages it feeds and starts exactly those of them that are then ready |
| `RunSteps.FollowedBy` | oakridge-core/src/scheduler.rs:838-846 | A completion starts exactly the ready stages it feeds and the stages whose last unit it was |
| `Overlooking.OverlookedIffMissed` | oakridge-core/src/scheduler.rs:785-956 | Over every event: a stage that was not overlooked (ready, not started) becomes so exactly if the event is the accepted Done of a stage it waited for last, and that stage delivers nothing to it |
| `Overlooking.CompletionOverlooks` | oakridge-core/src/scheduler.rs:838-846 | After an accepted Done a stage is overlooked exactly if it is ready, not in the index and not reached |
| `Overlooking.EmissionOverlooksNone` | oakridge-core/src/scheduler.rs:528-559 | An emitted artifact leaves no further stage overlooked |
| `Overlooking.UnitOverlooksNone` | oakridge-core/src/scheduler.rs:561-627 | A finished unit leaves no further stage overlooked |
| `Overlooking.OtherStatusOverlooksNone` | oakridge-core/src/scheduler.rs:785-834 | Any other status, a premature Done included, leaves no further stage overlooked |
| `Overlooking.LastWaitIsForProducer` | oakridge-core/src/scheduler.rs:218-295 | What a stage can wait for last is the completion of a producer of a required waiting slot |
| `Overlooking.HandledKeepsAccounted` | oakridge-core/src/scheduler.rs:160-202 | Whenever a stage is overlooked, the producer it awaits that completed last is Done and had nothing for it; every event keeps this |
| `Overlooking.StatusKeepsAccounted` | oakridge-core/src/scheduler.rs:1301-1345 | Control messages keep it |
| `Overlooking.RowKeepsAccounted` | oakridge-core/src/executor/mod.rs:266-300 | New rows keep it |
| `Overlooking.ServedRunOverlooksNone` | oakridge-core/src/scheduler.rs:724-782 | If, of the producers a stage awaits, the one that completed last is delegated and has a row for it, it is not overlooked |
| `OverlookedRuns.PlainProducerOverlooks` | oakridge-core/src/scheduler.rs:729-732 | A run that ends Done with an overlooked consumer: its producer is not delegated, and emitted before it completed |
| `OverlookedRuns.EmptyProducerOverlooks` | oakridge-core/src/executor/delegated_session/mod.rs:2609-2614 | A run that ends Done with an overlooked consumer: the delegated producer that completed last fans out over zero units |
| `RunHistory.Apply` | oakridge-core/src/scheduler.rs:160-202 | Any executor step or control message keeps the invariant of the run |
| `RunHistory.Drive` | oakridge-core/src/scheduler.rs:1999-2010 | Over every sequence of events and control messages of a graph with a source stage: an unfinished run has a pending, running or parked stage or a queued status event; a run that ended by itself has only Done and Failed stages and is Failed exactly if one failed; ended stages have no handle; nothing is overlooked if the awaited producer that completed last always served its consumer |
| `RunScheduler.RunTask.constructor` | oakridge-core/src/scheduler.rs:1979-1995 | A fresh task satisfies the invariant |
| `RunScheduler.RunTask.FailActivation` | oakridge-core/src/scheduler.rs:483-526 | The stage is Failed in the index and a status event is queued |
| `RunScheduler.RunTask.LaunchStage` | oakridge-core/src/scheduler.rs:336-470 | The stage is Pending with a handle exactly if its inputs fit and nothing fails, else Failed with a status event; a launch that was executed is recorded and well fed |
| `RunScheduler.RunTask.ActivateStage` | oakridge-core/src/scheduler.rs:331-477 | A known stage that is not in the index gets an entry, others keep theirs, and the run stays driven |
| `RunScheduler.RunTask.FileArtifact` | oakridge-core/src/scheduler.rs:646-680 | Files along the edges of the output and reports exactly the stages delivered to |
| `RunScheduler.RunTask.FileArtifacts` | oakridge-core/src/scheduler.rs:643-681 | Files the whole batch before any consumer is considered |
| `RunScheduler.RunTask.ActivateConsumers` | oakridge-core/src/scheduler.rs:683-721 | Starts exactly the consumers that are satisfied and not yet in the index |
| `RunScheduler.RunTask.PropagateArtifacts` | oakridge-core/src/scheduler.rs:643-721 | Files all, then starts exactly the satisfied consumers |
| `RunScheduler.RunTask.OnArtifactEmitted` | oakridge-core/src/scheduler.rs:528-559 | An artifact of a delegated stage is held back; any other is filed and its satisfied consumers start |
| `RunScheduler.RunTask.ReleaseOutputs` | oakridge-core/src/scheduler.rs:724-782 | Starts exactly the stages it feeds that are then ready and changes only their slots; does nothing for a stage that is not delegated |
| `RunScheduler.RunTask.LatestOutputs` | oakridge-core/src/scheduler.rs:735-781 | The batch to release, and that filing it completes the gathered slots |
| `RunScheduler.RunTask.FileUnit` | oakridge-core/src/scheduler.rs:595-599 | Files one unit in a unit_complete slot |
| `RunScheduler.RunTask.DeliverUnit` | oakridge-core/src/scheduler.rs:594-625 | Files the unit and starts the consumer if that satisfies it |
| `RunScheduler.RunTask.OnUnitCompleted` | oakridge-core/src/scheduler.rs:561-627 | Delivers to unit_complete slots only, and leaves no satisfied consumer unstarted |
| `RunScheduler.RunTask.NotifyExhaustion` | oakridge-core/src/scheduler.rs:903-956 | Starts exactly the consumers at unit_complete slots all of whose producers are Done |
| `RunScheduler.RunTask.SetStatus` | oakridge-core/src/scheduler.rs:829-837 | Writes one status and drops the handle of a stage that ended; becoming Done leaves a release owed |
| `RunScheduler.RunTask.Settle` | oakridge-core/src/scheduler.rs:857-886 | Ends the run exactly when the index is not empty and nothing is pending, running or parked; Failed exactly if a stage failed |
| `RunScheduler.RunTask.CompleteStage` | oakridge-core/src/scheduler.rs:838-846 | Release and exhaustion together start exactly the ready stages that are fed and the stages whose last unit it was; a ready stage that gets neither stays unstarted |
| `RunScheduler.RunTask.ApplyStatus` | oakridge-core/src/scheduler.rs:792-846 | The entry of the instance changes as NextEntry says and no other does; a premature Done is put back to Running |
| `RunScheduler.RunTask.OnStatusChanged` | oakridge-core/src/scheduler.rs:785-887 | As above, then the quiescence check: the run ends, or an active stage remains |
| `RunScheduler.RunTask.Dispatch` | oakridge-core/src/scheduler.rs:160-202 | Takes the first event and does what it calls for; the rest of the queue stays, followed only by failed starts |
| `RunScheduler.RunTask.HandleNext` | oakridge-core/src/scheduler.rs:160-202 | One turn of the run loop keeps the invariant, leaves a stopped run with every stage ended or a run that something still drives, and says exactly which stages it leaves overlooked |
| `RunScheduler.RunTask.HandleStatus` | oakridge-core/src/scheduler.rs:167-171 | The same for a status event |
| `RunScheduler.RunTask.HandleEmission` | oakridge-core/src/scheduler.rs:164-166 | The same for an artifact event; the map stays what filing the processed emissions gives |
| `RunScheduler.RunTask.HandleUnit` | oakridge-core/src/scheduler.rs:172-174 | The same for a finished unit |
| `RunScheduler.RunTask.PrimeSourceStages` | oakridge-core/src/scheduler.rs:204-216 | The index holds exactly the source stages, none is overlooked, and the run is driven exactly if there is one; otherwise index and queue stay empty |
| `RunScheduler.RunTask.OnDecision` | oakridge-core/src/scheduler.rs:985-1073 | Accepted exactly when the stage is parked or delegated, current, and has a handle that resumes; only a parked stage that is not delegated becomes Running |
| `RunScheduler.RunTask.OnParkStuck` | oakridge-core/src/scheduler.rs:1301-1380 | Drops the handle; parks the instance only if its stored status was Running; parking a known stage never ends the run |
| `RunScheduler.RunTask.OnRetryStuck` | oakridge-core/src/scheduler.rs:1382-1564 | Accepted exactly for a stage stuck-parked in both places whose stored status was swapped and whose inputs fit; it then runs with a handle or fails with a status event queued |
| `RunScheduler.RunTask.Reexecute` | oakridge-core/src/scheduler.rs:1519-1563 | Running with a handle, or Failed without one and a status event queued |
| `RunScheduler.RunTask.PrepareRetry` | oakridge-core/src/scheduler.rs:1501-1504 | A retry is refused exactly when the inputs do not fit the slots |
| `RunScheduler.RunTask.OnCancel` | oakridge-core/src/scheduler.rs:1282-1296 | Drops all handles and ends the run as failed |
| `RunScheduler.RunTask.Report` | oakridge-core/src/scheduler.rs:160-175 | Any event of an executor keeps the invariant |
| `RunScheduler.RunTask.Emit` | oakridge-core/src/executor/mod.rs:266-350 | Storing and announcing an artifact keeps the invariant while its stage is not Done |
| `RunScheduler.RunTask.Recover` | oakridge-core/src/scheduler.rs:2193-2248 | With no delegated stage, no unit_complete slot, keys apart and strictly increasing created_at per stage, rebuilding from the rows in any order gives the live map once all emissions are processed |
| `Recovery.RebuildResolved` | oakridge-core/src/scheduler.rs:2193-2248 | Every cell holds a newest row among those that belong there, and is empty only if none does |
| `Recovery.RowBelongsTo` | oakridge-core/src/scheduler.rs:2198-2224 | A row belongs to its instance's stage, under its output name or else the first declared output of its type |
| `Recovery.RowFilesUnder` | oakridge-core/src/scheduler.rs:2225-2237 | With one producer a row goes to the cell of its unit, with several to the one of stage key, colon and unit |
| `Recovery.KeepOutput` | oakridge-core/src/scheduler.rs:2225-2247 | One row replaces an entry only if it is strictly newer |
| `Recovery.RowKeepsNewest` | oakridge-core/src/scheduler.rs:2197-2248 | Folding in one more row keeps every cell newest |
| `Recovery.NewestIsLive` | oakridge-core/src/scheduler.rs:643-681 | The newest row of a cell is what live processing filed there last |
| `Recovery.RecoverEqualsLive` | oakridge-core/src/scheduler.rs:2193-2248 | The rebuilt map equals the map of live processing |
| `EventText.ReadInPieces` | lbc-dashboard/server.ts:893-909 | Reading on from the unfinished line gives the same lines and remainder as reading everything again |
| `EventText.LinesMakeText` | lbc-dashboard/server.ts:893-909 | The complete lines, each with its newline, and the rest make up the text, and none of them holds a newline |
| `EventText.NonBlankOne` | lbc-dashboard/server.ts:908-908 | A line is kept exactly if it holds a character other than white space |
| `EventText.ParseOne` | lbc-dashboard/src/store.ts:376-379 | A line yields its event, or nothing if it does not parse |
| `EventText.LastIndexOfNewline` | lbc-dashboard/server.ts:896-896 | The last newline, or -1 |
| `EventText.SplitAtLastNewline` | lbc-dashboard/server.ts:906-908 | Splitting what precedes the last newline yields exactly the complete lines |
| `EventText.EventsAppend` | lbc-dashboard/src/store.ts:319-326 | The events of a longer log are those of the log plus those of the newly completed lines |
| `EventTail.SummaryOfSummarizes` | lbc-dashboard/src/store.ts:539-550 | Ended, cancelled, failed and active, each exactly for the kinds of the last two events; the first started payload; the last two kinds |
| `EventTail.SummaryParts` | lbc-dashboard/src/store.ts:328-348 | The one-pass summary is that count, status, first started payload and tail |
| `EventTail.TailSuffices` | lbc-dashboard/src/store.ts:302-304 | Two kinds suffice: tail and status of a concatenation depend only on the two tails |
| `EventTail.CombineIsSummary` | lbc-dashboard/src/store.ts:371-400 | Appending to a cached summary gives the summary of the whole |
| `EventTail.ObservedIsFile` | lbc-dashboard/server.ts:872-886 | The reader sees the file as it is exactly after an append or a cut below the old offset |
| `EventTail.ReadNewLines` | lbc-dashboard/server.ts:851-913 | New lines, next offset, carry and reset flag, for a missing, shorter, equal or longer file |
| `EventTail.ReadOn` | lbc-dashboard/server.ts:882-909 | From the unfinished line, the appended text yields exactly the newly completed lines and the new unfinished line |
| `EventTail.ReadNewEvents` | lbc-dashboard/server.ts:851-913 | The same read seen as events: the new ones, or all of them after a reset |
| `EventTail.ChunkHoldsNewEvents` | lbc-dashboard/server.ts:851-913 | The chunk's lines hold exactly the events a full re-read would find in addition |
| `EventTail.TailStream.constructor` | lbc-dashboard/server.ts:596-610 | A new connection has seen nothing, and inherits whatever the cache holds |
| `EventTail.TailStream.WarmSummaryCache` | lbc-dashboard/src/store.ts:371-400 | The cache entry is the summary of all events, whether replaced or appended to |
| `EventTail.TailStream.WriteFrames` | lbc-dashboard/server.ts:626-636 | Numbers every event and writes those after the resume point |
| `EventTail.TailStream.Absorb` | lbc-dashboard/server.ts:607-636 | Offset and carry follow the file; the cache holds the summary of the inherited events and those now observed, and forgets the inherited ones exactly on a reset or a first read that finds lines |
| `EventTail.TailStream.Tick` | lbc-dashboard/server.ts:607-641 | After every tick offset, carry, cache, count and written frames agree with the observed log and what was inherited |
| `EventTail.AlwaysCurrent` | lbc-dashboard/server.ts:607-641 | Over any sequence of appends, visible truncations and absences, the observed text is the current file |
| `EventTail.AgreesIffNothingInherited` | lbc-dashboard/src/store.ts:371-400 | The cache entry agrees with a full re-read exactly if it inherited no events |
| `EventTail.Watch` | lbc-dashboard/server.ts:607-641 | The tail loop over any files: what it observes, whether the entry was replaced, whether a truncation was seen |
| `EventTail.Follow` | lbc-dashboard/server.ts:607-641 | After any visible changes the carry is the unfinished line of the file, and the cached summary is that of a full re-read, status by status, exactly if no entry was inherited or a tick replaced it |
| `EventTail.RewriteGoesUnnoticed` | lbc-dashboard/server.ts:872-886 | A rewrite of equal length after which the cached summary is wrong |
| `EventTail.StaleEntryIsKept` | lbc-dashboard/server.ts:620-630 | A recreated file whose first read finds no complete line, after which the cached summary is wrong |
| `EventTail.FramesResume` | lbc-dashboard/server.ts:626-636 | A resumed connection writes exactly the frames after the resume point, in order |
| `EventTail.ConnectKeepsInStep` | lbc-dashboard/server.ts:596-641 | One connection extends the client's prefix by exactly the next events |
| `EventTail.Serve` | lbc-dashboard/server.ts:596-641 | What a client receives from a connection is what the ticks of its stream wrote |
| `EventTail.ExactlyOnceAcrossReconnects` | lbc-dashboard/server.ts:596-641 | Over any sequence of disconnects of an append-only log the client holds a prefix of the parsed events, without gap or duplicate |
| `CellId.SegmentRoundTrip` | lbc-dashboard/src/store.ts:83-93 | Decoding undoes percent-encoding (section 2.1 of RFC 3986) for every string, and no encoding contains ':' |
| `CellId.CellIdRoundTrip` | lbc-dashboard/src/store.ts:83-114 | Parsing an id gives back the three segments exactly when all are safe, and nothing otherwise |
| `CellId.CellIdIsInjective` | lbc-dashboard/src/store.ts:83-93 | Different paths never share an id |
| `CellId.PlainIdIsJoined` | lbc-dashboard/src/store.ts:83-87 | The id of segments of letters, digits and unescaped marks is the segments joined by a colon |
| `CellId.EscapedIsPercent` | lbc-dashboard/src/store.ts:83-87 | Any other character becomes a percent sign and two upper-case hexadecimal digits for each octet of its UTF-8 form |
| `CellId.ParsedSegmentsAreSafe` | lbc-dashboard/src/store.ts:95-114 | No segment of a parsed id is empty, `.` or `..`, or holds a separator |
| `CellId.ParsedIdHasTwoColons` | lbc-dashboard/src/store.ts:99-103 | An id that parses holds exactly two colons |
| `CellId.BadEscapeIsRejected` | lbc-dashboard/src/store.ts:104-111 | A percent sign without two hexadecimal digits after it makes the whole id malformed, wherever it stands |
| `CellId.MalformedUtf8` | lbc-dashboard/src/store.ts:104-111 | Stray lead octets, overlong forms, surrogates and numbers too large are malformed |
| `EventBus.InScopeIncreases` | oakridge-core/src/events.rs:96-124 | The events of any scope have strictly increasing numbers |
| `EventBus.InScopeMembers` | oakridge-core/src/events.rs:96-124 | A scope holds exactly the publications of its run, or all of them |
| `EventBus.GlobalRingIsConsecutive` | oakridge-core/src/events.rs:96-124 | The numbers of the global ring are consecutive |
| `EventBus.DrainIsComplete` | oakridge-core/src/events.rs:203-211 | Without a gap, draining the ring is as good as draining everything ever published in scope |
| `EventBus.RingSufficesIffNothingLost` | oakridge-core/src/events.rs:203-211 | With a gap, what is retained is still everything after `since` exactly if no dropped event of the scope is newer |
| `EventBus.NewerMembers` | oakridge-core/src/events.rs:203-211 | Draining keeps exactly the events after the given number |
| `EventBus.PublishKeepsConsistent` | oakridge-core/src/events.rs:96-124 | Publishing keeps every ring the newest events of its scope, and the global ring at the smaller of 1024 and all |
| `EventBus.EventBus.constructor` | oakridge-core/src/events.rs:78-94 | An empty bus |
| `EventBus.EventBus.EvictExpired` | oakridge-core/src/events.rs:183-201 | A terminal run and its ring survive exactly while less than the retention has passed since it ended |
| `EventBus.EventBus.Publish` | oakridge-core/src/events.rs:96-124 | Dropped exactly while the run is terminal and retained; otherwise the next number of the one sequence, at the end of both rings |
| `EventBus.EventBus.Append` | oakridge-core/src/events.rs:106-123 | Both rings gain the entry at the end, and lose their first only if they held 1024 |
| `EventBus.EventBus.CleanupRun` | oakridge-core/src/events.rs:176-181 | Records the run as terminal now, after evicting expired ones |
| `EventBus.EventBus.Backfill` | oakridge-core/src/events.rs:147-157 | Without a gap the answer is exactly the in-scope events after `since`, in order, if and only if the ring is retained or nothing newer was published; with a gap it is everything retained, a false alarm exactly if nothing newer was dropped; up to 1024 publications the global answer is always complete |
| `EventBus.EventBus.OldestSeq` | oakridge-core/src/events.rs:161-172 | The least retained number of the scope, 0 exactly when nothing is retained |
| `EventBus.EvictedRunReportsNoGap` | oakridge-core/src/events.rs:183-201 | After eviction a backfill returns nothing and reports no gap although an event was published |
| `KeyedChains.StartsAfterEarlier` | kbbl/core/session/serialize-by-key.ts:18-29 | Works under one key start in call order, each only after every earlier one has settled, fulfilled or not |
| `KeyedChains.MissingEntryMeansSettled` | kbbl/core/session/serialize-by-key.ts:18-29 | A missing entry means every earlier work of the key has settled |
| `KeyedChains.NextMayStart` | kbbl/core/session/serialize-by-key.ts:18-29 | Once the earlier works of its key have settled, a work may start: rejections block nothing |
| `KeyedChains.AdvanceKeepsConsistent` | kbbl/core/session/serialize-by-key.ts:18-29 | Starts and settlements in any order keep the chain invariant |
| `KeyedChains.CallKeepsConsistent` | kbbl/core/session/serialize-by-key.ts:18-29 | A call keeps the chain invariant |
| `KeyedChains.DropKeepsConsistent` | kbbl/core/session/serialize-by-key.ts:18-29 | Dropping an entry that is still the settled tail keeps the chain invariant |
| `KeyedChains.Serializer.constructor` | kbbl/core/session/serialize-by-key.ts:18-29 | No chains |
| `KeyedChains.Serializer.SerializeByKey` | kbbl/core/session/serialize-by-key.ts:18-29 | Chains onto the current tail and becomes the tail |
| `KeyedChains.Serializer.StartWork` | kbbl/core/session/serialize-by-key.ts:18-29 | Possible only when the predecessor's tail has settled |
| `KeyedChains.Serializer.SettleWork` | kbbl/core/session/serialize-by-key.ts:18-29 | A work settles either way |
| `KeyedChains.Serializer.SettleTail` | kbbl/core/session/serialize-by-key.ts:18-29 | The stored tail settles even after a rejection |
| `KeyedChains.Serializer.Cleanup` | kbbl/core/session/serialize-by-key.ts:18-29 | Drops the entry only while it is still this tail |

## Left out

- HTTP routing, authentication, configuration, git and gh subprocesses, the ACP transport, process signals and timers: input and output only.
- TurnLedger.TurnStore.AcceptTurn: compares payloads where the source compares their SHA-256 hashes, so a hash collision is not modelled.
- Session rows: statuses outside the boot sweep, fencers, end reasons, `claimResumable`, `ensureResumableSession` and purge. Provisioning writes `idle` unconditionally, so no claim is made that a closed session stays closed, nor that a session has one live controller.
- DispatchAttempts.AttemptTable.MarkFinished: branch names, failure details, timestamps and the clearing of owner session references are not stored.
- DispatchAttempts.AttemptTable.MarkRunningFinishedBySession: the same fields are left out.
- CohortGraph.DependencyTable.AddDependency: the archived-epic refusal is not modelled.
- CohortLifecycle.CohortTable.TransitionFromRow: rows are not deleted, so the re-read after a lost race always finds the cohort.
- RunScheduler.RunTask.OnDecision: the correlated handoff to an upstream stage is not modelled, because the executor code it depends on is outside this model.
- RunScheduler.RunTask.OnRetryStuck: retrying one unit of a delegated session is passed to its handle and changes nothing here.
- RunScheduler.RunTask.Emit: requires that an executor stores no artifact for a stage that the index says is Done; storing and announcing are one step.
- RunScheduler.RunTask.NotifyExhaustion: starts consumers without the required-input check, as the source does; resume payloads sent to handles are not recorded.
- RunScheduler.RunTask.Recover: the gate and the gather are stated for runs begun by `start_run`; for a recovered run only the rebuilt map is compared. Replaying unit deliveries and re-executing instances after a restart are left out.
- Database failures of the scheduler, including a failed listing of artifacts at release; its event queue is unbounded here and holds 256 events in the source.
- The scheduler's stuck sweep, handoff roles and review items: they feed the handlers modelled here.
- EventTail.TailStream.Tick: while a stream lives it is the only writer of its cache entry, and reads fall on character boundaries; concurrent writers and split multi-byte characters are not modelled.
- EventTail.ExactlyOnceAcrossReconnects: after a truncation frame ids are not claimed to match positions in the new file.
- EventText.EventsAppend: JSON parsing is any function from lines to events.
- CellId.SegmentRoundTrip: strings are sequences of Unicode scalar values, so the error for lone surrogates does not arise.
- EventBus.EventBus.Publish: broadcast channels and subscribers are not modelled.
- Epic, plan and brief state machines, run registry, pull-request reconciliation, profiles, model catalogue and cost script: each is settled by reading one function.
