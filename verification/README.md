# Verified model of the Carve pipeline runtime

This project models the runtime that executes Carve pipelines and proves properties of it with
Dafny 4.11. `dafny verify dfyconfig.toml` checks everything.

The parts, each in its own modules:

- **Step DAG engine.** `Graph`, `PipelineSchema`, `CycleDetection`, `TopologicalSort`, `PipelineDag`,
  `FailureModes`, `StepRetry`, `DagWalk`, `WalkOutcome`, `WalkReport`, `ExecutePipeline`, `StepSink`,
  `RunRecords`. The loops and objects are methods and classes; each is proved equal to a function, and the results
  about whole runs are lemmas about those functions. "Launched" and "bypassed by `skip_downstream`" are
  kept apart from the three sets, because an executor may itself report "skipped".
- **Job claim, run and reclaim.** `JobQueue` holds the `jobs` table and its transactions,
  `ClaimProtocol` the interleaved steps of any number of workers and the reaper, with claim epochs in a
  log and a history that no step reads. `ClaimInvariant`, `ClaimTheorems`, `ClaimRuns`, `ReclaimedRuns` and
  `JobEnds` hold for every interleaving; `ClaimScenarios` holds the failing inputs; `Worker` writes `run_once` out
  call by call on top of the protocol; `Liveness` relates heartbeats to reaper passes.
- **Scheduler and time.** `Clock`, `Cron`, `Scheduler`, `Firing`, `SchedulerLoop`. A cron expression is an
  unbounded set of integer-microsecond ticks, given by its increasing enumeration.
- **Archiver.** `Archiver`, `ArchivePass`: one transaction per table with other transactions committing
  between its statements and a fault at any point.
- **Keyset pagination and the recovery loop.** `Pagination`, `Recovery`, `RecoveryTheorems`,
  `RecoveryOutcome`.

Assumptions, stated as preconditions where they are used: step ids are unique; at least one slot is
available; a step's result depends only on the step and its ancestors' results (slot independence only);
ids are unique in a paginated collection; other transactions only add rows that match an archive
batch's predicate, and respect the foreign keys.

## Where the code and its documentation disagree

The model follows the code.

- `set_last_fired` advances from the row's old `next_fires_at`, not from `now` or the fired tick
  (`src/carve/core/state/schedules.py:243`). A row several ticks behind stays due and can be fired again for
  the same tick: `SchedulerLoop.OneTickTwoJobs` shows two job rows for one tick,
  `SchedulerLoop.SecondEnqueueLandsIff` and `Firing.EachTickOnceIff` say exactly when.
- `release_claim` names no worker. A worker that stalls before it can requeue a job another worker is running
  (`ClaimScenarios.ReleaseStealsARunningJob`) or has finished (`ClaimScenarios.ReleaseReopensAFinishedJob`);
  `ClaimTheorems.OnlyReleaseReopens` and `ClaimTheorems.OnlyReclaimOrReleaseTakes` say exactly when.
- `reclaim_stale` is one statement, so one pipeline's queued job can hold back the reclaim of every
  other pipeline (`JobQueue.OnePipelineBlocksTheWholePass`).
- The reaper is described as failing the orphaned in-flight run of a reclaimed job, which is then terminal, a
  job without a transition having no run yet (`src/carve/runtime/reaper.py:13-16`, `:57-61`). None of this
  holds throughout, because a requeued row keeps its `run_id` and `update_run_status` has no guard:
  - It can mark failed a run that had succeeded: a claimed row still names a run of another claim
    (`ClaimScenarios.ReaperFailsASucceededRun`), or a running row is taken between the recording of success
    and the finishing of the job (`ClaimScenarios.ReaperFailsARunRecordedInTime`). `ReclaimedRuns.ReclaimHandsEndedRunIff` shows
    that a reclaim hands over such a run in exactly these two cases; a run handed over earlier can still be
    recorded as succeeded before the write (`ReclaimedRuns.ReaperOverwritesIff`).
  - A worker that dies between creating and binding its run leaves a queued run nothing ever fails
    (`ClaimScenarios.CrashLeavesAQueuedRun`, `ReclaimedRuns.UnnamedForGood`).
  - A reclaimed worker can overwrite the failed run (`ClaimScenarios.ZombieOverwritesFailedRun`); the run is
    failed for good once its worker is out of `run_once` (`ReclaimedRuns.FailedRunIsRewrittenIff`,
    `ReclaimedRuns.FailedForGood`).
- Besides its children, a run is kept by its recovery runs (`runs.parent_run_id`) and by
  `pipelines.last_run_id`, so children-first order alone does not let a `runs` batch through
  (`Archiver.RecoveryRunHoldsBackItsParent`; exactly when in `ArchivePass.QuietPassTakesExactly`).
- `run_with_recovery` does not fold every exception into its outcome
  (`RecoveryTheorems.RaisingOperationEscapes`; exactly when in `RecoveryTheorems.EscapesIff`).
- Retry delays are documented as growing; with a negative initial delay they fall
  (`StepRetry.DelaysMonotoneIff`).

## Model

| member | source | states |
|---|---|---|
| `CycleDetection.ValidateNoCycles` | src/carve/runtime/pipeline_dag.py:42-71 | The check returns normally exactly when every `depends_on` names a known step and the graph has no cycle; any error it reports is true of the graph |
| `CycleDetection.CycleCheck.Visit` | src/carve/runtime/pipeline_dag.py:47-67 | A visit that returns normally has finished the step and everything below it; one that raises names a real unknown dependency or a real closed dependency path |
| `CycleDetection.CycleCheck.Enter` | src/carve/runtime/pipeline_dag.py:48-49 | The stack stays a dependency path when a step is pushed |
| `CycleDetection.CycleCheck.Leave` | src/carve/runtime/pipeline_dag.py:66-67 | Finished steps always stand after all their dependencies |
| `CycleDetection.JustifiedMeansIllFormed` | src/carve/runtime/pipeline_dag.py:50-64 | An error is never reported for a well-formed graph |
| `TopologicalSort.InsertSorted` | src/carve/runtime/pipeline_dag.py:157-168 | The in-place loop puts the item before the first entry declared later |
| `TopologicalSort.InsertKeepsAscending` | src/carve/runtime/pipeline_dag.py:157-168 | A queue sorted by declaration index stays sorted |
| `TopologicalSort.InsertElems` | src/carve/runtime/pipeline_dag.py:157-168 | Insertion adds exactly the one item, as a multiset |
| `TopologicalSort.SortIsAscending` | src/carve/runtime/pipeline_dag.py:86-89 | The initial ready queue is sorted by declaration index |
| `TopologicalSort.StepsWithoutDependencies` | src/carve/runtime/pipeline_dag.py:86-89 | The initial queue holds exactly the steps with nothing missing |
| `TopologicalSort.ReleaseDependents` | src/carve/runtime/pipeline_dag.py:94-98 | One pop keeps every count equal to the number of unplaced dependencies and collects exactly the steps it makes available |
| `TopologicalSort.EnqueueAll` | src/carve/runtime/pipeline_dag.py:99-101 | Newly ready steps join the queue and it stays sorted |
| `TopologicalSort.PlaceNext` | src/carve/runtime/pipeline_dag.py:91-101 | The popped step is new, is the earliest-declared available one, and the queue is again exactly the available steps |
| `TopologicalSort.ComputeTopologicalOrder` | src/carve/runtime/pipeline_dag.py:73-103 | The result is a permutation of all steps with dependencies first, each entry the earliest-declared step available |
| `TopologicalSort.GreedyIsLeast` | src/carve/runtime/pipeline_dag.py:73-78 | Such an order precedes every other topological order lexicographically by declaration index, hence is the unique least one |
| `PipelineDag.OrderIsLexicographicallyLeast` | src/carve/runtime/pipeline_dag.py:73-78 | The order a pipeline gets is the lexicographically least topological order by declaration index |
| `TopologicalSort.NeverStuck` | src/carve/runtime/pipeline_dag.py:123-126 | In an acyclic graph some step is ready while any is unresolved |
| `PipelineDag.ReverseEdges` | src/carve/runtime/pipeline_dag.py:82-84 | The dependents table is the exact reverse of the dependency table, without repeats |
| `PipelineDag.Create` | src/carve/runtime/pipeline_dag.py:33-39 | Construction succeeds exactly for well-formed graphs and yields the declaration-least order |
| `PipelineDag.PipelineDAG.ReadySteps` | src/carve/runtime/pipeline_dag.py:116-137 | Returns, without repeats and in topological order, exactly the unresolved steps whose dependencies all are resolved |
| `PipelineDag.ReadyInMembers` | src/carve/runtime/pipeline_dag.py:130-137 | The ready list is duplicate-free and is exactly the set of ready steps |
| `PipelineDag.ReadyInOrder` | src/carve/runtime/pipeline_dag.py:130-137 | The ready list has its steps in the order in which the topological order has them, so that the cap takes the first |
| `PipelineDag.PipelineDAG.DownstreamOf` | src/carve/runtime/pipeline_dag.py:139-154 | The worklist returns exactly the transitive dependents, never the step itself |
| `PipelineDag.ExploreNext` | src/carve/runtime/pipeline_dag.py:148-153 | One turn of the worklist loses no dependent and makes progress |
| `FailureModes.RunState.ApplyFailureMode` | src/carve/runtime/failure_modes.py:66-115 | The new value of all six fields of the run state, for every status and mode |
| `FailureModes.FoldFollowsTable` | src/carve/runtime/failure_modes.py:74-115 | Which set, flag and list each (status, mode) pair reaches, and that it reaches nothing else |
| `StepRetry.RunStepWithRetry` | src/carve/runtime/execute_pipeline.py:228-267 | Stops at the first success; a retried step that fails has made max(max_attempts, 1) attempts, any other step one; between attempts it sleeps the initial delay, constant, added once more or doubled each time, and capped |
| `StepRetry.RawIsGrown` | src/carve/runtime/execute_pipeline.py:328-336 | The delay formulas are these growth rules: each delay is the one before, plus the initial delay, or twice as much |
| `StepRetry.TotalAtMostMax` | src/carve/runtime/execute_pipeline.py:318-336 | The sleeps of n attempts total at most (n - 1) times the ceiling |
| `StepRetry.ExponentialTotal` | src/carve/runtime/execute_pipeline.py:333-336 | Exponential sleeps total at most initial * (2^(n-1) - 1) |
| `StepRetry.LinearTotal` | src/carve/runtime/execute_pipeline.py:331-336 | Linear sleeps total at most initial * n(n - 1)/2 |
| `StepRetry.DelaysMonotoneIff` | src/carve/runtime/execute_pipeline.py:318-336 | Delays never decrease exactly when the initial delay is not negative or the strategy is fixed |
| `DagWalk.FoldKeepsInv` | src/carve/runtime/execute_pipeline.py:207-223 | After every single folded result: launched steps are closed under all dependencies, none lies below a cut, and the unlaunched resolved steps are exactly those below a cut |
| `DagWalk.SetsAreDisjoint` | src/carve/runtime/failure_modes.py:43-63 | In every state of a walk the three sets are pairwise disjoint, and launched steps are disjoint from bypassed ones |
| `DagWalk.ReadyIsLaunchable` | src/carve/runtime/pipeline_dag.py:130-137 | A ready step has all its ancestors launched and no cut above it |
| `DagWalk.SiblingStaysLaunchable` | src/carve/runtime/execute_pipeline.py:192-223 | A step of the same wave is not affected when its sibling fails and skips its dependents |
| `DagWalk.WaveKeepsInv` | src/carve/runtime/execute_pipeline.py:192-223 | A whole wave keeps the invariant |
| `DagWalk.WalkKeepsInv` | src/carve/runtime/execute_pipeline.py:189-225 | A whole walk keeps it, for every executor and every cap of at least one slot |
| `DagWalk.IterateResolvesMore` | src/carve/runtime/execute_pipeline.py:189-225 | Every wave resolves more steps, so the loop ends |
| `WalkOutcome.UnhaltedResolvesAll` | src/carve/runtime/execute_pipeline.py:189-195 | A walk that ends without halting has resolved every step |
| `WalkOutcome.WavesListLaunched` | src/carve/runtime/execute_pipeline.py:192-205 | Each step enters at most one wave, waves hold 1 to `available_slots` steps, and they list exactly the launched steps |
| `WalkOutcome.ProgressNeedsSlots` | src/carve/runtime/execute_pipeline.py:189-198 | An iteration changes nothing, and so loops for ever, exactly when the slice is empty: no slots, or a negative cap that cuts everything off |
| `WalkOutcome.StatusIsExact` | src/carve/runtime/failure_modes.py:118-132 | `succeeded` iff completed is all steps; `failed` iff some `fail` or `retry` step is in failed; otherwise everything was resolved |
| `WalkOutcome.SkippedIsTheClosure` | src/carve/runtime/failure_modes.py:110-115 | If no executor reports "skipped", skipped is the union of the transitive dependents of the failed `skip_downstream` steps |
| `WalkOutcome.TruthfulStatesAgree` | src/carve/runtime/execute_pipeline.py:192-223 | Two walks in which results depend on ancestors only agree on every step both resolved |
| `WalkOutcome.OutcomeIsTotal` | src/carve/runtime/execute_pipeline.py:189-225 | The sequential, never-halting reference outcome classifies every step |
| `WalkOutcome.WalkMatchesOutcome` | src/carve/runtime/execute_pipeline.py:189-225 | For any cap, a walk agrees with the reference outcome on every step it resolves (halted runs too), derives the same status, and unless it failed has the whole outcome |
| `WalkOutcome.SlotIndependence` | src/carve/runtime/execute_pipeline.py:189-225 | Two caps give the same status and, unless it is `failed`, the same sets, outputs and results |
| `WalkReport.WalkIsReported` | src/carve/runtime/execute_pipeline.py:192-225 | Every launched step has the result its executor returned on earlier results that include all its ancestors', and the warnings are exactly those of the failed `warn` steps, once each |
| `WalkReport.WalkWarns` | src/carve/runtime/execute_pipeline.py:207-223 | The warnings come in the order in which the waves list the failed `warn` steps |
| `WalkReport.FatalFailureEndsTheWalk` | src/carve/runtime/execute_pipeline.py:190-191 | No wave follows the one in which a `fail` or `retry` step failed |
| `WalkReport.WaveTakesTheFirst` | src/carve/runtime/execute_pipeline.py:193-197 | Every wave takes the first ready steps in topological order: a ready step left out comes after every step of a full wave |
| `ExecutePipeline.RunWave` | src/carve/runtime/execute_pipeline.py:197-205 | Every step of a wave runs against the results recorded before the wave |
| `ExecutePipeline.RecordResult` | src/carve/runtime/execute_pipeline.py:207-223 | One loop body of the fold updates state, outputs and step results as the walk says |
| `ExecutePipeline.FoldResults` | src/carve/runtime/execute_pipeline.py:207-223 | The wave is folded in order |
| `ExecutePipeline.Run` | src/carve/runtime/execute_pipeline.py:182-225 | The returned record itself: its sets hold the steps whose recorded result has that status, and are disjoint; the outputs are those of `completed`; `succeeded` iff completed is all steps, `failed` iff a `fail` or `retry` step is in failed, all steps resolved otherwise; each step was skipped below a cut or run on what its ancestors returned; one warning per failed `warn` step, with its error, in the order of the waves |
| `ExecutePipeline.WalkIsToldTruly` | src/carve/runtime/execute_pipeline.py:108-118 | What such a record says is true of every walk |
| `ExecutePipeline.RunsDoNotDependOnSlots` | src/carve/runtime/execute_pipeline.py:189-225 | Slot independence for the result the loop returns, retries included |
| `StepSink.PersistingStepSink.StepStarted` | src/carve/runtime/persisting_step_sink.py:56-77 | Appends one running row and files its id under the (step, attempt) key; in its two stretches, the row is created first |
| `StepSink.PersistingStepSink.StepFinished` | src/carve/runtime/persisting_step_sink.py:79-107 | Takes the key out of the dictionary and gives its row, or a fresh one if there is none, the final result; no other row changes |
| `StepSink.PersistingStepSink.CreateStepRun` | src/carve/core/state/job_queue.py:685-714 | Inserts a running row and returns its id |
| `StepSink.ReplayTracks` | src/carve/runtime/persisting_step_sink.py:50-107 | After any trace in which each key starts and finishes at most once, in that order, the sink holds for every key what its own calls alone determine |
| `StepSink.ProgramByKey` | src/carve/runtime/execute_pipeline.py:250-315 | A step runs the stretches of exactly one start and one finish for each attempt whose variables rendered |
| `StepSink.EveryAttemptHasOneTerminalRow` | src/carve/runtime/persisting_step_sink.py:50-107 | For every interleaving of any steps and retries, also between the stretches of a call: at the end `_open` is empty, no call is suspended, and there is exactly one row per rendered attempt, terminal, with that attempt's own result |
| `RunRecords.WalkAccounts` | src/carve/runtime/execute_pipeline.py:189-225 | Every launched step ran its attempts against the results recorded before its wave, and its last attempt is the result the run recorded |
| `RunRecords.RunLeavesItsRecords` | src/carve/runtime/persisting_step_sink.py:50-107 | For the steps a whole run launches, however their sink calls interleave: nothing left open, rows only for launched steps, all terminal, and the last attempt's row carries the recorded result |
| `JobQueue.Queue.EnqueueScheduled` | src/carve/core/state/job_queue.py:95-164 | Inserts a queued row unless the pipeline has one in that tenant; then it changes nothing and says so |
| `JobQueue.Queue.ClaimNext` | src/carve/core/state/job_queue.py:248-317 | Claims a queued row of the tenant whose time has come, with none scheduled earlier (unscheduled ones last) and, among equal times, none created earlier; or finds that there is none |
| `JobQueue.Queue.TransitionToRunning` | src/carve/core/state/job_queue.py:321-382 | Marks a row its worker has claimed as running and binds the run; reports a lost claim exactly when the worker does not hold the row as claimed, and a running sibling only when there is one |
| `JobQueue.Queue.MarkFinished` | src/carve/core/state/job_queue.py:401-454 | The status is written exactly when the worker still holds the row, and nothing else changes |
| `JobQueue.Queue.ReleaseClaim` | src/carve/core/state/job_queue.py:467-480 | Requeues the row and clears its claimer whoever that is, unless another row of the pipeline is queued |
| `JobQueue.Queue.UpdateHeartbeat` | src/carve/core/state/job_queue.py:482-501 | Stamps the row only for its claimer |
| `JobQueue.Queue.ReclaimStale` | src/carve/core/state/job_queue.py:503-574 | Requeues exactly the unlocked held rows of the tenant last stamped before the cutoff, clears claimer and stamp and returns run and prior owner of each; or changes nothing |
| `JobQueue.FlipRefusedExactly` | migrations/versions/0008_runtime_queue.py:75-81 | The reclaim statement violates the one-queued index exactly when two rows of one pipeline would end up queued |
| `JobQueue.ClaimKeepsIndexes` | migrations/versions/0008_runtime_queue.py:72-88 | A claim keeps both partial unique indexes |
| `JobQueue.TransitionKeepsIndexes` | migrations/versions/0008_runtime_queue.py:72-88 | So does a promotion |
| `JobQueue.ReleaseKeepsIndexes` | migrations/versions/0008_runtime_queue.py:72-88 | So does a release |
| `JobQueue.FinishKeepsIndexes` | migrations/versions/0008_runtime_queue.py:72-88 | So does a terminal write |
| `JobQueue.ReclaimKeepsIndexes` | migrations/versions/0008_runtime_queue.py:72-88 | So does a reclaim |
| `JobQueue.OnePipelineBlocksTheWholePass` | src/carve/core/state/job_queue.py:549-573 | A stale job whose pipeline has a queued successor can keep the stale job of an unrelated pipeline from being reclaimed |
| `JobQueue.ReapStaleOnce` | src/carve/runtime/reaper.py:50-85 | Reclaims, then marks failed the runs the reclaimed rows name, whatever state those are in, until one of those updates raises; if the index refuses, nothing changes |
| `JobQueue.FailRuns` | src/carve/runtime/reaper.py:67-72 | All the named runs end failed, or an update raised and only runs whose updates do not raise were failed |
| `ClaimInvariant.StepKeepsInv` | src/carve/runtime/worker.py:139-247 | Every atomic step of every worker, the reaper and the enqueuer keeps the protocol invariant |
| `ClaimInvariant.ReachableInv` | src/carve/runtime/worker.py:139-247 | Every state of every interleaving satisfies it |
| `ClaimTheorems.OneQueuedOneRunning` | migrations/versions/0008_runtime_queue.py:72-88 | In every reachable state a pipeline has at most one queued and at most one running job |
| `ClaimTheorems.FinishesAreFenced` | src/carve/runtime/worker.py:278-284 | A terminal write that takes effect comes from the execution of the job's current claim: no release, reclaim, other claim or finish of the job lies in between |
| `ClaimTheorems.ClaimFinishedOnce` | src/carve/runtime/worker.py:349-355 | No claim is finished twice |
| `ClaimTheorems.GuardIsAsStrongAsEpoch` | src/carve/runtime/worker_pool.py:99-112 | Because a worker id is inside one `run_once` at a time, the worker-id guard is as strong as a claim epoch |
| `ClaimTheorems.CleanExitResolvesTheClaim` | src/carve/runtime/worker.py:250-384 | A worker that leaves cleanly leaves its job terminal, queued or another worker's, its run terminal and its heartbeat stopped |
| `ClaimTheorems.ExitsAreCleanOrFailedWrites` | src/carve/runtime/worker.py:221-247 | There is no other way out except a closing write that failed |
| `ClaimTheorems.HoldingNeedsAClaim` | src/carve/core/state/job_queue.py:283-308 | Only a claim makes a worker the holder of a job |
| `ClaimTheorems.OnlyReleaseReopens` | src/carve/core/state/job_queue.py:467-480 | A terminal job changes status exactly when a worker backing off from it releases it and the index lets it |
| `ClaimTheorems.OnlyReclaimOrReleaseTakes` | src/carve/core/state/job_queue.py:467-574 | A held job goes back to the queue exactly by a reclaim that lands or by such a release |
| `JobEnds.StepKeepsEndInv` | src/carve/runtime/worker.py:323-355 | Every step keeps what relates a row's status to its latest event and a worker's place to what its execution came back with |
| `JobEnds.StatusIsTheLatestEvent` | src/carve/core/state/job_queue.py:385-480 | In every reachable state a row is ended, or held, exactly when the latest event about it is a finish, or a claim |
| `JobEnds.JobEndsAsItsExecution` | src/carve/runtime/worker.py:67-71 | A finished job is marked succeeded iff the execution of the finished claim came back successful, which is also when it recorded success for its run; otherwise it is marked failed |
| `ClaimScenarios.ReleaseStealsARunningJob` | src/carve/runtime/worker.py:179-189 | A reachable run in which a late release takes a running job from the worker executing it |
| `ClaimScenarios.ReleaseReopensAFinishedJob` | src/carve/runtime/worker.py:179-189 | A reachable run in which a late release requeues a job that had succeeded |
| `ClaimRuns.StepKeepsRunInv` | src/carve/runtime/worker.py:163-247 | Every step keeps what relates rows, runs, orphans and the history of claims, for rows with any kind of claimer |
| `ReclaimedRuns.RowNamesItsRunIff` | src/carve/core/state/job_queue.py:532-537 | In every reachable state a held row names the run of the claim it is held under exactly when it is running, whether the claimer is alive, crashed or gone |
| `ReclaimedRuns.ClaimedRowNamesAnotherRun` | src/carve/core/state/job_queue.py:532-537 | A row that is only claimed names no run, or one created under another claim of the same job |
| `ReclaimedRuns.HeldRunIsTerminalIff` | src/carve/runtime/worker.py:349-355 | The run of a held row's claim is terminal exactly once its execution has written an end, and then has that end; it is nobody's orphan |
| `ReclaimedRuns.WorkerHasEndedItsRunIff` | src/carve/runtime/worker.py:250-284 | A worker inside `run_once` has written its run's end exactly when it is about to finish the job |
| `ReclaimedRuns.ReclaimHandsOwnRunIff` | src/carve/runtime/reaper.py:64-72 | A reclaim that lands hands the reaper the run of a held row's claim exactly when it takes that row while running |
| `ReclaimedRuns.ReclaimHandsEndedRunIff` | src/carve/runtime/reaper.py:57-72 | A reclaim hands the reaper a run already recorded as succeeded or cancelled exactly when it takes a running row whose execution has recorded success, or a claimed row that still names a run that succeeded under another claim |
| `ReclaimedRuns.ReaperOverwritesIff` | src/carve/core/state/repository.py:141-172 | The reaper overwrites a finished run exactly when it was handed one that has succeeded by then; never a cancelled one |
| `ReclaimedRuns.FailedRunIsRewrittenIff` | src/carve/runtime/worker.py:208-208 | A failed run stops being failed exactly when its own worker, still inside `run_once`, writes it as running, succeeded or cancelled |
| `ReclaimedRuns.FailedForGood` | src/carve/runtime/reaper.py:13-16 | Once its worker is out of `run_once`, a failed run stays failed in every continuation |
| `ReclaimedRuns.UnnamedForGood` | src/carve/runtime/reaper.py:57-72 | A run no row names and no worker carries is never touched again in any continuation, so no reclaim fails it |
| `ClaimScenarios.ReaperFailsARunRecordedInTime` | src/carve/runtime/reaper.py:67-72 | A reachable run: success recorded, worker dead before finishing the job, running row reclaimed, run marked failed |
| `ClaimScenarios.CrashLeavesAQueuedRun` | src/carve/runtime/reaper.py:57-61 | A worker that dies between creating and binding its run leaves a queued run no continuation ever changes |
| `ClaimScenarios.ZombieOverwritesFailedRun` | src/carve/runtime/reaper.py:67-72 | A reclaimed worker comes back and turns the run the reaper failed into a success |
| `ClaimScenarios.ReaperFailsASucceededRun` | src/carve/runtime/reaper.py:67-72 | A reachable run in which the reaper marks failed a run that had succeeded |
| `Worker.RunOnce` | src/carve/runtime/worker.py:139-247 | The worker always comes back out; if the writes of `_fail_job` and `_finalize` succeed then, whatever failed earlier and whatever others did meanwhile, the claim is settled, and a job it finished and that job's run are both marked as the execution came back, or failed if it never did; an early return has cancelled its run |
| `Worker.GuardedPart` | src/carve/runtime/worker.py:163-217 | Each way the `try` body can end leaves the worker at the matching place; it throws only if a call raised or the release was refused before any row named the run |
| `Worker.PromoteAndRun` | src/carve/runtime/worker.py:170-217 | The same from the created run row on |
| `Worker.BackOff` | src/carve/runtime/worker.py:179-189 | Backing off cancels the run and settles the claim, or hands over to the failure handler because a call raised or the release was refused |
| `Worker.CancelAndReturn` | src/carve/runtime/worker.py:191-206 | A lost claim cancels the run and settles, or hands over to the failure handler because the call raised |
| `Worker.ExecuteJob` | src/carve/runtime/worker.py:208-220 | The heartbeat is stopped however the execution ends |
| `Worker.HandleFailure` | src/carve/runtime/worker.py:250-284 | Both writes are attempted; if both land the claim is settled, and a job finished by it is failed with a failed run |
| `Worker.FinalizeJob` | src/carve/runtime/worker.py:323-355 | Unless a write raises, the claim is settled, and a job finished by it and its run are marked as the execution came back |
| `Liveness.HeartbeatLoop` | src/carve/runtime/heartbeat.py:67-98 | The rows after any number of beats, failed ones included, and the beat times on the clock |
| `Liveness.BeatsOnlyStamp` | src/carve/runtime/heartbeat.py:85-97 | The loop touches only its own row's stamp, only while its worker holds the claim, and leaves the last beat that landed |
| `Liveness.FiveFailuresAreHarmless` | src/carve/runtime/heartbeat.py:93-97 | If one of the last six beats landed the job is not stale at any instant up to the next beat |
| `Liveness.SixFailuresCanBeFatal` | src/carve/runtime/reaper.py:43-44 | Six failed beats in a row can make a job stale at a reaper pass |
| `Liveness.StaleFromFirstPassOn` | src/carve/runtime/reaper.py:88-137 | A held row is stale at exactly the passes from its first stale one on, which comes more than 60 s and at most 90 s after the stamp |
| `Liveness.DeadWorkerIsReclaimed` | src/carve/runtime/reaper.py:50-85 | At that pass the job goes back to the queue, unless the one-queued index refuses the statement, and then nothing changes |
| `Liveness.RequeuedAtPassIff` | src/carve/runtime/reaper.py:50-85 | A held row is requeued at a pass exactly when its first stale pass has come and the index does not refuse; otherwise it is left alone |
| `Liveness.ReclaimedAtFirstPassNotRefused` | src/carve/runtime/reaper.py:88-137 | Over any history of passes, a row each of them finds held and unstamped is requeued at the first stale pass that is not refused, and left alone before |
| `Liveness.RefusalLasts` | src/carve/core/state/job_queue.py:549-573 | While nobody else changes the table, a refused pass is followed by refused passes only |
| `Liveness.TwoStaleRowsStopReclaiming` | src/carve/core/state/job_queue.py:549-573 | Two stale rows of one pipeline stop all reclaiming |
| `Clock.NextBoundaryIsLeast` | src/carve/runtime/clock.py:42-54 | The boundary slept to is the least multiple of the interval strictly after now |
| `Clock.BoundariesAreEvenlySpaced` | src/carve/runtime/clock.py:42-54 | From a boundary the next is exactly one interval on |
| `Clock.FakeClock.SetTo` | src/carve/runtime/clock.py:90-94 | Sets the instant and forgets no recorded sleep |
| `Clock.FakeClock.SleepUntilNextBoundary` | src/carve/runtime/clock.py:102-106 | Jumps to that boundary and records the duration |
| `Cron.NextTickIsLeast` | src/carve/runtime/cron.py:66-89 | The least tick strictly after the instant |
| `Cron.ThisTickIsGreatest` | src/carve/runtime/cron.py:92-111 | The greatest tick at or before the instant, the instant included |
| `Cron.AdvanceFromNowOrTick` | src/carve/runtime/cron.py:74-78 | Advancing from now and from the canonical tick give the same next fire time |
| `Scheduler.Schedules.ListDue` | src/carve/core/state/schedules.py:138-158 | Exactly the unpaused, seeded rows whose time has come |
| `Scheduler.Schedules.SetLastFired` | src/carve/core/state/schedules.py:230-249 | Stamps the row and moves it to the tick after its old next fire time, or after now if it had none |
| `Scheduler.FireOne` | src/carve/runtime/scheduler.py:99-128 | One attempt, stamped with the canonical tick; it lands iff the pipeline has no queued job, and then the queue gains exactly one job row with that tick; the row advances either way |
| `Scheduler.RunDueOnce` | src/carve/runtime/scheduler.py:51-129 | Attempts exactly the rows that are unpaused, whose next fire time has come and whose label resolves, once each, and moves each on from that time; every other row is untouched; the queue gains exactly one new job per fired row, queued for its pipeline and stamped with its tick, and `fired` counts them |
| `Firing.RowFollowsRecurrence` | src/carve/runtime/scheduler.py:82-129 | Over any sequence of passes each live row follows its own one-row recurrence, whatever the other rows do |
| `Firing.AttemptsAdvanceOneTickEach` | src/carve/core/state/schedules.py:230-249 | Attempts are conserved: each moves the row exactly one tick |
| `Firing.EachTickOnceIff` | src/carve/runtime/scheduler.py:62-78 | The ticks attempted for a schedule strictly increase exactly when no pass leaves the row due with the next pass before a new tick |
| `Firing.CaughtUpFiresAllOrRepeats` | src/carve/runtime/scheduler.py:82-129 | A run that ends caught up makes as many attempts as there were ticks; it fires each exactly once in order iff it never repeats, so a lost tick means a repeated one |
| `Firing.FreshRowFiresEveryTickOnce` | src/carve/core/state/schedules.py:162-226 | With at most one tick per poll interval a freshly seeded row fires every tick exactly once, in order |
| `Firing.LatestTickIsOnTime` | src/carve/runtime/scheduler.py:132-183 | The latest tick of a poll interval is due at the pass that ends it and, if that pass is exactly on its boundary, is less than one interval late |
| `Firing.SameTickIff` | src/carve/runtime/scheduler.py:62-78 | Two passes attempt one tick exactly when every pass from the one up to the other leaves the row due with no new tick before the next |
| `SchedulerLoop.Run` | src/carve/runtime/scheduler.py:132-183 | The loop over the real tables: the first pass runs at once, each later one on the first boundary after the one before it, and each did what a pass does, with anything happening to the queue in between |
| `SchedulerLoop.AttemptsAreFiredTicks` | src/carve/runtime/scheduler.py:82-129 | The ticks attempted by any history of passes are those of the one-row recurrence, so every result about it holds of the loop |
| `SchedulerLoop.DormantNeverFires` | src/carve/core/state/schedules.py:138-158 | Over any history of passes, a schedule that is paused, has no next fire time or has an unresolved label is never attempted and never changed |
| `SchedulerLoop.LandedMeansQueued` | src/carve/runtime/scheduler.py:99-107 | A landed attempt is a new job row, queued and unclaimed, of the schedule's pipeline and the default tenant, stamped with the canonical tick of its pass |
| `SchedulerLoop.SecondEnqueueLandsIff` | src/carve/runtime/scheduler.py:99-128 | Two passes put jobs in the queue for one tick exactly when all passes between repeat and neither finds the pipeline queued |
| `SchedulerLoop.OneTickTwoJobs` | src/carve/core/state/schedules.py:243-245 | The failing input on the tables: two passes, the first job claimed in between, two job rows for one tick |
| `SchedulerLoop.LatestTickIsAttemptedOnTime` | src/carve/runtime/scheduler.py:132-183 | In any history the latest tick before a pass is attempted by it, less than one interval late on an exact boundary |
| `Firing.NeverAhead` | src/carve/core/state/schedules.py:162-249 | A seeded row is never ahead of the next tick after the last pass |
| `Firing.AdvanceAgreesIff` | src/carve/core/state/schedules.py:233-243 | The code's advance (from the old next fire time) agrees with an advance from now exactly when a single tick was pending |
| `Firing.LaggingRowRepeatsATick` | src/carve/core/state/schedules.py:243-245 | A row several ticks behind is attempted twice for one tick |
| `Archiver.ArchiveTableSafely` | src/carve/runtime/archiver.py:208-257 | Result and tables after a batch, for any commits of others between its statements and any fault: all of its own effect, or none of it; a verification failure names counts that do disagree |
| `Archiver.CountsSuffice` | src/carve/runtime/archiver.py:238-257 | If others only ever add matching rows, equal counts mean equal rows: the delete removes exactly what was copied |
| `Archiver.CommitConservesIff` | src/carve/runtime/archiver.py:238-257 | A committed batch loses and duplicates nothing exactly when the deleted rows are the copied rows |
| `Archiver.SwappedRowIsLost` | src/carve/runtime/archiver.py:238-257 | Without that assumption, a swap of matching rows passes the count checks and loses a row |
| `Archiver.BatchConserves` | src/carve/runtime/archiver.py:233-257 | Live plus archived rows, as a multiset, are what the others' commits made them, whatever the fault |
| `Archiver.RowsAreConserved` | src/carve/runtime/archiver.py:10-21 | Over any history of batches, faults and other transactions, live plus archived rows change by exactly what the others added and took |
| `Archiver.BatchKeepsReferences` | src/carve/runtime/archiver.py:29-34 | A batch leaves no live row pointing at a removed run |
| `Archiver.ReferencesHoldThroughout` | src/carve/runtime/archiver.py:29-34 | Nor does any history of batches |
| `Archiver.ArchiveOnce` | src/carve/runtime/archiver.py:260-301 | The pass is its four batches in order, a failed one skipped, with commits of others before, during and between them, and it reports exactly those that completed |
| `Archiver.BatchStaysInItsTable` | src/carve/runtime/archiver.py:266-271 | Whatever others do and wherever it fails, a batch adds and removes rows of its own table only |
| `Archiver.BatchLandsIff` | src/carve/runtime/archiver.py:233-257 | With anything committing in between, a batch of any table, runs included, goes through exactly when it does not fail, no further matching row arrives while it runs, and no row that stays points to a row it would delete |
| `Archiver.ChildIsNeverRefused` | src/carve/runtime/archiver.py:29-34 | The foreign keys never hold up the batch of a child table |
| `Archiver.RecoveryRunHoldsBackItsParent` | src/carve/runtime/archiver.py:29-34 | A pass without faults moves nothing when a recent recovery run names the only aged run |
| `Archiver.ChildBatchesAreIndependent` | src/carve/runtime/archiver.py:110-137 | With nobody else writing, each child table loses exactly its matching rows unless its own batch failed, and nothing is lost overall |
| `Archiver.PassExactly` | src/carve/runtime/archiver.py:260-301 | The exact result of a whole pass with faults anywhere; the runs batch goes through iff it does not fail and no row left behind in any table points to a run it would delete |
| `ArchivePass.BatchIsForExpired` | src/carve/runtime/archiver.py:114-178 | The predicate of each batch, said of the row: its own table, older than that table's window, terminal in that table's vocabulary, and for jobs of the pass's tenant |
| `ArchivePass.QuietPassTakesExactly` | src/carve/runtime/archiver.py:260-301 | With nobody else writing, a pass takes exactly: an expired child row whose batch does not fail, and every expired run if the runs batch does not fail and no row it leaves names one of them; and adds exactly these to the archive |
| `ArchivePass.PassTakesOnlyExpired` | src/carve/runtime/archiver.py:281-294 | With others committing anything in between, whatever a batch takes or archives is an expired row of its own table |
| `ArchivePass.ReportedRowsAreArchived` | src/carve/runtime/archiver.py:291-301 | The count reported for a table is the number of rows added to the archive; a batch that fails adds none |
| `Pagination.ClampLimit` | src/carve/api/pagination.py:74-80 | The default when none is asked for, else the value in range nearest to the one asked for |
| `Pagination.OrderIsSorted` | src/carve/api/pagination.py:109-116 | The same rows; creation times never rise, and among equal times the ids fall |
| `Pagination.OrderIsUnique` | src/carve/api/pagination.py:109-116 | A set of rows has only one newest-first listing |
| `Pagination.PageExactly` | src/carve/api/pagination.py:119-143 | A page holds rows past the cursor; every other such row lies past its own cursor; it has a cursor iff there is such a row |
| `Pagination.NoRowTwice` | src/carve/api/pagination.py:91-143 | However the collection changes between requests, no row is returned twice |
| `Pagination.StableRowsReturnedOnce` | src/carve/api/pagination.py:91-143 | A finished traversal has returned, exactly once, every row that every request found |
| `Pagination.OnlyFetchedRows` | src/carve/api/pagination.py:119-143 | Every returned row was found by one of the requests |
| `Pagination.FixedCollectionFinishes` | src/carve/api/pagination.py:119-143 | Over a fixed collection the traversal ends as soon as its pages have room for it |
| `Pagination.FixedCollectionIsListedInOrder` | src/carve/api/pagination.py:119-143 | And its pages together are the collection, newest first |
| `Pagination.CompleteIffWithinCeiling` | src/carve/api/pagination.py:35-36 | The traversal of a fixed collection is complete iff the collection is within the candidate ceiling |
| `Recovery.RunWithRecovery` | src/carve/cli/orchestrator/recovery.py:139-286 | The loop's outcome and its whole trace, for any replies of the operation and the agent |
| `RecoveryTheorems.RunsAreDisciplined` | src/carve/cli/orchestrator/recovery.py:157-286 | Every event of every run may stand where it does; with fixing off, the one execution decides |
| `RecoveryOutcome.RunEndsWhenItMust` | src/carve/cli/orchestrator/recovery.py:157-286 | With fixing on, a run goes on after an event exactly while nothing ends it, and its trace determines the outcome: kind, attempts, diagnosis and category |
| `RecoveryOutcome.ExhaustedIff` | src/carve/cli/orchestrator/recovery.py:201-286 | `Exhausted` iff the last event is an agent failure, a reply that repeats, declines or is no code fix (unless a refusing category), a fix for a diagnosis acted on before, a failure with the error of the one before, or a fixable failure with the budget used up; with the category reported in each case |
| `RecoveryOutcome.RepliesInOrder` | src/carve/cli/orchestrator/recovery.py:157-262 | Executions and questions alternate, and each reply is used once, in order |
| `RecoveryTheorems.RecoveredExactly` | src/carve/cli/orchestrator/recovery.py:161-162 | `Recovered(k)` iff the last execution succeeded, and then k agent calls and k + 1 executions, all others failed |
| `RecoveryTheorems.BudgetIsKept` | src/carve/cli/orchestrator/recovery.py:187-286 | Never more than `max_attempts` agent calls, none with a budget of zero or less or with `auto_fix` off |
| `RecoveryTheorems.ExhaustedCountsCalls` | src/carve/cli/orchestrator/recovery.py:282-286 | `Exhausted(k)` reports the agent calls made, except that a negative budget is itself what is reported |
| `RecoveryTheorems.ParentIsPrecedingFailure` | src/carve/cli/orchestrator/recovery.py:249-250 | Each re-execution's parent is the execution just before it, which failed with a fixable error |
| `RecoveryTheorems.AgentSeesOnlyFixableErrors` | src/carve/cli/orchestrator/recovery.py:170-176 | No agent call follows a do-not-fix error, nor a second identical error in a row |
| `RecoveryTheorems.NoDiagnosisTwice` | src/carve/cli/orchestrator/recovery.py:237-246 | No non-empty diagnosis is re-executed twice |
| `RecoveryTheorems.RefusesIff` | src/carve/cli/orchestrator/recovery.py:170-176 | With fixing on, the loop refuses iff the last event is a do-not-fix failure or an agent reply in a refusing category |
| `RecoveryTheorems.RaisingOperationEscapes` | src/carve/cli/orchestrator/recovery.py:157-160 | An operation that raises at once takes its exception out of the loop |
| `RecoveryTheorems.EscapesIff` | src/carve/cli/orchestrator/recovery.py:28-30 | The loop lets an exception through exactly when the last call raised one it does not catch |

## Left out

- ClaimProtocol.Step: a reclaim step may take any set of held rows, stale or not; this allows more runs than the reaper makes, so what is proved of all of them is proved of the reaper's.
- Worker.RunOnce: a write that fails is taken to have rolled back; a connection lost after a commit is not modelled.
- JobQueue.Queue.ClaimNext: which rows a label fits and which are locked is one set given to the call.
- StepSink.EveryAttemptHasOneTerminalRow: every sink write succeeds.
- ExecutePipeline.RunWave: the steps of a wave run one after another, which the results cannot tell apart from running together because all of them see the results recorded before the wave.
- Liveness.HeartbeatLoop: the read and the write of a beat are one atomic step, and the loop is cut off after any number of beats.
- Scheduler.RunDueOnce: a job is created at the instant of the pass; due rows are handled in any order; a stored expression that has no tick, which raises and ends the pass, is not modelled.
- SchedulerLoop.Run: schedules are not edited while the loop runs, a pass does not raise, and the loop is cut off after any number of passes.
- Archiver.ArchiveTableSafely: one archiver at a time; a window string that does not parse, rejected when the configuration is loaded, is not modelled.
- Pagination.OrderIsSorted: ids are integers under their order instead of strings under theirs.
- Recovery.RunWithRecovery: the failure classifier and the whitespace strip are arbitrary functions.
- The warning text of a `warn` failure is modelled as the step and its message, without the sentence around them.
- asyncio: cancellation, signals, shutdown, and the drain and grace logic of the worker pool.
- The polling loops of reaper, archiver and workers, apart from the instants of their passes.
- Postgres, SQLAlchemy and Alembic beyond atomic transactions, the two partial unique indexes and the foreign keys.
- croniter, time zones and daylight saving; the float rounding of seconds.
- Step executors, Jinja rendering, hooks, events and the text of error messages.
- The planner, builder and agents, and what a recovery diagnosis says.
- The REST surface apart from pagination, and the byte encoding of cursors.
- CLI commands, templates, workspaces and manual enqueueing: each fact about them follows from one branch.
