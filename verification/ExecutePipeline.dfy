/** The wave loop itself: state objects updated in place, proved equal to the walk. */
module ExecutePipeline {
  import opened Graph
  import opened PipelineSchema
  import opened PipelineDag
  import opened FailureModes
  import opened StepRetry
  import opened DagWalk
  import opened WalkOutcome
  import opened WalkReport

  datatype RunResult = RunResult(
    status: RunStatus, completed: set<StepId>, failed: set<StepId>, skipped: set<StepId>,
    outputs: map<StepId, Outputs>, warnings: seq<(StepId, string)>)

  ghost function PlanOf(dag: PipelineDAG): Plan {
    Plan(dag.deps, dag.stepsById, dag.topologicalOrder)
  }

  /** The executor a walk sees: launch with retries. */
  ghost function Launching(launch: Launcher): Executor {
    (step: Step, results: Results) => Execute(launch, step, results)
  }

  ghost function ResultOf(w: WalkState): RunResult {
    RunResult(DeriveRunStatus(w.run), w.run.completed, w.run.failed, w.run.skipped, w.outputs, w.run.warnings)
  }

  /** Runs every step of a wave against the results recorded before it. */
  method RunWave(dag: PipelineDAG, wave: seq<StepId>, launch: Launcher, stepResults: Results)
    returns (results: seq<StepResult>)
    requires dag.Valid() && Elems(wave) <= dag.deps.Keys
    ensures |results| == |wave|
    ensures forall i :: 0 <= i < |wave| ==>
      wave[i] in dag.stepsById && results[i] == Execute(launch, dag.stepsById[wave[i]], stepResults)
  {
    results := [];
    for i := 0 to |wave|
      invariant |results| == i
      invariant forall k :: 0 <= k < i ==>
        wave[k] in dag.stepsById && results[k] == Execute(launch, dag.stepsById[wave[k]], stepResults)
    {
      assert wave[i] in Elems(wave);
      var result, made, slept := RunStepWithRetry(launch, dag.stepsById[wave[i]], stepResults);
      results := results + [result];
    }
  }

  /** Folds one finished step into the state and the two dictionaries. */
  method RecordResult(
      dag: PipelineDAG, state: RunState, stepId: StepId, result: StepResult,
      resultsBefore: Results, outputsBefore: map<StepId, Outputs>, ghost w: WalkState)
    returns (stepResults: Results, outputs: map<StepId, Outputs>)
    requires dag.Valid() && PlanOf(dag).WellFormed() && stepId in dag.deps
    requires state.Snapshot() == w.run && resultsBefore == w.results && outputsBefore == w.outputs
    modifies state
    ensures var w' := FoldStep(PlanOf(dag), w, stepId, result);
      state.Snapshot() == w'.run && stepResults == w'.results && outputs == w'.outputs
  {
    var skippedBefore := state.skipped;
    state.ApplyFailureMode(dag.stepsById[stepId], result, dag);
    stepResults := resultsBefore[stepId := result];
    outputs := outputsBefore;
    if result.status == Succeeded {
      outputs := outputs[stepId := result.outputs];
    }
    var newlySkipped := state.skipped - skippedBefore;
    stepResults := stepResults + map t | t in newlySkipped - stepResults.Keys :: BYPASSED;
  }

  lemma TakeFirst<T>(q: seq<T>, i: nat)
    requires i < |q|
    ensures q[i..] != [] && q[i..][0] == q[i] && q[i..][1..] == q[i + 1..]
    ensures q[i] in Elems(q[i..]) && q[i] in Elems(q) && Elems(q[i + 1..]) <= Elems(q[i..])
  {
    assert q[i..] == [q[i]] + q[i + 1..];
  }

  method FoldResults(
      dag: PipelineDAG, state: RunState, wave: seq<StepId>, results: seq<StepResult>,
      resultsBefore: Results, outputsBefore: map<StepId, Outputs>, launch: Launcher, ghost w: WalkState)
    returns (stepResults: Results, outputs: map<StepId, Outputs>, ghost w': WalkState)
    requires dag.Valid() && PlanOf(dag).WellFormed()
    requires Elems(wave) <= dag.deps.Keys && |results| == |wave|
    requires forall i :: 0 <= i < |wave| ==>
      wave[i] in dag.stepsById && results[i] == Execute(launch, dag.stepsById[wave[i]], resultsBefore)
    requires state.Snapshot() == w.run && resultsBefore == w.results && outputsBefore == w.outputs
    modifies state
    ensures w' == FoldWave(PlanOf(dag), w, wave, resultsBefore, Launching(launch))
    ensures state.Snapshot() == w'.run && stepResults == w'.results && outputs == w'.outputs
  {
    stepResults, outputs, w' := resultsBefore, outputsBefore, w;
    for i := 0 to |wave|
      invariant state.Snapshot() == w'.run && stepResults == w'.results && outputs == w'.outputs
      invariant Elems(wave[i..]) <= dag.deps.Keys
      invariant FoldWave(PlanOf(dag), w', wave[i..], resultsBefore, Launching(launch))
             == FoldWave(PlanOf(dag), w, wave, resultsBefore, Launching(launch))
    {
      TakeFirst(wave, i);
      stepResults, outputs := RecordResult(dag, state, wave[i], results[i], stepResults, outputs, w');
      w' := FoldStep(PlanOf(dag), w', wave[i], results[i]);
    }
  }

  // ---- what a returned record says of its run ---------------------------------------------

  /** Each set holds the steps whose recorded result has its status, and the outputs are those of `completed`. */
  ghost predicate SortedByStatus(result: RunResult, told: Results) {
    && told.Keys == result.completed + result.failed + result.skipped
    && (forall s :: s in told ==>
          && (s in result.completed <==> told[s].status == Succeeded)
          && (s in result.failed <==> told[s].status == Failed)
          && (s in result.skipped <==> told[s].status == Skipped))
    && result.outputs == map s | s in told && told[s].status == Succeeded :: told[s].outputs
  }

  /** Some step that `s` depends on failed under `skip_downstream`. */
  ghost predicate Bypassed(dag: PipelineDAG, result: RunResult, s: StepId)
  {
    exists a :: DependsOn(dag.deps, s, a) && a in result.failed && a in dag.stepsById
      && dag.stepsById[a].failureMode.mode == SkipDownstream
  }

  /** A bypassed step is recorded as skipped; any other was run, with retries, on what its ancestors returned. */
  ghost predicate ToldBySteps(dag: PipelineDAG, launch: Launcher, result: RunResult, told: Results)
  {
    forall s :: s in told ==>
      if Bypassed(dag, result, s) then told[s] == StepResult(Skipped, map[], "")
      else Ran(PlanOf(dag), Launching(launch), told, s)
  }

  /** The status, read off the sets of the record itself. */
  ghost predicate StatusFits(dag: PipelineDAG, result: RunResult)
  {
    && (result.status == RunSucceeded <==> result.completed == dag.deps.Keys)
    && (result.status == RunFailed <==>
          exists s :: s in result.failed && s in dag.stepsById
            && (dag.stepsById[s].failureMode.mode == Fail || dag.stepsById[s].failureMode.mode == Retry))
    && result.completed !! result.failed !! result.skipped
    && result.completed + result.failed + result.skipped <= dag.deps.Keys
    && (result.status != RunFailed ==> result.completed + result.failed + result.skipped == dag.deps.Keys)
  }

  /** One warning for each failed `warn` step, with the error that step returned, and no other warning. */
  ghost predicate WarningsFit(dag: PipelineDAG, result: RunResult, told: Results)
  {
    && NoDuplicates(result.warnings)
    && forall s, text :: (s, text) in result.warnings <==>
         && s in result.failed && s in told && s in dag.stepsById && dag.stepsById[s].failureMode.mode == Warn
         && text == if told[s].error == "" then "(no error message)" else told[s].error
  }

  /** The warnings come wave by wave, and within a wave in its order. */
  ghost predicate WarnsInOrder(dag: PipelineDAG, launch: Launcher, slots: int, result: RunResult, told: Results)
    requires PlanOf(dag).WellFormed() && slots >= 1
  {
    var p := PlanOf(dag);
    Warned(result.warnings) == WarnedAmong(p, told, Flatten(Waves(p, START, slots, Launching(launch))))
  }

  lemma WalkIsToldTruly(dag: PipelineDAG, launch: Launcher, w: WalkState, slots: int, result: RunResult)
    requires dag.Valid() && PlanOf(dag).WellFormed() && slots >= 1
    requires w == Walk(PlanOf(dag), START, slots, Launching(launch)) && result == ResultOf(w)
    ensures SortedByStatus(result, w.results) && ToldBySteps(dag, launch, result, w.results)
    ensures StatusFits(dag, result) && WarningsFit(dag, result, w.results)
    ensures WarnsInOrder(dag, launch, slots, result, w.results)
  {
    StartInv(PlanOf(dag));
    WalkKeepsInv(PlanOf(dag), START, slots, Launching(launch));
    WalkIsReported(PlanOf(dag), Launching(launch), START, slots);
    ToldTruly(dag, launch, w, result);
    StatusIsFit(dag, launch, w, slots, result);
    WarningsAreInOrder(dag, launch, w, slots, result);
  }

  lemma StatusIsFit(dag: PipelineDAG, launch: Launcher, w: WalkState, slots: int, result: RunResult)
    requires PlanOf(dag).WellFormed() && slots >= 1 && Inv(PlanOf(dag), w)
    requires w == Walk(PlanOf(dag), START, slots, Launching(launch)) && result == ResultOf(w)
    ensures StatusFits(dag, result)
  {
    SetsAreDisjoint(PlanOf(dag), w);
    StatusIsExact(PlanOf(dag), slots, Launching(launch));
  }

  lemma WarningsAreInOrder(dag: PipelineDAG, launch: Launcher, w: WalkState, slots: int, result: RunResult)
    requires PlanOf(dag).WellFormed() && slots >= 1
    requires w == Walk(PlanOf(dag), START, slots, Launching(launch)) && result == ResultOf(w)
    ensures WarnsInOrder(dag, launch, slots, result, w.results)
  {
    StartInv(PlanOf(dag));
    WalkWarns(PlanOf(dag), START, slots, Launching(launch));
  }

  lemma ToldTruly(dag: PipelineDAG, launch: Launcher, w: WalkState, result: RunResult)
    requires PlanOf(dag).WellFormed() && Inv(PlanOf(dag), w) && Reported(PlanOf(dag), Launching(launch), w)
    requires result == ResultOf(w)
    ensures SortedByStatus(result, w.results) && ToldBySteps(dag, launch, result, w.results)
    ensures WarningsFit(dag, result, w.results)
  {
    var p := PlanOf(dag);
    forall s | s in w.results
      ensures (s in w.run.completed <==> w.results[s].status == Succeeded)
        && (s in w.run.failed <==> w.results[s].status == Failed)
        && (s in w.run.skipped <==> w.results[s].status == Skipped)
      ensures s in w.launched <==> !CutOff(p, w, s)
      ensures CutOff(p, w, s) <==> Bypassed(dag, result, s)
    {
      SetsAreDisjoint(p, w);
      assert ClassifiedAt(w, s);
      assert forall a :: Cuts(p, w, a) <==>
        a in result.failed && a in dag.stepsById && dag.stepsById[a].failureMode.mode == SkipDownstream;
    }
    forall s, text ensures (s, text) in w.run.warnings <==> Warns(p, w, s, text) {
    }
  }

  /**
   The loop. It needs at least one slot: with none it would never end (`ProgressNeedsSlots`). `told` is what
   the steps were recorded to return; the record is read off it.
   */
  method Run(dag: PipelineDAG, launch: Launcher, availableSlots: int) returns (result: RunResult, ghost told: Results)
    requires dag.Valid() && availableSlots >= 1
    ensures PlanOf(dag).WellFormed()
    ensures result == ResultOf(Walk(PlanOf(dag), START, availableSlots, Launching(launch)))
    ensures SortedByStatus(result, told) && ToldBySteps(dag, launch, result, told)
    ensures StatusFits(dag, result) && WarningsFit(dag, result, told)
    ensures WarnsInOrder(dag, launch, availableSlots, result, told)
  {
    ghost var p := PlanOf(dag);
    ghost var exec := Launching(launch);
    var state := new RunState();
    var outputs: map<StepId, Outputs> := map[];
    var stepResults: Results := map[];
    ghost var w := START;
    while !state.halted
      invariant fresh(state)
      invariant state.Snapshot() == w.run && stepResults == w.results && outputs == w.outputs
      invariant Walk(p, w, availableSlots, exec) == Walk(p, START, availableSlots, exec)
      decreases p.g.Keys - w.run.Resolved()
    {
      var ready := dag.ReadySteps(state.completed, state.failed, state.skipped);
      assert ready == Ready(p, w);
      if ready == [] {
        break;
      }
      IterateResolvesMore(p, w, availableSlots, exec);
      var wave := Slice(ready, availableSlots);
      assert wave == NextWave(p, w, availableSlots);
      var results := RunWave(dag, wave, launch, stepResults);
      stepResults, outputs, w := FoldResults(dag, state, wave, results, stepResults, outputs, launch, w);
    }
    var status := DeriveRunStatus(state.Snapshot());
    result := RunResult(status, state.completed, state.failed, state.skipped, outputs, state.warnings);
    WalkIsToldTruly(dag, launch, w, availableSlots, result);
    told := w.results;
  }

  /** A launch of a step looks only at its ancestors' results, on every attempt. */
  ghost predicate LaunchesLocally(p: Plan, launch: Launcher) {
    forall s, m, k :: s in p.byId ==> launch(p.byId[s], m, k) == launch(p.byId[s], Upstream(p.g, m, s), k)
  }

  lemma {:induction false} RetriesLocally(p: Plan, launch: Launcher, s: StepId, m: Results, k: nat)
    requires LaunchesLocally(p, launch) && s in p.byId && 1 <= k <= Attempts(p.byId[s].failureMode)
    ensures ResultFrom(launch, p.byId[s], m, k) == ResultFrom(launch, p.byId[s], Upstream(p.g, m, s), k)
    decreases Attempts(p.byId[s].failureMode) - k
  {
    if k < Attempts(p.byId[s].failureMode) {
      RetriesLocally(p, launch, s, m, k + 1);
    }
  }

  /** Main result for whole runs: two caps give one status, and one outcome unless the run failed. */
  lemma RunsDoNotDependOnSlots(dag: PipelineDAG, launch: Launcher, slots1: int, slots2: int)
    requires dag.Valid() && PlanOf(dag).WellFormed() && LaunchesLocally(PlanOf(dag), launch)
    requires slots1 >= 1 && slots2 >= 1
    ensures var r1 := ResultOf(Walk(PlanOf(dag), START, slots1, Launching(launch)));
            var r2 := ResultOf(Walk(PlanOf(dag), START, slots2, Launching(launch)));
      && r1.status == r2.status
      && (r1.status != RunFailed ==>
            r1.completed == r2.completed && r1.failed == r2.failed && r1.skipped == r2.skipped
            && r1.outputs == r2.outputs)
  {
    var p, exec := PlanOf(dag), Launching(launch);
    forall s, m | s in p.byId ensures exec(p.byId[s], m) == exec(p.byId[s], Upstream(p.g, m, s)) {
      RetriesLocally(p, launch, s, m, 1);
    }
    SlotIndependence(p, exec, slots1, slots2);
  }
}
