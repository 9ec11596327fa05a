/** What a whole run leaves in the `step_runs` table: the sink's calls are those of the steps the walk launched. */
module RunRecords {
  import opened Graph
  import opened PipelineSchema
  import opened PipelineDag
  import opened FailureModes
  import opened StepRetry
  import opened DagWalk
  import opened WalkReport
  import opened ExecutePipeline
  import opened StepSink

  /** The number of the attempt a step stops after. */
  function MadeFrom(launch: Launcher, step: Step, results: Results, attempt: nat): (made: nat)
    requires 1 <= attempt <= Attempts(step.failureMode)
    ensures attempt <= made <= Attempts(step.failureMode)
    ensures forall k :: attempt <= k < made ==> launch(step, results, k).status != Succeeded
    ensures launch(step, results, made).status == Succeeded || made == Attempts(step.failureMode)
    ensures launch(step, results, made) == ResultFrom(launch, step, results, attempt)
    decreases Attempts(step.failureMode) - attempt
  {
    if launch(step, results, attempt).status == Succeeded || attempt == Attempts(step.failureMode) then attempt
    else MadeFrom(launch, step, results, attempt + 1)
  }

  /** A step as its wave launches it: against the results recorded before the wave. */
  function LaunchOf(launch: Launcher, step: Step, results: Results): Launched {
    Launched(step, results, MadeFrom(launch, step, results, 1))
  }

  ghost function WaveLaunches(p: Plan, wave: seq<StepId>, before: Results, launch: Launcher): map<StepId, Launched>
    requires p.WellFormed()
  {
    map s | s in Elems(wave) && s in p.byId :: LaunchOf(launch, p.byId[s], before)
  }

  /** Everything a walk launches from `w` on. */
  ghost function LaunchedIn(p: Plan, w: WalkState, slots: int, launch: Launcher): map<StepId, Launched>
    requires p.WellFormed() && slots >= 1
    decreases p.g.Keys - w.run.Resolved()
  {
    if DagWalk.Finished(p, w) then map[]
    else
      IterateResolvesMore(p, w, slots, Launching(launch));
      LaunchedIn(p, Iterate(p, w, slots, Launching(launch)), slots, launch)
        + WaveLaunches(p, NextWave(p, w, slots), w.results, launch)
  }

  /** A wave records for each of its steps what its executor returned. */
  lemma {:induction false} WaveRecords(p: Plan, w: WalkState, wave: seq<StepId>, before: Results, exec: Executor)
    requires p.WellFormed() && Inv(p, w) && Elems(wave) <= p.g.Keys
    requires NoDuplicates(wave) && AllLaunchable(p, w, wave)
    ensures RecordsWave(p, FoldWave(p, w, wave, before, exec), wave, before, exec)
    decreases |wave|
  {
    if wave != [] {
      var r := exec(p.byId[wave[0]], before);
      FoldFirst(p, w, wave, before, exec);
      FoldExtends(p, w, wave[0], r);
      WaveRecords(p, FoldStep(p, w, wave[0], r), wave[1..], before, exec);
      WaveExtends(p, FoldStep(p, w, wave[0], r), wave[1..], before, exec);
      FirstIsRecordedToo(p, FoldStep(p, w, wave[0], r), FoldWave(p, w, wave, before, exec), wave, before, exec);
    }
  }

  ghost predicate RecordsWave(p: Plan, w: WalkState, wave: seq<StepId>, before: Results, exec: Executor) {
    forall s :: s in Elems(wave) && s in p.byId ==> s in w.results && w.results[s] == exec(p.byId[s], before)
  }

  lemma FirstIsRecordedToo(
      p: Plan, w1: WalkState, w': WalkState, wave: seq<StepId>, before: Results, exec: Executor)
    requires wave != [] && wave[0] in p.byId
    requires Extends(w1.results, w'.results) && RecordsWave(p, w', wave[1..], before, exec)
    requires wave[0] in w1.results && w1.results[wave[0]] == exec(p.byId[wave[0]], before)
    ensures RecordsWave(p, w', wave, before, exec)
  {
    assert wave == [wave[0]] + wave[1..];
    ElemsConcat([wave[0]], wave[1..]);
  }

  /** `run` tells how each step launched between two states ran, and the later state has its last result. */
  ghost predicate Accounts(run: map<StepId, Launched>, launch: Launcher, w: WalkState, w': WalkState) {
    && Extends(w.results, w'.results)
    && w'.launched == w.launched + run.Keys
    && forall s :: s in run ==> AccountsFor(run[s], s, launch, w')
  }

  ghost predicate AccountsFor(l: Launched, s: StepId, launch: Launcher, w': WalkState) {
    && l.step.id == s && StoppedAfter(launch, l.step, l.results, l.made)
    && s in w'.results && w'.results[s] == launch(l.step, l.results, l.made)
  }

  lemma WaveAccounts(p: Plan, w: WalkState, slots: int, launch: Launcher)
    requires p.WellFormed() && Inv(p, w)
    ensures Accounts(
      WaveLaunches(p, NextWave(p, w, slots), w.results, launch), launch, w, Iterate(p, w, slots, Launching(launch)))
  {
    var wave := NextWave(p, w, slots);
    NextWaveLaunchable(p, w, slots);
    WaveRecords(p, w, wave, w.results, Launching(launch));
    WaveExtends(p, w, wave, w.results, Launching(launch));
    RecordedWaveAccounts(p, w, Iterate(p, w, slots, Launching(launch)), wave, launch);
  }

  lemma RecordedWaveAccounts(p: Plan, w: WalkState, w': WalkState, wave: seq<StepId>, launch: Launcher)
    requires p.WellFormed() && Elems(wave) <= p.g.Keys && Extends(w.results, w'.results)
    requires RecordsWave(p, w', wave, w.results, Launching(launch)) && w'.launched == w.launched + Elems(wave)
    ensures Accounts(WaveLaunches(p, wave, w.results, launch), launch, w, w')
  {
    var run := WaveLaunches(p, wave, w.results, launch);
    assert run.Keys == Elems(wave);
    forall s | s in run ensures AccountsFor(run[s], s, launch, w') {
      assert w'.results[s] == Launching(launch)(p.byId[s], w.results);
    }
  }

  lemma AccountsCompose(
      first: map<StepId, Launched>, rest: map<StepId, Launched>, launch: Launcher, w: WalkState, w1: WalkState,
      w2: WalkState)
    requires Accounts(first, launch, w, w1) && Accounts(rest, launch, w1, w2)
    ensures Accounts(rest + first, launch, w, w2)
  {
    forall s | s in rest + first ensures AccountsFor((rest + first)[s], s, launch, w2) {
      if s in first {
        assert AccountsFor(first[s], s, launch, w1);
      } else {
        assert AccountsFor(rest[s], s, launch, w2);
      }
    }
  }

  lemma {:induction false} WalkAccounts(p: Plan, w: WalkState, slots: int, launch: Launcher)
    requires p.WellFormed() && slots >= 1 && Inv(p, w)
    ensures Accounts(LaunchedIn(p, w, slots, launch), launch, w, Walk(p, w, slots, Launching(launch)))
    decreases p.g.Keys - w.run.Resolved()
  {
    if !DagWalk.Finished(p, w) {
      var exec := Launching(launch);
      var w1 := Iterate(p, w, slots, exec);
      IterateResolvesMore(p, w, slots, exec);
      IterateKeepsInv(p, w, slots, exec);
      WaveAccounts(p, w, slots, launch);
      WalkAccounts(p, w1, slots, launch);
      AccountsCompose(
        WaveLaunches(p, NextWave(p, w, slots), w.results, launch), LaunchedIn(p, w1, slots, launch), launch, w, w1,
        Walk(p, w1, slots, exec));
    }
  }

  /** The key of the attempt that decided a step. */
  function LastKey(run: map<StepId, Launched>, s: StepId): Key
    requires s in run
  {
    (s, run[s].made)
  }

  /**
   The table after a run: nothing is left open, every row is terminal and belongs to an attempt of a
   launched step, and the row of a launched step's last attempt, if its variables rendered, carries the
   result the run recorded for the step.
   */
  ghost predicate RecordsRun(trace: seq<Event>, run: map<StepId, Launched>, rendered: Rendering, w: WalkState) {
    && run.Keys == w.launched
    && Replay(trace).open == map[] && Replay(trace).inHand == map[]
    && (forall i :: 0 <= i < |Replay(trace).rows| ==>
          Attempted(run, rendered, Replay(trace).rows[i].key) && Replay(trace).rows[i].status.Terminal?)
    && (forall s :: s in run && Attempted(run, rendered, LastKey(run, s)) ==>
          s in w.results && HasRow(trace, LastKey(run, s), w.results[s]))
  }

  ghost predicate HasRow(trace: seq<Event>, key: Key, result: StepResult) {
    exists id :: OneRow(Replay(trace), key, id, Terminal(result))
  }

  lemma AccountedRunIsRecorded(
      run: map<StepId, Launched>, launch: Launcher, rendered: Rendering, trace: seq<Event>, w: WalkState)
    requires Accounts(run, launch, START, w) && Interleaves(trace, run, launch, rendered)
    ensures RecordsRun(trace, run, rendered, w)
  {
    forall s | s in run ensures run[s].step.id == s && StoppedAfter(launch, run[s].step, run[s].results, run[s].made) {
      assert AccountsFor(run[s], s, launch, w);
    }
    EveryAttemptHasOneTerminalRow(trace, run, launch, rendered);
    forall s | s in run && Attempted(run, rendered, LastKey(run, s))
      ensures s in w.results && HasRow(trace, LastKey(run, s), w.results[s])
    {
      assert AccountsFor(run[s], s, launch, w);
      var key := LastKey(run, s);
      assert exists id :: OneRow(
        Replay(trace), key, id, Terminal(launch(run[key.0].step, run[key.0].results, key.1)));
    }
  }

  /** Every run leaves exactly its records, however the sink calls of its steps interleaved. */
  lemma RunLeavesItsRecords(p: Plan, slots: int, launch: Launcher, rendered: Rendering, trace: seq<Event>)
    requires p.WellFormed() && slots >= 1
    requires Interleaves(trace, LaunchedIn(p, START, slots, launch), launch, rendered)
    ensures RecordsRun(
      trace, LaunchedIn(p, START, slots, launch), rendered, Walk(p, START, slots, Launching(launch)))
  {
    StartInv(p);
    WalkAccounts(p, START, slots, launch);
    AccountedRunIsRecorded(
      LaunchedIn(p, START, slots, launch), launch, rendered, trace, Walk(p, START, slots, Launching(launch)));
  }
}
