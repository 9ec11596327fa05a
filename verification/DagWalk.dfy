/**
 The slot-capped wave walk over a pipeline's DAG: what every wave keeps, how far the
 walk gets, and why its outcome does not depend on the slot cap.
 */
module DagWalk {
  import opened Graph
  import opened PipelineSchema
  import opened PipelineDag
  import opened TopologicalSort
  import opened FailureModes
  import opened StepRetry

  datatype Plan = Plan(g: Deps, byId: map<StepId, Step>, order: seq<StepId>)
  {
    ghost predicate WellFormed() {
      && IsTopologicalOrder(g, order)
      && byId.Keys == g.Keys
      && forall s :: s in byId ==> byId[s].id == s
    }

    function ModeOf(s: StepId): Mode
      requires s in byId
    {
      byId[s].failureMode.mode
    }
  }

  /** Everything a walk has recorded; `launched` is the set of steps that entered a wave. */
  datatype WalkState = WalkState(
    run: RunSnapshot, results: Results, outputs: map<StepId, Outputs>, launched: set<StepId>)

  const START := WalkState(FRESH, map[], map[], {})

  /** What a step returns when launched against the results recorded so far. */
  type Executor = (Step, Results) -> StepResult

  // ---- the walk as a function -------------------------------------------------

  /** The bookkeeping after `apply_failure_mode` turned the run state into `run`. */
  ghost function Recorded(p: Plan, w: WalkState, s: StepId, r: StepResult, run: RunSnapshot): WalkState {
    var results := w.results[s := r];
    var bypassed := map t | t in (run.skipped - w.run.skipped) - results.Keys :: BYPASSED;
    WalkState(
      run, results + bypassed,
      if r.status == Succeeded then w.outputs[s := r.outputs] else w.outputs,
      w.launched + {s})
  }

  ghost function FoldStep(p: Plan, w: WalkState, s: StepId, r: StepResult): (w': WalkState)
    requires p.WellFormed() && s in p.g
    ensures w.run.Resolved() + {s} <= w'.run.Resolved()
    ensures w'.launched == w.launched + {s}
  {
    FoldFollowsTable(p.g, w.run, p.byId[s], r);
    Recorded(p, w, s, r, Fold(p.g, w.run, p.byId[s], r))
  }

  /** Folds a finished wave, in order; every step of it ran against the results in `before`. */
  ghost function FoldWave(p: Plan, w: WalkState, wave: seq<StepId>, before: Results, exec: Executor): (w': WalkState)
    requires p.WellFormed() && Elems(wave) <= p.g.Keys
    ensures w.run.Resolved() + Elems(wave) <= w'.run.Resolved()
    ensures w'.launched == w.launched + Elems(wave)
    decreases |wave|
  {
    if wave == [] then w
    else
      assert wave == [wave[0]] + wave[1..] && wave[0] in Elems(wave);
      ElemsConcat([wave[0]], wave[1..]);
      var r := exec(p.byId[wave[0]], before);
      FoldWave(p, FoldStep(p, w, wave[0], r), wave[1..], before, exec)
  }

  /** Python's `ready[:slots]`. */
  function Slice(ready: seq<StepId>, slots: int): seq<StepId> {
    if slots >= |ready| then ready
    else if slots >= 0 then ready[..slots]
    else if -slots >= |ready| then []
    else ready[..|ready| + slots]
  }

  ghost function Ready(p: Plan, w: WalkState): (ready: seq<StepId>)
    requires p.WellFormed()
    ensures Elems(ready) == Frontier(p.g, w.run.Resolved()) && NoDuplicates(ready)
  {
    ReadyInMembers(p.g, p.order, w.run.Resolved());
    ReadyIn(p.g, p.order, w.run.Resolved())
  }

  ghost function NextWave(p: Plan, w: WalkState, slots: int): (wave: seq<StepId>)
    requires p.WellFormed()
    ensures Elems(wave) <= Frontier(p.g, w.run.Resolved()) && NoDuplicates(wave)
    ensures slots >= 1 && Ready(p, w) != [] ==> wave != []
    ensures slots >= 0 ==> |wave| <= slots
  {
    Slice(Ready(p, w), slots)
  }

  ghost function Iterate(p: Plan, w: WalkState, slots: int, exec: Executor): WalkState
    requires p.WellFormed()
  {
    FoldWave(p, w, NextWave(p, w, slots), w.results, exec)
  }

  ghost predicate Finished(p: Plan, w: WalkState)
    requires p.WellFormed()
  {
    w.run.halted || Ready(p, w) == []
  }

  lemma IterateResolvesMore(p: Plan, w: WalkState, slots: int, exec: Executor)
    requires p.WellFormed() && slots >= 1 && !Finished(p, w)
    ensures p.g.Keys - Iterate(p, w, slots, exec).run.Resolved() < p.g.Keys - w.run.Resolved()
  {
    var wave := NextWave(p, w, slots);
    assert wave[0] in Elems(wave);
    assert wave[0] in p.g.Keys - w.run.Resolved();
  }

  ghost function Walk(p: Plan, w: WalkState, slots: int, exec: Executor): WalkState
    requires p.WellFormed() && slots >= 1
    decreases p.g.Keys - w.run.Resolved()
  {
    if Finished(p, w) then w
    else
      IterateResolvesMore(p, w, slots, exec);
      Walk(p, Iterate(p, w, slots, exec), slots, exec)
  }

  /** The waves the walk launches, in order. */
  ghost function Waves(p: Plan, w: WalkState, slots: int, exec: Executor): seq<seq<StepId>>
    requires p.WellFormed() && slots >= 1
    decreases p.g.Keys - w.run.Resolved()
  {
    if Finished(p, w) then []
    else
      IterateResolvesMore(p, w, slots, exec);
      [NextWave(p, w, slots)] + Waves(p, Iterate(p, w, slots, exec), slots, exec)
  }

  // ---- the invariant -----------------------------------------------------------

  /** `a` failed under `skip_downstream`. */
  ghost predicate Cuts(p: Plan, w: WalkState, a: StepId) {
    a in w.run.failed && a in p.byId && p.ModeOf(a) == SkipDownstream
  }

  /** Some step `s` depends on failed under `skip_downstream`. */
  ghost predicate CutOff(p: Plan, w: WalkState, s: StepId) {
    exists a :: DependsOn(p.g, s, a) && Cuts(p, w, a)
  }

  ghost predicate HasFatalFailure(p: Plan, failed: set<StepId>) {
    exists s :: s in failed && s in p.byId && Fatal(p.ModeOf(s))
  }

  /** The three sets are read off the recorded results: a launched step sits in the set its status names. */
  ghost predicate ClassifiedAt(w: WalkState, s: StepId) {
    && (s in w.run.completed <==> s in w.launched && s in w.results && w.results[s].status == Succeeded)
    && (s in w.run.failed <==> s in w.launched && s in w.results && w.results[s].status == Failed)
    && (s in w.run.skipped <==> s in w.results && (s in w.launched ==> w.results[s].status == Skipped))
  }

  ghost predicate Classified(p: Plan, w: WalkState) {
    && w.results.Keys == w.run.Resolved() <= p.g.Keys
    && w.launched <= w.results.Keys
    && (forall s :: ClassifiedAt(w, s))
    && w.outputs == (map s | s in w.run.completed && s in w.results :: w.results[s].outputs)
    && (w.run.halted <==> HasFatalFailure(p, w.run.failed))
    && (forall s :: s in w.run.tolerated <==> s in w.run.failed && s in p.byId && !Fatal(p.ModeOf(s)))
  }

  /** Launched steps are closed under "depends on", and never lie below a cut. */
  ghost predicate LaunchedClosed(p: Plan, w: WalkState) {
    forall s, a :: s in w.launched && DependsOn(p.g, s, a) ==> a in w.launched && !Cuts(p, w, a)
  }

  /** A step that was not launched is resolved exactly when it lies below a cut. */
  ghost predicate BypassedExactly(p: Plan, w: WalkState) {
    forall s :: s in p.g && s !in w.launched ==>
      && (s in w.results <==> CutOff(p, w, s))
      && (s in w.results ==> w.results[s] == BYPASSED)
  }

  ghost predicate Inv(p: Plan, w: WalkState) {
    Classified(p, w) && LaunchedClosed(p, w) && BypassedExactly(p, w)
  }

  /** Disjointness of the three sets, and of "launched" from "bypassed", falls out of the invariant. */
  lemma SetsAreDisjoint(p: Plan, w: WalkState)
    requires p.WellFormed() && Inv(p, w)
    ensures w.run.completed !! w.run.failed && w.run.completed !! w.run.skipped && w.run.failed !! w.run.skipped
    ensures w.launched !! (set s | s in p.g && CutOff(p, w, s))
  {
    forall s
      ensures s in w.run.completed ==> s !in w.run.failed && s !in w.run.skipped
      ensures s in w.run.failed ==> s !in w.run.skipped
    {
      assert ClassifiedAt(w, s);
    }
  }

  /** May be launched: unresolved, with everything it depends on launched and no cut above it. */
  ghost predicate Launchable(p: Plan, w: WalkState, s: StepId) {
    && s in p.g && s !in w.results && s !in w.launched
    && forall a :: DependsOn(p.g, s, a) ==> a in w.launched && !Cuts(p, w, a)
  }

  lemma ReadyIsLaunchable(p: Plan, w: WalkState, s: StepId)
    requires p.WellFormed() && Inv(p, w) && s in Frontier(p.g, w.run.Resolved())
    ensures Launchable(p, w, s)
  {
    forall a | DependsOn(p.g, s, a) ensures a in w.launched && !Cuts(p, w, a) {
      var d := FirstEdge(p.g, s, a);
      DirectDependency(p.g, s, d);
      assert d in w.results;
      if d !in w.launched {
        var c :| DependsOn(p.g, d, c) && Cuts(p, w, c);
        DependsThrough(p.g, s, d, c);
      }
    }
  }

  /** What one fold records: the step's own result, and `BYPASSED` for whatever it newly cuts off. */
  ghost predicate Records(p: Plan, w: WalkState, s: StepId, r: StepResult, w': WalkState)
    requires s in p.byId
  {
    && w'.results.Keys == w.results.Keys + {s} + CutBy(p.g, p.byId[s], r)
    && (forall t :: t in w'.results ==>
          w'.results[t] == if t == s then r else if t in w.results then w.results[t] else BYPASSED)
    && w'.launched == w.launched + {s}
    && w'.run.completed == w.run.completed + (if r.status == Succeeded then {s} else {})
    && w'.run.failed == w.run.failed + (if r.status == Failed then {s} else {})
    && w'.run.skipped == w.run.skipped + (if r.status == Skipped then {s} else CutBy(p.g, p.byId[s], r))
  }

  lemma FoldRecords(p: Plan, w: WalkState, s: StepId, r: StepResult)
    requires p.WellFormed() && Inv(p, w) && Launchable(p, w, s)
    ensures Records(p, w, s, r, FoldStep(p, w, s, r))
  {
    FoldFollowsTable(p.g, w.run, p.byId[s], r);
    assert ClassifiedAt(w, s);
    RecordsTheTable(p, w, s, r, Fold(p.g, w.run, p.byId[s], r));
  }

  lemma RecordsTheTable(p: Plan, w: WalkState, s: StepId, r: StepResult, run: RunSnapshot)
    requires s in p.byId && p.byId[s].id == s && s !in w.results && s !in w.run.skipped
    requires w.run.skipped <= w.results.Keys && Folded(p.g, w.run, p.byId[s], r, run)
    ensures Records(p, w, s, r, Recorded(p, w, s, r, run))
  {
    NewlySkipped(p, w, s, r, run);
    var newly := run.skipped - w.run.skipped;
    assert Recorded(p, w, s, r, run).results.Keys == w.results.Keys + {s} + (newly - (w.results.Keys + {s}));
  }

  lemma NewlySkipped(p: Plan, w: WalkState, s: StepId, r: StepResult, run: RunSnapshot)
    requires s in p.byId && p.byId[s].id == s && s !in w.results && s !in w.run.skipped
    requires w.run.skipped <= w.results.Keys && Folded(p.g, w.run, p.byId[s], r, run)
    ensures var newly := run.skipped - w.run.skipped;
      w.results.Keys + {s} + (newly - (w.results.Keys + {s})) == w.results.Keys + {s} + CutBy(p.g, p.byId[s], r)
  {
    assert run.skipped - w.run.skipped == if r.status == Skipped then {s} else CutBy(p.g, p.byId[s], r) - w.run.skipped;
  }

  /** Nothing below an unlaunched step was launched, so a cut never reaches a launched step. */
  lemma NoneLaunchedBelow(p: Plan, w: WalkState, s: StepId, r: StepResult)
    requires p.WellFormed() && LaunchedClosed(p, w) && Launchable(p, w, s)
    ensures CutBy(p.g, p.byId[s], r) !! w.launched && s !in CutBy(p.g, p.byId[s], r)
  {
    OrderedMeansAcyclic(p.g, p.order);
  }

  lemma RecordingKeepsSets(p: Plan, w: WalkState, s: StepId, r: StepResult, w': WalkState, t: StepId)
    requires p.WellFormed() && Inv(p, w) && Launchable(p, w, s) && Records(p, w, s, r, w')
    ensures ClassifiedAt(w', t)
  {
    NoneLaunchedBelow(p, w, s, r);
    assert ClassifiedAt(w, t) && ClassifiedAt(w, s);
  }

  lemma RecordingKeepsClassified(
      p: Plan, w: WalkState, s: StepId, r: StepResult, run: RunSnapshot, w': WalkState)
    requires p.WellFormed() && Inv(p, w) && Launchable(p, w, s)
    requires Folded(p.g, w.run, p.byId[s], r, run) && w' == Recorded(p, w, s, r, run)
    requires Records(p, w, s, r, w')
    ensures Classified(p, w')
  {
    forall t ensures ClassifiedAt(w', t) {
      RecordingKeepsSets(p, w, s, r, w', t);
    }
    FatalTracksHalted(p, w, s, r, run);
    KeysTrackResolved(p, w, s, r, w');
    assert ClassifiedAt(w, s);
    OutputsTrackCompleted(p, w, s, r, w');
  }

  lemma KeysTrackResolved(p: Plan, w: WalkState, s: StepId, r: StepResult, w': WalkState)
    requires s in p.byId && w.results.Keys == w.run.Resolved() <= p.g.Keys && s in p.g
    requires Records(p, w, s, r, w')
    ensures w'.results.Keys == w'.run.Resolved() <= p.g.Keys
  {
  }

  lemma FatalTracksHalted(p: Plan, w: WalkState, s: StepId, r: StepResult, run: RunSnapshot)
    requires p.WellFormed() && Classified(p, w) && s in p.byId && Folded(p.g, w.run, p.byId[s], r, run)
    ensures run.halted <==> HasFatalFailure(p, run.failed)
    ensures forall t :: t in run.tolerated <==> t in run.failed && t in p.byId && !Fatal(p.ModeOf(t))
  {
    assert forall t :: t in run.tolerated <==> t in Elems(run.tolerated);
    assert forall t :: t in w.run.tolerated <==> t in Elems(w.run.tolerated);
    assert r.status == Failed ==> s in run.failed;
    forall t | t in run.failed && t in p.byId && !Fatal(p.ModeOf(t)) ensures t in run.tolerated {
      assert t in w.run.failed || t == s;
    }
  }

  lemma OutputsTrackCompleted(p: Plan, w: WalkState, s: StepId, r: StepResult, w': WalkState)
    requires s in p.byId && s !in w.results && w.run.completed <= w.results.Keys && Records(p, w, s, r, w')
    requires w.outputs == map t | t in w.run.completed && t in w.results :: w.results[t].outputs
    requires w'.outputs == if r.status == Succeeded then w.outputs[s := r.outputs] else w.outputs
    ensures w'.outputs == map t | t in w'.run.completed && t in w'.results :: w'.results[t].outputs
  {
  }

  lemma FoldKeepsClassified(p: Plan, w: WalkState, s: StepId, r: StepResult)
    requires p.WellFormed() && Inv(p, w) && Launchable(p, w, s)
    ensures Classified(p, FoldStep(p, w, s, r))
  {
    FoldFollowsTable(p.g, w.run, p.byId[s], r);
    FoldRecords(p, w, s, r);
    RecordingKeepsClassified(p, w, s, r, Fold(p.g, w.run, p.byId[s], r), FoldStep(p, w, s, r));
  }

  lemma RecordingKeepsClosed(p: Plan, w: WalkState, s: StepId, r: StepResult, w': WalkState)
    requires p.WellFormed() && Inv(p, w) && Launchable(p, w, s) && Records(p, w, s, r, w')
    ensures LaunchedClosed(p, w')
  {
    forall t, a | t in w'.launched && DependsOn(p.g, t, a) ensures a in w'.launched && !Cuts(p, w', a) {
      assert a in w.launched && !Cuts(p, w, a);
    }
  }

  lemma RecordingKeepsBypassed(p: Plan, w: WalkState, s: StepId, r: StepResult, w': WalkState, t: StepId)
    requires p.WellFormed() && Inv(p, w) && Launchable(p, w, s) && Records(p, w, s, r, w')
    requires t in p.g && t !in w'.launched
    ensures t in w'.results <==> CutOff(p, w', t)
    ensures t in w'.results ==> w'.results[t] == BYPASSED
  {
    if t in w.results {
      var a :| DependsOn(p.g, t, a) && Cuts(p, w, a);
      assert Cuts(p, w', a);
    } else if t in CutBy(p.g, p.byId[s], r) {
      assert Cuts(p, w', s) && DependsOn(p.g, t, s);
    }
  }

  /** One `apply_failure_mode` at a time, the invariant survives. */
  lemma FoldKeepsInv(p: Plan, w: WalkState, s: StepId, r: StepResult)
    requires p.WellFormed() && Inv(p, w) && Launchable(p, w, s)
    ensures Inv(p, FoldStep(p, w, s, r))
  {
    var w' := FoldStep(p, w, s, r);
    FoldKeepsClassified(p, w, s, r);
    FoldRecords(p, w, s, r);
    RecordingKeepsClosed(p, w, s, r, w');
    forall t | t in p.g && t !in w'.launched
      ensures t in w'.results <==> CutOff(p, w', t)
      ensures t in w'.results ==> w'.results[t] == BYPASSED
    {
      RecordingKeepsBypassed(p, w, s, r, w', t);
    }
  }

  lemma UnrelatedToSibling(p: Plan, w: WalkState, s: StepId, t: StepId)
    requires Launchable(p, w, s) && Launchable(p, w, t)
    ensures !DependsOn(p.g, t, s)
  {
  }

  /** A sibling in the same wave stays launchable, even when the folded step cuts its dependents off. */
  lemma SiblingStaysLaunchable(
      p: Plan, w: WalkState, s: StepId, r: StepResult, w': WalkState, t: StepId)
    requires p.WellFormed() && Launchable(p, w, s) && Launchable(p, w, t) && s != t
    requires Records(p, w, s, r, w')
    ensures Launchable(p, w', t)
  {
    UnrelatedToSibling(p, w, s, t);
    assert t !in w'.results && t !in w'.launched;
    forall a | DependsOn(p.g, t, a) ensures a in w'.launched && !Cuts(p, w', a) {
      assert a in w.launched && !Cuts(p, w, a);
    }
  }

  ghost predicate AllLaunchable(p: Plan, w: WalkState, wave: seq<StepId>) {
    forall i :: 0 <= i < |wave| ==> Launchable(p, w, wave[i])
  }

  /** Folding the first result of a wave keeps the invariant and leaves the rest of the wave launchable. */
  lemma FoldFirst(p: Plan, w: WalkState, wave: seq<StepId>, before: Results, exec: Executor)
    requires p.WellFormed() && Inv(p, w) && Elems(wave) <= p.g.Keys && wave != []
    requires NoDuplicates(wave) && AllLaunchable(p, w, wave)
    ensures Launchable(p, w, wave[0]) && Elems(wave[1..]) <= p.g.Keys && NoDuplicates(wave[1..])
    ensures var w1 := FoldStep(p, w, wave[0], exec(p.byId[wave[0]], before));
      Inv(p, w1) && AllLaunchable(p, w1, wave[1..])
  {
    var s, rest := wave[0], wave[1..];
    var r := exec(p.byId[s], before);
    FoldKeepsInv(p, w, s, r);
    FoldRecords(p, w, s, r);
    forall i | 0 <= i < |rest| ensures Launchable(p, FoldStep(p, w, s, r), rest[i]) {
      assert Launchable(p, w, wave[i + 1]) && wave[i + 1] != s;
      SiblingStaysLaunchable(p, w, s, r, FoldStep(p, w, s, r), rest[i]);
    }
    assert wave == [s] + rest;
    ElemsConcat([s], rest);
  }

  lemma {:induction false} WaveKeepsInv(p: Plan, w: WalkState, wave: seq<StepId>, before: Results, exec: Executor)
    requires p.WellFormed() && Inv(p, w) && Elems(wave) <= p.g.Keys
    requires NoDuplicates(wave) && AllLaunchable(p, w, wave)
    ensures Inv(p, FoldWave(p, w, wave, before, exec))
    decreases |wave|
  {
    if wave != [] {
      FoldFirst(p, w, wave, before, exec);
      WaveKeepsInv(p, FoldStep(p, w, wave[0], exec(p.byId[wave[0]], before)), wave[1..], before, exec);
    }
  }

  lemma NextWaveLaunchable(p: Plan, w: WalkState, slots: int)
    requires p.WellFormed() && Inv(p, w)
    ensures AllLaunchable(p, w, NextWave(p, w, slots))
  {
    var wave := NextWave(p, w, slots);
    forall i | 0 <= i < |wave| ensures Launchable(p, w, wave[i]) {
      assert wave[i] in Elems(wave);
      ReadyIsLaunchable(p, w, wave[i]);
    }
  }

  lemma StartInv(p: Plan)
    requires p.WellFormed()
    ensures Inv(p, START)
  {
  }

  lemma IterateKeepsInv(p: Plan, w: WalkState, slots: int, exec: Executor)
    requires p.WellFormed() && Inv(p, w)
    ensures Inv(p, Iterate(p, w, slots, exec))
  {
    NextWaveLaunchable(p, w, slots);
    WaveKeepsInv(p, w, NextWave(p, w, slots), w.results, exec);
  }

  lemma {:induction false} WalkKeepsInv(p: Plan, w: WalkState, slots: int, exec: Executor)
    requires p.WellFormed() && slots >= 1 && Inv(p, w)
    ensures Inv(p, Walk(p, w, slots, exec)) && Finished(p, Walk(p, w, slots, exec))
    decreases p.g.Keys - w.run.Resolved()
  {
    if !Finished(p, w) {
      IterateResolvesMore(p, w, slots, exec);
      IterateKeepsInv(p, w, slots, exec);
      WalkKeepsInv(p, Iterate(p, w, slots, exec), slots, exec);
    }
  }
}
