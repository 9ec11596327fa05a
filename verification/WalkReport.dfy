/**
 What a walk's final state says of the steps themselves: each recorded result was returned by the step's
 executor, run on what its ancestors returned, and the warnings are those of the failed `warn` steps.
 */
module WalkReport {
  import opened Graph
  import opened PipelineSchema
  import opened PipelineDag
  import opened TopologicalSort
  import opened FailureModes
  import opened StepRetry
  import opened DagWalk
  import opened WalkOutcome

  /** The results in `m` are still there, unchanged, in `m'`. */
  ghost predicate Extends(m: Results, m': Results) {
    forall s :: s in m ==> s in m' && m'[s] == m[s]
  }

  /** A step's recorded result is its executor's, run on earlier results that include all its ancestors'. */
  ghost predicate RanOn(p: Plan, exec: Executor, told: Results, s: StepId, before: Results) {
    && s in p.byId && s in told && told[s] == exec(p.byId[s], before)
    && Extends(before, told) && s !in before
    && forall a :: DependsOn(p.g, s, a) ==> a in before
  }

  ghost predicate Ran(p: Plan, exec: Executor, told: Results, s: StepId) {
    exists before :: RanOn(p, exec, told, s, before)
  }

  /** A failed `warn` step, and the text recorded for it. */
  ghost predicate Warns(p: Plan, w: WalkState, s: StepId, text: string) {
    && s in w.run.failed && s in p.byId && p.ModeOf(s) == Warn && s in w.results
    && text == if w.results[s].error == "" then "(no error message)" else w.results[s].error
  }

  ghost predicate WarnsExactly(p: Plan, w: WalkState) {
    && NoDuplicates(w.run.warnings)
    && forall s, text :: (s, text) in w.run.warnings <==> Warns(p, w, s, text)
  }

  ghost predicate Reported(p: Plan, exec: Executor, w: WalkState) {
    WarnsExactly(p, w) && forall s :: s in w.launched ==> Ran(p, exec, w.results, s)
  }

  // ---- one fold ---------------------------------------------------------------------------

  /** A fold changes no earlier result. */
  lemma FoldExtends(p: Plan, w: WalkState, s: StepId, r: StepResult)
    requires p.WellFormed() && Inv(p, w) && Launchable(p, w, s)
    ensures var w' := FoldStep(p, w, s, r); Extends(w.results, w'.results) && s in w'.results && w'.results[s] == r
  {
    FoldRecords(p, w, s, r);
  }

  lemma FoldWarnings(p: Plan, w: WalkState, s: StepId, r: StepResult)
    requires p.WellFormed() && Inv(p, w) && Launchable(p, w, s) && WarnsExactly(p, w)
    ensures WarnsExactly(p, FoldStep(p, w, s, r))
  {
    FoldRecords(p, w, s, r);
    FoldFollowsTable(p.g, w.run, p.byId[s], r);
    assert w.run.failed <= w.run.Resolved();
    RecordingWarns(p, w, s, r, FoldStep(p, w, s, r));
  }

  lemma RecordingWarns(p: Plan, w: WalkState, s: StepId, r: StepResult, w': WalkState)
    requires WarnsExactly(p, w) && w.run.failed <= w.results.Keys && s !in w.results
    requires s in p.byId && p.byId[s].id == s
    requires Extends(w.results, w'.results) && s in w'.results && w'.results[s] == r
    requires w'.run.failed == w.run.failed + (if r.status == Failed then {s} else {})
    requires w'.run.warnings == w.run.warnings + WarningFor(p.byId[s], r)
    ensures WarnsExactly(p, w')
  {
    var added := WarningFor(p.byId[s], r);
    forall t, text ensures (t, text) in w'.run.warnings <==> Warns(p, w', t, text) {
      assert (t, text) in w.run.warnings <==> Warns(p, w, t, text);
      assert (t, text) in added <==> t == s && Warns(p, w', t, text);
    }
    if added != [] {
      assert added[0] == (s, added[0].1);
      assert (s, added[0].1) !in w.run.warnings;
    }
  }

  /** What the steps of a wave run on: earlier results, with everything each step depends on. */
  ghost predicate RunsOn(p: Plan, w: WalkState, wave: seq<StepId>, before: Results) {
    && Extends(before, w.results)
    && forall i :: 0 <= i < |wave| ==> wave[i] !in before && forall a :: DependsOn(p.g, wave[i], a) ==> a in before
  }

  lemma FoldIsReported(p: Plan, exec: Executor, w: WalkState, s: StepId, before: Results)
    requires p.WellFormed() && Inv(p, w) && Launchable(p, w, s) && Reported(p, exec, w) && RunsOn(p, w, [s], before)
    ensures Reported(p, exec, FoldStep(p, w, s, exec(p.byId[s], before)))
  {
    var w' := FoldStep(p, w, s, exec(p.byId[s], before));
    FoldWarnings(p, w, s, exec(p.byId[s], before));
    FoldExtends(p, w, s, exec(p.byId[s], before));
    forall t | t in w'.launched ensures Ran(p, exec, w'.results, t) {
      if t == s {
        assert [s][0] == s;
        assert RanOn(p, exec, w'.results, s, before);
      } else {
        var b :| RanOn(p, exec, w.results, t, b);
        assert RanOn(p, exec, w'.results, t, b);
      }
    }
  }

  // ---- a wave, a walk -----------------------------------------------------------------------

  lemma {:induction false} WaveIsReported(
      p: Plan, exec: Executor, w: WalkState, wave: seq<StepId>, before: Results)
    requires p.WellFormed() && Inv(p, w) && Elems(wave) <= p.g.Keys && Reported(p, exec, w)
    requires NoDuplicates(wave) && AllLaunchable(p, w, wave) && RunsOn(p, w, wave, before)
    ensures Reported(p, exec, FoldWave(p, w, wave, before, exec))
    decreases |wave|
  {
    if wave != [] {
      var r := exec(p.byId[wave[0]], before);
      FoldFirst(p, w, wave, before, exec);
      FoldExtends(p, w, wave[0], r);
      FoldIsReported(p, exec, w, wave[0], before);
      WaveIsReported(p, exec, FoldStep(p, w, wave[0], r), wave[1..], before);
    }
  }

  lemma IterateIsReported(p: Plan, exec: Executor, w: WalkState, slots: int)
    requires p.WellFormed() && Inv(p, w) && Reported(p, exec, w)
    ensures Reported(p, exec, Iterate(p, w, slots, exec))
  {
    var wave := NextWave(p, w, slots);
    NextWaveLaunchable(p, w, slots);
    forall i | 0 <= i < |wave|
      ensures wave[i] !in w.results && forall a :: DependsOn(p.g, wave[i], a) ==> a in w.results
    {
      assert Launchable(p, w, wave[i]);
    }
    WaveIsReported(p, exec, w, wave, w.results);
  }

  lemma {:induction false} WalkIsReported(p: Plan, exec: Executor, w: WalkState, slots: int)
    requires p.WellFormed() && slots >= 1 && Inv(p, w) && Reported(p, exec, w)
    ensures Reported(p, exec, Walk(p, w, slots, exec))
    decreases p.g.Keys - w.run.Resolved()
  {
    if !Finished(p, w) {
      IterateResolvesMore(p, w, slots, exec);
      IterateKeepsInv(p, w, slots, exec);
      IterateIsReported(p, exec, w, slots);
      WalkIsReported(p, exec, Iterate(p, w, slots, exec), slots);
    }
  }

  // ---- what stays -----------------------------------------------------------------------------

  lemma {:induction false} WaveExtends(p: Plan, w: WalkState, wave: seq<StepId>, before: Results, exec: Executor)
    requires p.WellFormed() && Inv(p, w) && Elems(wave) <= p.g.Keys
    requires NoDuplicates(wave) && AllLaunchable(p, w, wave)
    ensures Extends(w.results, FoldWave(p, w, wave, before, exec).results)
    decreases |wave|
  {
    if wave != [] {
      var r := exec(p.byId[wave[0]], before);
      FoldFirst(p, w, wave, before, exec);
      FoldExtends(p, w, wave[0], r);
      WaveExtends(p, FoldStep(p, w, wave[0], r), wave[1..], before, exec);
    }
  }

  /** What a walk has launched and recorded it keeps. */
  lemma {:induction false} WalkExtends(p: Plan, w: WalkState, slots: int, exec: Executor)
    requires p.WellFormed() && slots >= 1 && Inv(p, w)
    ensures var w' := Walk(p, w, slots, exec); Extends(w.results, w'.results) && w.launched <= w'.launched
    decreases p.g.Keys - w.run.Resolved()
  {
    if !Finished(p, w) {
      IterateResolvesMore(p, w, slots, exec);
      IterateKeepsInv(p, w, slots, exec);
      NextWaveLaunchable(p, w, slots);
      WaveExtends(p, w, NextWave(p, w, slots), w.results, exec);
      WalkExtends(p, Iterate(p, w, slots, exec), slots, exec);
    }
  }

  // ---- the order of the warnings ---------------------------------------------------------------

  function Warned(warnings: seq<(StepId, string)>): (ids: seq<StepId>)
    ensures |ids| == |warnings| && forall i :: 0 <= i < |ids| ==> ids[i] == warnings[i].0
  {
    seq(|warnings|, i requires 0 <= i < |warnings| => warnings[i].0)
  }

  /** The `warn` steps of `q` that failed, in its order. */
  function WarnedAmong(p: Plan, told: Results, q: seq<StepId>): seq<StepId> {
    if q == [] then []
    else
      var s := q[0];
      (if s in told && told[s].status == Failed && s in p.byId && p.ModeOf(s) == Warn then [s] else [])
        + WarnedAmong(p, told, q[1..])
  }

  lemma {:induction false} WarnedAmongBoth(p: Plan, told: Results, a: seq<StepId>, b: seq<StepId>)
    ensures WarnedAmong(p, told, a + b) == WarnedAmong(p, told, a) + WarnedAmong(p, told, b)
  {
    if a == [] {
      assert a + b == b;
    } else {
      assert (a + b)[0] == a[0] && (a + b)[1..] == a[1..] + b;
      WarnedAmongBoth(p, told, a[1..], b);
    }
  }

  lemma {:induction false} WarnedAmongExtends(p: Plan, told: Results, more: Results, q: seq<StepId>)
    requires Extends(told, more) && Elems(q) <= told.Keys
    ensures WarnedAmong(p, more, q) == WarnedAmong(p, told, q)
  {
    if q != [] {
      assert q[0] in Elems(q) && q == [q[0]] + q[1..];
      ElemsConcat([q[0]], q[1..]);
      WarnedAmongExtends(p, told, more, q[1..]);
    }
  }

  lemma FoldWarns(p: Plan, w: WalkState, s: StepId, r: StepResult)
    requires p.WellFormed() && s in p.g
    ensures Warned(FoldStep(p, w, s, r).run.warnings)
      == Warned(w.run.warnings) + if r.status == Failed && p.ModeOf(s) == Warn then [s] else []
  {
    FoldFollowsTable(p.g, w.run, p.byId[s], r);
  }

  lemma {:induction false} WaveWarns(p: Plan, w: WalkState, wave: seq<StepId>, before: Results, exec: Executor)
    requires p.WellFormed() && Inv(p, w) && Elems(wave) <= p.g.Keys
    requires NoDuplicates(wave) && AllLaunchable(p, w, wave)
    ensures var w' := FoldWave(p, w, wave, before, exec);
      Warned(w'.run.warnings) == Warned(w.run.warnings) + WarnedAmong(p, w'.results, wave)
    decreases |wave|
  {
    if wave != [] {
      var r := exec(p.byId[wave[0]], before);
      var w1 := FoldStep(p, w, wave[0], r);
      FoldFirst(p, w, wave, before, exec);
      FoldExtends(p, w, wave[0], r);
      FoldWarns(p, w, wave[0], r);
      WaveExtends(p, w1, wave[1..], before, exec);
      WaveWarns(p, w1, wave[1..], before, exec);
      FirstWarns(p, Warned(w.run.warnings), FoldWave(p, w, wave, before, exec).results, wave, r);
    }
  }

  lemma FirstWarns(p: Plan, start: seq<StepId>, told: Results, wave: seq<StepId>, r: StepResult)
    requires wave != [] && wave[0] in told && wave[0] in p.byId && told[wave[0]] == r
    ensures start + WarnedAmong(p, told, wave)
      == start + (if r.status == Failed && p.ModeOf(wave[0]) == Warn then [wave[0]] else [])
        + WarnedAmong(p, told, wave[1..])
  {
  }

  lemma {:induction false} WalkWarns(p: Plan, w: WalkState, slots: int, exec: Executor)
    requires p.WellFormed() && slots >= 1 && Inv(p, w)
    ensures var w' := Walk(p, w, slots, exec);
      Warned(w'.run.warnings)
        == Warned(w.run.warnings) + WarnedAmong(p, w'.results, Flatten(Waves(p, w, slots, exec)))
    decreases p.g.Keys - w.run.Resolved()
  {
    if !Finished(p, w) {
      var w1, wave := Iterate(p, w, slots, exec), NextWave(p, w, slots);
      IterateResolvesMore(p, w, slots, exec);
      IterateKeepsInv(p, w, slots, exec);
      NextWaveLaunchable(p, w, slots);
      WaveWarns(p, w, wave, w.results, exec);
      WalkWarns(p, w1, slots, exec);
      WalkExtends(p, w1, slots, exec);
      WavesWarn(
        p, Warned(w.run.warnings), w1.results, Walk(p, w1, slots, exec).results, wave, Waves(p, w1, slots, exec));
    }
  }

  lemma WavesWarn(
      p: Plan, start: seq<StepId>, told1: Results, told: Results, wave: seq<StepId>, waves: seq<seq<StepId>>)
    requires Extends(told1, told) && Elems(wave) <= told1.Keys
    ensures start + WarnedAmong(p, told, Flatten([wave] + waves))
      == start + WarnedAmong(p, told1, wave) + WarnedAmong(p, told, Flatten(waves))
  {
    WarnedAmongExtends(p, told1, told, wave);
    WarnedAmongBoth(p, told, wave, Flatten(waves));
    assert ([wave] + waves)[1..] == waves;
  }

  // ---- where the walk stops ---------------------------------------------------------------------

  /** `s` failed under `fail` or `retry`. */
  ghost predicate FailedFatally(p: Plan, w: WalkState, s: StepId) {
    s in w.run.failed && s in p.byId && (p.ModeOf(s) == Fail || p.ModeOf(s) == Retry)
  }

  /** A fatal failure that has been launched has halted the walk. */
  lemma LaunchedFailureHalts(p: Plan, w: WalkState, slots: int, exec: Executor, s: StepId)
    requires p.WellFormed() && slots >= 1 && Inv(p, w) && s in w.launched
    requires FailedFatally(p, Walk(p, w, slots, exec), s)
    ensures w.run.halted && Waves(p, w, slots, exec) == []
  {
    WalkKeepsInv(p, w, slots, exec);
    WalkExtends(p, w, slots, exec);
    assert ClassifiedAt(w, s) && ClassifiedAt(Walk(p, w, slots, exec), s);
  }

  lemma FirstWaveLaunches(p: Plan, w: WalkState, slots: int, exec: Executor)
    requires p.WellFormed() && slots >= 1 && Waves(p, w, slots, exec) != []
    ensures !Finished(p, w)
    ensures var w1, waves := Iterate(p, w, slots, exec), Waves(p, w, slots, exec);
      && waves[1..] == Waves(p, w1, slots, exec) && Walk(p, w1, slots, exec) == Walk(p, w, slots, exec)
      && forall s :: s in waves[0] ==> s in w1.launched
  {
    IterateResolvesMore(p, w, slots, exec);
    assert forall s :: s in NextWave(p, w, slots) ==> s in Elems(NextWave(p, w, slots));
  }

  lemma FatalInFirstWave(p: Plan, w: WalkState, slots: int, exec: Executor, s: StepId)
    requires p.WellFormed() && slots >= 1 && Inv(p, w) && Waves(p, w, slots, exec) != []
    requires s in Waves(p, w, slots, exec)[0] && FailedFatally(p, Walk(p, w, slots, exec), s)
    ensures |Waves(p, w, slots, exec)| == 1
  {
    FirstWaveLaunches(p, w, slots, exec);
    IterateKeepsInv(p, w, slots, exec);
    LaunchedFailureHalts(p, Iterate(p, w, slots, exec), slots, exec, s);
  }

  ghost predicate StandsBefore(
      p: Plan, w0: WalkState, slots: int, exec: Executor, k: nat, w: WalkState)
    requires p.WellFormed() && slots >= 1
  {
    && Inv(p, w) && Walk(p, w, slots, exec) == Walk(p, w0, slots, exec)
    && k <= |Waves(p, w0, slots, exec)| && Waves(p, w, slots, exec) == Waves(p, w0, slots, exec)[k..]
  }

  /** The state in which the walk launches its `k`-th wave. */
  lemma StateBefore(p: Plan, w: WalkState, slots: int, exec: Executor, k: nat) returns (wk: WalkState)
    requires p.WellFormed() && slots >= 1 && Inv(p, w) && k < |Waves(p, w, slots, exec)|
    ensures StandsBefore(p, w, slots, exec, k, wk)
  {
    wk := w;
    for i := 0 to k
      invariant StandsBefore(p, w, slots, exec, i, wk)
    {
      FirstWaveLaunches(p, wk, slots, exec);
      IterateKeepsInv(p, wk, slots, exec);
      wk := Iterate(p, wk, slots, exec);
    }
  }

  /** No wave follows the one in which a step failed fatally. */
  lemma FatalFailureEndsTheWalk(p: Plan, slots: int, exec: Executor, k: nat, s: StepId)
    requires p.WellFormed() && slots >= 1 && k < |Waves(p, START, slots, exec)|
    requires s in Waves(p, START, slots, exec)[k] && FailedFatally(p, Walk(p, START, slots, exec), s)
    ensures k == |Waves(p, START, slots, exec)| - 1
  {
    StartInv(p);
    var wk := StateBefore(p, START, slots, exec, k);
    FatalInFirstWave(p, wk, slots, exec, s);
  }

  /**
   The `k`-th wave takes the first ready steps in topological order, all of them if there are slots: a ready
   step that it leaves out comes after every step of a full wave.
   */
  lemma WaveTakesTheFirst(p: Plan, slots: int, exec: Executor, k: nat) returns (wk: WalkState)
    requires p.WellFormed() && slots >= 1 && k < |Waves(p, START, slots, exec)|
    ensures StandsBefore(p, START, slots, exec, k, wk)
    ensures var wave := Waves(p, START, slots, exec)[k];
      && Elems(wave) <= Frontier(p.g, wk.run.Resolved())
      && forall s :: s in Frontier(p.g, wk.run.Resolved()) && s !in wave ==>
           |wave| == slots && ComesAfter(p.order, wave, s)
  {
    StartInv(p);
    wk := StateBefore(p, START, slots, exec, k);
    FirstWaveLaunches(p, wk, slots, exec);
    WaveIsFirst(p, wk, slots);
  }

  lemma WaveIsFirst(p: Plan, w: WalkState, slots: int)
    requires p.WellFormed() && slots >= 1
    ensures var wave := NextWave(p, w, slots);
      && Elems(wave) <= Frontier(p.g, w.run.Resolved())
      && forall s :: s in Frontier(p.g, w.run.Resolved()) && s !in wave ==>
           |wave| == slots && ComesAfter(p.order, wave, s)
  {
    ReadyInOrder(p.g, p.order, w.run.Resolved());
    var ready, wave := Ready(p, w), NextWave(p, w, slots);
    forall s | s in Frontier(p.g, w.run.Resolved()) && s !in wave
      ensures |wave| == slots && ComesAfter(p.order, wave, s)
    {
      assert s in Elems(ready);
      var j :| 0 <= j < |ready| && ready[j] == s;
      RestComesAfter(p.order, ready, slots, j);
    }
  }

  lemma RestComesAfter(order: seq<StepId>, ready: seq<StepId>, n: nat, j: nat)
    requires InOrderOf(order, ready) && j < |ready| && ready[j] !in Slice(ready, n)
    ensures |Slice(ready, n)| == n && ComesAfter(order, Slice(ready, n), ready[j])
  {
    var wave := Slice(ready, n);
    assert forall k :: 0 <= k < |wave| ==> wave[k] == ready[k] && wave[k] in wave;
  }

  /** `s` stands after all of `wave` in `order`. */
  ghost predicate ComesAfter(order: seq<StepId>, wave: seq<StepId>, s: StepId) {
    forall i, a, b :: 0 <= i < |wave| && 0 <= a < |order| && 0 <= b < |order| ==>
      order[a] == wave[i] && order[b] == s ==> a < b
  }
}
