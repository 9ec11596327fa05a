/**
 Whole-walk results: the walk resolves every step unless it halts, its status says exactly
 what happened, and it agrees with a sequential reference outcome whatever the slot cap.
 */
module WalkOutcome {
  import opened Graph
  import opened PipelineSchema
  import opened TopologicalSort
  import opened FailureModes
  import opened StepRetry
  import opened DagWalk

  // ---- progress and status ------------------------------------------------------

  lemma UnhaltedResolvesAll(p: Plan, w: WalkState)
    requires p.WellFormed() && Inv(p, w) && Finished(p, w) && !w.run.halted
    ensures w.results.Keys == w.run.Resolved() == p.g.Keys
  {
    assert Elems(Ready(p, w)) == Frontier(p.g, w.run.Resolved());
    NeverStuck(p.g, p.order, w.run.Resolved());
  }

  /** The status of a finished walk, read off the outcome alone. */
  lemma StatusIsExact(p: Plan, slots: int, exec: Executor)
    requires p.WellFormed() && slots >= 1
    ensures var w := Walk(p, START, slots, exec);
      && (DeriveRunStatus(w.run) == RunSucceeded <==> w.run.completed == p.g.Keys)
      && (DeriveRunStatus(w.run) == RunFailed <==> HasFatalFailure(p, w.run.failed))
      && (DeriveRunStatus(w.run) != RunFailed ==> w.run.Resolved() == p.g.Keys)
  {
    var w := Walk(p, START, slots, exec);
    StartInv(p);
    WalkKeepsInv(p, START, slots, exec);
    SetsAreDisjoint(p, w);
    if !w.run.halted {
      UnhaltedResolvesAll(p, w);
      ToleratedTracksFailed(p, w);
    }
    if w.run.completed == p.g.Keys {
      AllCompletedMeansNothingElse(p, w);
    }
  }

  lemma ToleratedTracksFailed(p: Plan, w: WalkState)
    requires p.WellFormed() && Inv(p, w) && !w.run.halted
    ensures w.run.tolerated == [] <==> w.run.failed == {}
  {
    if w.run.tolerated != [] {
      assert w.run.tolerated[0] in w.run.tolerated;
    }
    forall s | s in w.run.failed ensures s in w.run.tolerated {
      assert s in w.run.Resolved();
    }
  }

  lemma AllCompletedMeansNothingElse(p: Plan, w: WalkState)
    requires p.WellFormed() && Inv(p, w) && w.run.completed == p.g.Keys
    ensures DeriveRunStatus(w.run) == RunSucceeded
  {
    SetsAreDisjoint(p, w);
    assert w.run.failed <= w.run.Resolved() && w.run.skipped <= w.run.Resolved();
    assert w.run.failed == {} && w.run.skipped == {};
    ToleratedTracksFailed(p, w);
  }

  /** When no executor reports "skipped", the skipped steps are the dependents of the cuts. */
  lemma SkippedIsTheClosure(p: Plan, slots: int, exec: Executor)
    requires p.WellFormed() && slots >= 1
    requires forall s, m :: exec(s, m).status != Skipped
    ensures var w := Walk(p, START, slots, exec);
      w.run.skipped == set s | s in p.g && CutOff(p, w, s)
  {
    var w := Walk(p, START, slots, exec);
    StartInv(p);
    WalkKeepsInv(p, START, slots, exec);
    assert NoneReportedSkipped(START);
    WalkReportsNoSkips(p, START, slots, exec);
    forall s | s in p.g ensures s in w.run.skipped <==> CutOff(p, w, s) {
      assert ClassifiedAt(w, s);
      SetsAreDisjoint(p, w);
    }
  }

  ghost predicate NoneReportedSkipped(w: WalkState) {
    forall s :: s in w.launched && s in w.results ==> w.results[s].status != Skipped
  }

  lemma FoldReportsNoSkip(p: Plan, w: WalkState, s: StepId, r: StepResult)
    requires p.WellFormed() && Inv(p, w) && Launchable(p, w, s)
    requires NoneReportedSkipped(w) && r.status != Skipped
    ensures NoneReportedSkipped(FoldStep(p, w, s, r))
  {
    FoldRecords(p, w, s, r);
  }

  lemma {:induction false} WaveReportsNoSkips(
      p: Plan, w: WalkState, wave: seq<StepId>, before: Results, exec: Executor)
    requires p.WellFormed() && Inv(p, w) && Elems(wave) <= p.g.Keys && NoneReportedSkipped(w)
    requires NoDuplicates(wave) && AllLaunchable(p, w, wave)
    requires forall s, m :: exec(s, m).status != Skipped
    ensures NoneReportedSkipped(FoldWave(p, w, wave, before, exec))
    decreases |wave|
  {
    if wave != [] {
      FoldFirst(p, w, wave, before, exec);
      var r := exec(p.byId[wave[0]], before);
      FoldReportsNoSkip(p, w, wave[0], r);
      WaveReportsNoSkips(p, FoldStep(p, w, wave[0], r), wave[1..], before, exec);
    }
  }

  lemma {:induction false} WalkReportsNoSkips(p: Plan, w: WalkState, slots: int, exec: Executor)
    requires p.WellFormed() && slots >= 1 && Inv(p, w) && NoneReportedSkipped(w)
    requires forall s, m :: exec(s, m).status != Skipped
    ensures NoneReportedSkipped(Walk(p, w, slots, exec))
    decreases p.g.Keys - w.run.Resolved()
  {
    if !Finished(p, w) {
      IterateResolvesMore(p, w, slots, exec);
      NextWaveLaunchable(p, w, slots);
      IterateKeepsInv(p, w, slots, exec);
      WaveReportsNoSkips(p, w, NextWave(p, w, slots), w.results, exec);
      WalkReportsNoSkips(p, Iterate(p, w, slots, exec), slots, exec);
    }
  }

  // ---- every step enters at most one wave -----------------------------------------

  function Flatten(waves: seq<seq<StepId>>): seq<StepId> {
    if waves == [] then [] else waves[0] + Flatten(waves[1..])
  }

  /** `waves` launches what separates two states: each step once, in waves of at most `slots`. */
  ghost predicate Launches(waves: seq<seq<StepId>>, w: WalkState, w': WalkState, slots: int) {
    && NoDuplicates(Flatten(waves))
    && Elems(Flatten(waves)) !! w.run.Resolved()
    && w'.launched == w.launched + Elems(Flatten(waves))
    && forall k :: 0 <= k < |waves| ==> 1 <= |waves[k]| <= slots
  }

  lemma LaunchesOneMore(
      wave: seq<StepId>, waves: seq<seq<StepId>>, w: WalkState, w1: WalkState, w': WalkState, slots: int)
    requires NoDuplicates(wave) && 1 <= |wave| <= slots && Elems(wave) !! w.run.Resolved()
    requires w.run.Resolved() + Elems(wave) <= w1.run.Resolved() && w1.launched == w.launched + Elems(wave)
    requires Launches(waves, w1, w', slots)
    ensures Launches([wave] + waves, w, w', slots)
  {
    assert ([wave] + waves)[1..] == waves;
    ElemsConcat(wave, Flatten(waves));
    JoinsWithoutDuplicates(wave, Flatten(waves));
  }

  /** Each step enters at most one wave, and the steps of the waves are exactly the launched ones. */
  lemma {:induction false} WavesListLaunched(p: Plan, w: WalkState, slots: int, exec: Executor)
    requires p.WellFormed() && slots >= 1
    ensures Launches(Waves(p, w, slots, exec), w, Walk(p, w, slots, exec), slots)
    decreases p.g.Keys - w.run.Resolved()
  {
    if !Finished(p, w) {
      IterateResolvesMore(p, w, slots, exec);
      var next, wave := Iterate(p, w, slots, exec), NextWave(p, w, slots);
      WavesListLaunched(p, next, slots, exec);
      LaunchesOneMore(wave, Waves(p, next, slots, exec), w, next, Walk(p, next, slots, exec), slots);
    }
  }

  lemma JoinsWithoutDuplicates<T>(a: seq<T>, b: seq<T>)
    requires NoDuplicates(a) && NoDuplicates(b) && Elems(a) !! Elems(b)
    ensures NoDuplicates(a + b)
  {
    forall i, j | 0 <= i < j < |a + b| ensures (a + b)[i] != (a + b)[j] {
      if i < |a| && j >= |a| {
        assert a[i] in Elems(a) && b[j - |a|] in Elems(b);
      }
    }
  }

  /** With no slots a wave is empty and the loop repeats the same state for ever. */
  lemma ProgressNeedsSlots(p: Plan, w: WalkState, slots: int, exec: Executor)
    requires p.WellFormed() && Inv(p, w) && !Finished(p, w)
    ensures Iterate(p, w, slots, exec) == w <==> slots == 0 || (slots < 0 && |Ready(p, w)| <= -slots)
  {
    var wave := NextWave(p, w, slots);
    if wave != [] {
      NextWaveLaunchable(p, w, slots);
      assert wave[0] in Elems(wave) && Launchable(p, w, wave[0]);
      assert wave[0] in Iterate(p, w, slots, exec).launched;
    }
  }

  // ---- a step's result depends only on its ancestors ---------------------------------

  ghost function Upstream(g: Deps, m: Results, s: StepId): Results {
    map a | a in m && DependsOn(g, s, a) :: m[a]
  }

  /** Each step's result depends only on the step and its ancestors' results. */
  ghost predicate Local(p: Plan, exec: Executor) {
    forall s, m :: s in p.byId ==> exec(p.byId[s], m) == exec(p.byId[s], Upstream(p.g, m, s))
  }

  ghost predicate Faithful(p: Plan, exec: Executor, w: WalkState) {
    forall s :: s in w.launched ==> FaithfulAt(p, exec, w, s)
  }

  ghost predicate FaithfulAt(p: Plan, exec: Executor, w: WalkState, s: StepId) {
    s in w.results && s in p.byId && w.results[s] == exec(p.byId[s], Upstream(p.g, w.results, s))
  }

  lemma UpstreamStable(p: Plan, w: WalkState, s: StepId, r: StepResult, w': WalkState, t: StepId)
    requires p.WellFormed() && Inv(p, w) && Launchable(p, w, s) && Records(p, w, s, r, w')
    requires forall a :: DependsOn(p.g, t, a) ==> a in w.launched
    ensures Upstream(p.g, w'.results, t) == Upstream(p.g, w.results, t)
  {
    NoneLaunchedBelow(p, w, s, r);
    assert w.launched <= w.results.Keys;
  }

  lemma FoldKeepsFaithful(p: Plan, exec: Executor, w: WalkState, s: StepId, before: Results)
    requires p.WellFormed() && Inv(p, w) && Launchable(p, w, s) && Local(p, exec) && Faithful(p, exec, w)
    requires Upstream(p.g, before, s) == Upstream(p.g, w.results, s)
    ensures Faithful(p, exec, FoldStep(p, w, s, exec(p.byId[s], before)))
  {
    var r := exec(p.byId[s], before);
    var w' := FoldStep(p, w, s, r);
    FoldRecords(p, w, s, r);
    forall t | t in w'.launched ensures FaithfulAt(p, exec, w', t) {
      UpstreamStable(p, w, s, r, w', t);
      if t != s {
        assert FaithfulAt(p, exec, w, t);
      }
    }
  }

  ghost predicate SameUpstream(p: Plan, w: WalkState, wave: seq<StepId>, before: Results) {
    forall i :: 0 <= i < |wave| ==> Upstream(p.g, before, wave[i]) == Upstream(p.g, w.results, wave[i])
  }

  lemma {:induction false} WaveKeepsFaithful(
      p: Plan, exec: Executor, w: WalkState, wave: seq<StepId>, before: Results)
    requires p.WellFormed() && Inv(p, w) && Elems(wave) <= p.g.Keys && Local(p, exec) && Faithful(p, exec, w)
    requires NoDuplicates(wave) && AllLaunchable(p, w, wave) && SameUpstream(p, w, wave, before)
    ensures Faithful(p, exec, FoldWave(p, w, wave, before, exec))
    decreases |wave|
  {
    if wave != [] {
      var s, rest := wave[0], wave[1..];
      var r := exec(p.byId[s], before);
      var w1 := FoldStep(p, w, s, r);
      FoldFirst(p, w, wave, before, exec);
      FoldKeepsFaithful(p, exec, w, s, before);
      FoldRecords(p, w, s, r);
      forall i | 0 <= i < |rest| ensures Upstream(p.g, before, rest[i]) == Upstream(p.g, w1.results, rest[i]) {
        assert rest[i] == wave[i + 1] && Launchable(p, w, wave[i + 1]);
        UpstreamStable(p, w, s, r, w1, rest[i]);
      }
      WaveKeepsFaithful(p, exec, w1, rest, before);
    }
  }

  lemma {:induction false} WalkKeepsFaithful(p: Plan, exec: Executor, w: WalkState, slots: int)
    requires p.WellFormed() && slots >= 1 && Inv(p, w) && Local(p, exec) && Faithful(p, exec, w)
    ensures Faithful(p, exec, Walk(p, w, slots, exec))
    decreases p.g.Keys - w.run.Resolved()
  {
    if !Finished(p, w) {
      IterateResolvesMore(p, w, slots, exec);
      NextWaveLaunchable(p, w, slots);
      IterateKeepsInv(p, w, slots, exec);
      WaveKeepsFaithful(p, exec, w, NextWave(p, w, slots), w.results);
      WalkKeepsFaithful(p, exec, Iterate(p, w, slots, exec), slots);
    }
  }

  // ---- the schedule-free outcome --------------------------------------------------

  ghost function NextReference(p: Plan, exec: Executor, w: WalkState, s: StepId): WalkState
    requires p.WellFormed() && s in p.g
  {
    if s in w.results then w else FoldStep(p, w, s, exec(p.byId[s], w.results))
  }

  /** One step at a time in topological order, never halting: what the pipeline "does" with no scheduler. */
  ghost function Reference(p: Plan, exec: Executor, i: nat): WalkState
    requires p.WellFormed() && i <= |p.order|
  {
    if i == 0 then START
    else
      assert p.order[i - 1] in Elems(p.order);
      NextReference(p, exec, Reference(p, exec, i - 1), p.order[i - 1])
  }

  ghost function Outcome(p: Plan, exec: Executor): WalkState
    requires p.WellFormed()
  {
    Reference(p, exec, |p.order|)
  }

  lemma ResolvedAncestorsSuffice(p: Plan, w: WalkState, s: StepId)
    requires p.WellFormed() && Inv(p, w) && s in p.g && s !in w.results
    requires forall a :: DependsOn(p.g, s, a) ==> a in w.results
    ensures Launchable(p, w, s)
  {
    forall a | DependsOn(p.g, s, a) ensures a in w.launched && !Cuts(p, w, a) {
      if a !in w.launched {
        var c :| DependsOn(p.g, a, c) && Cuts(p, w, c);
        DependsTransitive(p.g, s, a, c);
      }
    }
  }

  ghost predicate ResolvedThrough(p: Plan, exec: Executor, w: WalkState, i: nat)
    requires i <= |p.order|
  {
    Inv(p, w) && Faithful(p, exec, w) && Elems(p.order[..i]) <= w.results.Keys
  }

  lemma ReferenceStart(p: Plan, exec: Executor)
    requires p.WellFormed()
    ensures ResolvedThrough(p, exec, START, 0)
  {
    StartInv(p);
    assert p.order[..0] == [];
  }

  lemma ReferenceStep(p: Plan, exec: Executor, w: WalkState, i: nat)
    requires p.WellFormed() && i < |p.order| && Local(p, exec) && p.order[i] in p.g
    requires ResolvedThrough(p, exec, w, i)
    ensures ResolvedThrough(p, exec, NextReference(p, exec, w, p.order[i]), i + 1)
  {
    var s := p.order[i];
    ElemsPrefix(p.order, i);
    if s !in w.results {
      forall a | DependsOn(p.g, s, a) ensures a in w.results {
        AncestorsBefore(p.g, p.order, i, a);
      }
      ResolvedAncestorsSuffice(p, w, s);
      var r := exec(p.byId[s], w.results);
      FoldKeepsInv(p, w, s, r);
      FoldKeepsFaithful(p, exec, w, s, w.results);
      FoldRecords(p, w, s, r);
    }
  }

  lemma {:induction false} ReferenceKeepsInv(p: Plan, exec: Executor, i: nat) returns (w: WalkState)
    requires p.WellFormed() && i <= |p.order| && Local(p, exec)
    ensures w == Reference(p, exec, i) && ResolvedThrough(p, exec, w, i)
  {
    if i == 0 {
      w := START;
      ReferenceStart(p, exec);
    } else {
      var before := ReferenceKeepsInv(p, exec, i - 1);
      w := OneReferenceStep(p, exec, i, before);
    }
  }

  lemma OneReferenceStep(p: Plan, exec: Executor, i: nat, before: WalkState) returns (w: WalkState)
    requires p.WellFormed() && 1 <= i <= |p.order| && Local(p, exec)
    requires before == Reference(p, exec, i - 1) && ResolvedThrough(p, exec, before, i - 1)
    ensures w == Reference(p, exec, i) && ResolvedThrough(p, exec, w, i)
  {
    assert p.order[i - 1] in Elems(p.order);
    ReferenceStep(p, exec, before, i - 1);
    w := NextReference(p, exec, before, p.order[i - 1]);
  }

  /** Two states that tell the truth agree on every step both have resolved. */
  lemma AgreeAt(p: Plan, exec: Executor, w1: WalkState, w2: WalkState, i: nat)
    requires p.WellFormed() && i < |p.order|
    requires Inv(p, w1) && Faithful(p, exec, w1) && Inv(p, w2) && Faithful(p, exec, w2)
    requires p.order[i] in w1.results && p.order[i] in w2.results
    ensures p.order[i] in w1.launched <==> p.order[i] in w2.launched
    ensures w1.results[p.order[i]] == w2.results[p.order[i]]
    decreases i, 1
  {
    var s := p.order[i];
    assert s in Elems(p.order);
    LaunchedInBoth(p, exec, w1, w2, i);
    LaunchedInBoth(p, exec, w2, w1, i);
    if s in w1.launched {
      forall a | DependsOn(p.g, s, a)
        ensures a in w1.results && a in w2.results && w1.results[a] == w2.results[a]
      {
        AncestorsBefore(p.g, p.order, i, a);
        var j :| 0 <= j < i && p.order[j] == a;
        AgreeAt(p, exec, w1, w2, j);
      }
      SameInputsSameResult(p, exec, w1, w2, s);
    }
  }

  lemma SameInputsSameResult(p: Plan, exec: Executor, w1: WalkState, w2: WalkState, s: StepId)
    requires FaithfulAt(p, exec, w1, s) && FaithfulAt(p, exec, w2, s)
    requires forall a :: DependsOn(p.g, s, a) ==> a in w1.results && a in w2.results && w1.results[a] == w2.results[a]
    ensures w1.results[s] == w2.results[s]
  {
    assert Upstream(p.g, w1.results, s) == Upstream(p.g, w2.results, s);
  }

  lemma LaunchedInBoth(p: Plan, exec: Executor, w1: WalkState, w2: WalkState, i: nat)
    requires p.WellFormed() && i < |p.order|
    requires Inv(p, w1) && Faithful(p, exec, w1) && Inv(p, w2) && Faithful(p, exec, w2)
    requires p.order[i] in w1.results && p.order[i] in w2.results
    ensures p.order[i] in w1.launched ==> p.order[i] in w2.launched
    decreases i, 0
  {
    var s := p.order[i];
    assert s in Elems(p.order);
    if s in w1.launched && s !in w2.launched {
      var a :| DependsOn(p.g, s, a) && Cuts(p, w2, a);
      AncestorsBefore(p.g, p.order, i, a);
      var j :| 0 <= j < i && p.order[j] == a;
      assert ClassifiedAt(w2, a) && ClassifiedAt(w1, a);
      AgreeAt(p, exec, w1, w2, j);
    }
  }

  ghost predicate AgreesOnResolved(w: WalkState, o: WalkState) {
    forall s :: s in w.results ==> AgreesAt(w, o, s)
  }

  ghost predicate AgreesAt(w: WalkState, o: WalkState, s: StepId) {
    && s in w.results && s in o.results && w.results[s] == o.results[s]
    && (s in w.launched <==> s in o.launched)
    && (s in w.run.completed <==> s in o.run.completed)
    && (s in w.run.failed <==> s in o.run.failed)
    && (s in w.run.skipped <==> s in o.run.skipped)
  }

  lemma TruthfulStatesAgree(p: Plan, exec: Executor, w: WalkState, o: WalkState)
    requires p.WellFormed() && Inv(p, w) && Faithful(p, exec, w) && Inv(p, o) && Faithful(p, exec, o)
    requires w.results.Keys <= o.results.Keys
    ensures AgreesOnResolved(w, o)
  {
    forall s | s in w.results ensures AgreesAt(w, o, s) {
      assert s in Elems(p.order);
      var i :| 0 <= i < |p.order| && p.order[i] == s;
      AgreeAt(p, exec, w, o, i);
      assert ClassifiedAt(w, s) && ClassifiedAt(o, s);
    }
  }

  lemma OutcomeIsTotal(p: Plan, exec: Executor)
    requires p.WellFormed() && Local(p, exec)
    ensures Inv(p, Outcome(p, exec)) && Faithful(p, exec, Outcome(p, exec))
    ensures Outcome(p, exec).results.Keys == p.g.Keys
  {
    var o := ReferenceKeepsInv(p, exec, |p.order|);
    assert p.order[..|p.order|] == p.order;
  }

  /**
   Main result: whatever the cap, the walk agrees with the schedule-free outcome on every step
   it resolves, derives the same status, and unless that status is "failed" has the whole outcome.
   */
  lemma WalkMatchesOutcome(p: Plan, exec: Executor, slots: int)
    requires p.WellFormed() && Local(p, exec) && slots >= 1
    ensures var w, o := Walk(p, START, slots, exec), Outcome(p, exec);
      && AgreesOnResolved(w, o)
      && DeriveRunStatus(w.run) == DeriveRunStatus(o.run)
      && (DeriveRunStatus(w.run) != RunFailed ==> SameOutcome(w, o))
  {
    var w, o := Walk(p, START, slots, exec), Outcome(p, exec);
    StartInv(p);
    WalkKeepsInv(p, START, slots, exec);
    WalkKeepsFaithful(p, exec, START, slots);
    OutcomeIsTotal(p, exec);
    TruthfulStatesAgree(p, exec, w, o);
    if w.run.halted {
      HaltIsShared(p, w, o);
    } else {
      UnhaltedResolvesAll(p, w);
      TotalAgreement(p, w, o);
    }
  }

  ghost predicate SameOutcome(w: WalkState, o: WalkState) {
    && w.run.completed == o.run.completed
    && w.run.failed == o.run.failed
    && w.run.skipped == o.run.skipped
    && w.outputs == o.outputs && w.results == o.results && w.launched == o.launched
  }

  lemma HaltIsShared(p: Plan, w: WalkState, o: WalkState)
    requires p.WellFormed() && Inv(p, w) && Inv(p, o) && AgreesOnResolved(w, o) && w.run.halted
    ensures o.run.halted
  {
    var s :| s in w.run.failed && s in p.byId && Fatal(p.ModeOf(s));
    assert ClassifiedAt(w, s);
    assert AgreesAt(w, o, s);
  }

  lemma TotalAgreement(p: Plan, w: WalkState, o: WalkState)
    requires p.WellFormed() && Inv(p, w) && Inv(p, o) && AgreesOnResolved(w, o) && !w.run.halted
    requires w.results.Keys == p.g.Keys == o.results.Keys
    ensures SameOutcome(w, o) && DeriveRunStatus(w.run) == DeriveRunStatus(o.run)
  {
    TotalSetsAgree(p, w, o);
    assert !o.run.halted;
    ToleratedTracksFailed(p, w);
    ToleratedTracksFailed(p, o);
  }

  lemma TotalSetsAgree(p: Plan, w: WalkState, o: WalkState)
    requires Classified(p, w) && Classified(p, o) && AgreesOnResolved(w, o)
    requires w.results.Keys == p.g.Keys == o.results.Keys
    ensures SameOutcome(w, o)
  {
    forall s
      ensures s in w.run.completed <==> s in o.run.completed
      ensures s in w.run.failed <==> s in o.run.failed
      ensures s in w.run.skipped <==> s in o.run.skipped
      ensures s in w.launched <==> s in o.launched
      ensures s in w.results ==> s in o.results && w.results[s] == o.results[s]
    {
      if s in w.results || s in o.results {
        assert AgreesAt(w, o, s);
      } else {
        assert s !in w.run.Resolved() && s !in o.run.Resolved();
      }
    }
    assert w.results == o.results;
  }

  /** Slot independence, with the reference outcome eliminated. */
  lemma SlotIndependence(p: Plan, exec: Executor, slots1: int, slots2: int)
    requires p.WellFormed() && Local(p, exec) && slots1 >= 1 && slots2 >= 1
    ensures var w1, w2 := Walk(p, START, slots1, exec), Walk(p, START, slots2, exec);
      && DeriveRunStatus(w1.run) == DeriveRunStatus(w2.run)
      && (DeriveRunStatus(w1.run) != RunFailed ==> SameOutcome(w1, w2))
  {
    WalkMatchesOutcome(p, exec, slots1);
    WalkMatchesOutcome(p, exec, slots2);
  }
}
