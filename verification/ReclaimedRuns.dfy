/** What the reaper does to runs: which run a reclaim hands it, and what its write overwrites or fails for good. */
module ReclaimedRuns {
  import opened Wrappers
  import opened JobQueue
  import opened ClaimProtocol
  import opened ClaimInvariant
  import opened ClaimRuns

  /** The latest event about the row is the claim under which it is held. */
  ghost function EpochOf(s: State, j: JobId): (e: nat)
    requires Reachable(s) && j in s.jobs && s.jobs[j].Active()
    ensures CurrentClaim(s, j, e) && e in s.executions && s.executions[e].job == j
  {
    ReachableRunInv(s);
    assert JobOk(s, j);
    var e := LastOn(s.log, j).value.epoch;
    assert HeldOk(s, j, e);
    e
  }

  /** The execution of the claim a held row is held under, whether its worker is alive, crashed or gone. */
  ghost function ExecutionOf(s: State, j: JobId): Execution
    requires Reachable(s) && j in s.jobs && s.jobs[j].Active()
  {
    s.executions[EpochOf(s, j)]
  }

  // ---- held rows --------------------------------------------------------------------------

  /** A held row names the run of the execution it is held under exactly when it is running. */
  lemma RowNamesItsRunIff(s: State, j: JobId)
    requires Reachable(s) && j in s.jobs && s.jobs[j].Active()
    ensures s.jobs[j].status == Running <==>
      ExecutionOf(s, j).run.Some? && s.jobs[j].runId == ExecutionOf(s, j).run
  {
    ReachableRunInv(s);
    assert HeldOk(s, j, EpochOf(s, j));
  }

  /** While it is only claimed, whatever it names was created under another claim of the same job. */
  lemma ClaimedRowNamesAnotherRun(s: State, j: JobId)
    requires Reachable(s) && j in s.jobs && s.jobs[j].status == Claimed && s.jobs[j].runId.Some?
    ensures exists e :: e != EpochOf(s, j) && Created(s, e, j, s.jobs[j].runId.value)
  {
    ReachableRunInv(s);
    RowNamesItsRunIff(s, j);
    assert NamesOwn(s, j);
  }

  /** The run of a held row's execution is open exactly until that execution has written an end for it. */
  lemma HeldRunIsTerminalIff(s: State, j: JobId)
    requires Reachable(s) && j in s.jobs && s.jobs[j].Active() && ExecutionOf(s, j).run.Some?
    ensures var x := ExecutionOf(s, j);
      && x.run.value in s.runs && x.run.value !in s.orphans
      && (TerminalRun(s.runs[x.run.value]) <==> x.ended.Some?)
      && (x.ended.Some? ==> s.runs[x.run.value] == x.ended.value)
  {
    ReachableRunInv(s);
    assert HeldOk(s, j, EpochOf(s, j));
  }

  /** A worker inside `run_once` has written its run's end exactly when it is about to finish the job. */
  lemma WorkerHasEndedItsRunIff(s: State, w: WorkerId)
    requires Reachable(s) && w in s.workers && s.workers[w].pc.Engaged()
    ensures var me := s.workers[w];
      && me.epoch in s.executions
      && s.executions[me.epoch].job == me.job && s.executions[me.epoch].run == me.pc.Run()
      && (s.executions[me.epoch].ended.Some? <==> Recorded(me.pc))
  {
    ReachableRunInv(s);
    assert WorkerOk(s, w);
  }

  // ---- what a reclaim hands the reaper ---------------------------------------------------------

  /** The runs the reclaimed rows name. */
  function Handed(s: State, ids: set<JobId>): set<RunId> {
    set j | j in ids && j in s.jobs && s.jobs[j].runId.Some? :: s.jobs[j].runId.value
  }

  /** A reclaim that lands hands over the run of a held row's execution exactly when it takes that row running. */
  lemma ReclaimHandsOwnRunIff(s: State, ids: set<JobId>, j: JobId)
    requires Reachable(s) && j in s.jobs && s.jobs[j].Active() && ExecutionOf(s, j).run.Some?
    requires ReclaimLands(s, ids)
    ensures Step(s, Reclaim(ids)).orphans == s.orphans + Handed(s, ids)
    ensures ExecutionOf(s, j).run.value in Step(s, Reclaim(ids)).orphans <==> j in ids && s.jobs[j].status == Running
  {
    var r := ExecutionOf(s, j).run.value;
    ReachableRunInv(s);
    RowNamesItsRunIff(s, j);
    HeldRunIsTerminalIff(s, j);
    NamedOnlyBy(s, j, EpochOf(s, j), r);
    assert j in ids && s.jobs[j].runId == Some(r) ==> r in Handed(s, ids);
  }

  predicate Ended(s: State, r: RunId) {
    r in s.runs && (s.runs[r] == RunSuccess || s.runs[r] == RunCancelled)
  }

  /** Taken while running, after its execution recorded success and before it finished the job. */
  ghost predicate TakenTooLate(s: State, j: JobId)
    requires Reachable(s)
  {
    j in s.jobs && s.jobs[j].status == Running && ExecutionOf(s, j).ended == Some(RunSuccess)
  }

  /** Taken before its claimer bound a run, still naming one that succeeded under another claim. */
  ghost predicate TakenWithLeftOver(s: State, j: JobId)
    requires Reachable(s)
  {
    && j in s.jobs && s.jobs[j].status == Claimed
    && exists e :: e != EpochOf(s, j) && LeftOver(s, j, e)
  }

  ghost predicate LeftOver(s: State, j: JobId, e: nat)
    requires j in s.jobs
  {
    s.jobs[j].runId.Some? && Created(s, e, j, s.jobs[j].runId.value) && Ended(s, s.jobs[j].runId.value)
  }

  /** A reclaim hands the reaper a run already recorded as succeeded or cancelled in exactly these two cases. */
  lemma ReclaimHandsEndedRunIff(s: State, ids: set<JobId>)
    requires Reachable(s) && ReclaimLands(s, ids)
    ensures (exists r :: r in Handed(s, ids) && Ended(s, r)) <==>
      exists j :: j in ids && (TakenTooLate(s, j) || TakenWithLeftOver(s, j))
  {
    forall j | j in ids && j in s.jobs
      ensures s.jobs[j].runId.Some? && Ended(s, s.jobs[j].runId.value) <==>
        TakenTooLate(s, j) || TakenWithLeftOver(s, j)
    {
      RowNamesAnEndedRunIff(s, j);
    }
    if exists j :: j in ids && (TakenTooLate(s, j) || TakenWithLeftOver(s, j)) {
      var j :| j in ids && (TakenTooLate(s, j) || TakenWithLeftOver(s, j));
      assert s.jobs[j].runId.value in Handed(s, ids);
    }
  }

  lemma RowNamesAnEndedRunIff(s: State, j: JobId)
    requires Reachable(s) && j in s.jobs && s.jobs[j].Active()
    ensures s.jobs[j].runId.Some? && Ended(s, s.jobs[j].runId.value) <==> TakenTooLate(s, j) || TakenWithLeftOver(s, j)
  {
    RowNamesItsRunIff(s, j);
    if s.jobs[j].status == Running {
      HeldRunIsTerminalIff(s, j);
      NeverCancelled(s, j);
    } else if s.jobs[j].runId.Some? {
      ClaimedRowNamesAnotherRun(s, j);
      var e :| e != EpochOf(s, j) && Created(s, e, j, s.jobs[j].runId.value);
      assert LeftOver(s, j, e) <==> Ended(s, s.jobs[j].runId.value);
    }
  }

  /** No row names a cancelled run, and no orphan is one. */
  lemma NeverCancelled(s: State, j: JobId)
    requires Reachable(s)
    ensures j in s.jobs && s.jobs[j].runId.Some? && s.jobs[j].runId.value in s.runs ==>
      s.runs[s.jobs[j].runId.value] != RunCancelled
    ensures forall r :: r in s.orphans && r in s.runs ==> s.runs[r] != RunCancelled
  {
    ReachableRunInv(s);
    forall r | r in s.runs && s.runs[r] == RunCancelled ensures Unnamed(s, r) {
      assert CancelledUnnamed(s, r);
    }
  }

  /** The reaper's write overwrites a finished run exactly when it was handed one that has succeeded by then. */
  lemma ReaperOverwritesIff(s: State, run: RunId)
    requires Reachable(s) && run in s.runs && TerminalRun(s.runs[run])
    ensures run in Step(s, FailOrphan(run)).runs
    ensures Step(s, FailOrphan(run)).runs[run] != s.runs[run] <==> run in s.orphans && s.runs[run] == RunSuccess
  {
    NeverCancelled(s, 0);
  }

  // ---- how a reclaimed run ends -------------------------------------------------------------

  /** A failed run stops being failed exactly when its own worker, still inside `run_once`, writes it again. */
  lemma FailedRunIsRewrittenIff(s: State, a: Action, run: RunId)
    requires Reachable(s) && run in s.runs && s.runs[run] == RunFailed
    ensures run in Step(s, a).runs
    ensures Step(s, a).runs[run] != RunFailed <==> ByWorker(a) && a.w in s.workers && RewritesFailed(s, a, run)
  {
    ReachableRunInv(s);
    RunsStay(s, a);
    if ByWorker(a) && a.w in s.workers {
      if a.RecordRun? || a.FailRun? {
        EndRewritesIff(s, a, run);
      } else if LocalStep(a) {
        LocalRewritesIff(s, a, run);
      } else {
        TableKeepsRunRows(s, a);
      }
    }
  }

  lemma EndRewritesIff(s: State, a: Action, run: RunId)
    requires (a.RecordRun? || a.FailRun?) && a.w in s.workers && run in s.runs && s.runs[run] == RunFailed
    requires run in Step(s, a).runs
    ensures Step(s, a).runs[run] != RunFailed <==> RewritesFailed(s, a, run)
  {
  }

  lemma LocalRewritesIff(s: State, a: Action, run: RunId)
    requires LocalStep(a) && !a.RecordRun? && !a.FailRun? && a.w in s.workers
    requires run in s.runs && run < s.nextRun && s.runs[run] == RunFailed && run in Step(s, a).runs
    ensures Step(s, a).runs[run] != RunFailed <==> RewritesFailed(s, a, run)
  {
  }

  lemma TableKeepsRunRows(s: State, a: Action)
    requires ByWorker(a) && !LocalStep(a) && a.w in s.workers
    ensures Step(s, a).runs == s.runs
  {
  }

  predicate RewritesFailed(s: State, a: Action, run: RunId)
    requires ByWorker(a) && a.w in s.workers
  {
    || (a.MarkRunning? && s.workers[a.w].pc == Starting(run))
    || (a.RecordRun? && s.workers[a.w].pc == RecordingRun(run, true))
    || (a.CancelRun? && s.workers[a.w].pc == Cancelling(run))
  }

  /** No worker is inside the execution that created the run. */
  ghost predicate Abandoned(s: State, run: RunId) {
    run in s.runs && run < s.nextRun && forall w :: w in s.workers ==> s.workers[w].pc.Run() != Some(run)
  }

  lemma StaysAbandoned(s: State, a: Action, run: RunId)
    requires Reachable(s) && Abandoned(s, run)
    ensures Abandoned(Step(s, a), run)
  {
    CountersGrow(s, a);
    RunsStay(s, a);
    ReachableRunInv(s);
    forall w | w in Step(s, a).workers ensures Step(s, a).workers[w].pc.Run() != Some(run) {
      if ByWorker(a) && a.w == w {
        OwnRunSource(s, a);
      } else {
        ForeignKeepsPlace(s, a, w);
      }
    }
  }

  /** An acting worker keeps its run, has just created one, or carries none. */
  lemma OwnRunSource(s: State, a: Action)
    requires ByWorker(a) && a.w in Step(s, a).workers
    ensures a.w in s.workers
    ensures var run := Step(s, a).workers[a.w].pc.Run();
      run == s.workers[a.w].pc.Run() || run == Some(s.nextRun) || run.None?
  {
    KeepsWorkersBack(s, a);
    if LocalStep(a) {
      LocalRunSource(s, a);
    }
  }

  lemma LocalRunSource(s: State, a: Action)
    requires LocalStep(a) && a.w in s.workers && a.w in Step(s, a).workers
    ensures var run := Step(s, a).workers[a.w].pc.Run();
      run == s.workers[a.w].pc.Run() || run == Some(s.nextRun) || run.None?
  {
  }

  /** Once its worker is out of it, a run the reaper has failed is failed for good. */
  lemma {:induction false} FailedForGood(s: State, run: RunId, actions: seq<Action>)
    requires Reachable(s) && Abandoned(s, run) && s.runs[run] == RunFailed
    ensures var s' := Execute(s, actions); Reachable(s') && Abandoned(s', run) && s'.runs[run] == RunFailed
  {
    if actions != [] {
      var n := |actions| - 1;
      FailedForGood(s, run, actions[..n]);
      var before := Execute(s, actions[..n]);
      ReachableStep(before, actions[n]);
      StaysAbandoned(before, actions[n], run);
      FailedRunIsRewrittenIff(before, actions[n], run);
    }
  }

  /** A run that no row names and no worker carries is never touched again: no reclaim will ever fail it. */
  lemma {:induction false} UnnamedForGood(s: State, run: RunId, actions: seq<Action>)
    requires Reachable(s) && Abandoned(s, run) && Unnamed(s, run)
    ensures var s' := Execute(s, actions);
      Reachable(s') && Abandoned(s', run) && Unnamed(s', run) && s'.runs[run] == s.runs[run]
  {
    if actions != [] {
      var n := |actions| - 1;
      UnnamedForGood(s, run, actions[..n]);
      var before := Execute(s, actions[..n]);
      ReachableStep(before, actions[n]);
      StaysAbandoned(before, actions[n], run);
      StaysUnnamed(before, actions[n], run);
      RunWritten(before, actions[n], run);
    }
  }
}
