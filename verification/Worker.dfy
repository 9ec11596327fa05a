/**
 `run_once` written out call by call against the shared tables. Before each of its database
 calls any number of other steps happen: other workers, the reaper, its own heartbeat task.
 */
module Worker {
  import opened Wrappers
  import opened JobQueue
  import opened ClaimProtocol
  import opened ClaimInvariant
  import opened ClaimRuns
  import opened ClaimTheorems
  import opened JobEnds

  type Interference = nat -> seq<Action>

  ghost predicate AllForeign(others: Interference, w: WorkerId) {
    forall k: nat, i :: 0 <= i < |others(k)| ==> Foreign(others(k)[i], w)
  }

  /**
   What the world does to one `run_once`: the row `claim_next` hands out, the steps of others before
   each call, which call of the guarded part raises, how the execution ends, and which of the closing
   writes fail.
   */
  datatype Script = Script(
    pick: Option<JobId>, others: Interference, raises: nat -> bool, success: bool,
    failRunLands: bool, failJobLands: bool, recordRaises: bool, finishRaises: bool)
  {
    /** The writes of `_fail_job` and `_finalize` succeed. */
    predicate ClosingWritesSucceed() {
      failRunLands && failJobLands && !recordRaises && !finishRaises
    }
  }

  datatype Exit = NothingClaimed | Returned(ran: bool) | Raised
  datatype Guarded = BackedOff | Threw | Completed(success: bool)

  ghost predicate At(s: State, w: WorkerId) {
    Reachable(s) && w in s.workers
  }

  class Tables {
    var s: State

    constructor (s: State)
      ensures this.s == s
    {
      this.s := s;
    }

    /** Others act; the worker's own place in the code does not move. */
    method Wait(actions: seq<Action>, w: WorkerId)
      requires At(s, w) && forall i :: 0 <= i < |actions| ==> Foreign(actions[i], w)
      modifies this
      ensures At(s, w) && s.workers[w] == old(s).workers[w]
    {
      for i := 0 to |actions|
        invariant At(s, w) && s.workers[w] == old(s).workers[w]
      {
        ForeignKeepsPlace(s, actions[i], w);
        ReachableStep(s, actions[i]);
        s := Step(s, actions[i]);
      }
    }

    method Call(a: Action, w: WorkerId)
      requires At(s, w) && ByWorker(a) && a.w == w
      modifies this
      ensures At(s, w) && s == Step(old(s), a)
    {
      ReachableStep(s, a);
      KeepsWorkers(s, a, w);
      s := Step(s, a);
    }
  }

  /** The worker is out of `run_once`; its job, run row and heartbeat are taken care of. */
  ghost predicate Settled(s: State, w: WorkerId, run: Option<RunId>)
    requires w in s.workers
  {
    && s.workers[w].pc == Idle && !s.workers[w].beating
    && s.workers[w].job in s.jobs && Resolved(s.jobs[s.workers[w].job], w)
    && (run.Some? ==> run.value in s.runs && TerminalRun(s.runs[run.value]))
  }

  /** The worker's execution came back with `answer`, or never came back. */
  ghost predicate CameBack(s: State, w: WorkerId, answer: Option<bool>)
    requires w in s.workers
  {
    s.workers[w].epoch in s.executions && s.executions[s.workers[w].epoch].answered == answer
  }

  ghost predicate Cancelled(s: State, run: RunId) {
    run in s.runs && s.runs[run] == RunCancelled
  }

  /** If the worker's own finish is the last thing that happened to the job, job and run have this end. */
  ghost predicate FinishedAs(s: State, w: WorkerId, run: Option<RunId>, success: bool)
    requires w in s.workers
  {
    var me := s.workers[w];
    LastOn(s.log, me.job) == Some(FinishedBy(me.job, w, me.epoch)) ==>
      && me.job in s.jobs && s.jobs[me.job].status == (if success then Succeeded else Failed)
      && (run.Some? ==> run.value in s.runs && s.runs[run.value] == if success then RunSuccess else RunFailed)
  }

  // ---- where each call leads --------------------------------------------------------------

  lemma ClaimLeads(s: State, w: WorkerId, id: JobId, now: int)
    requires w in s.workers && s.workers[w].pc == Idle && id in s.jobs && s.jobs[id].status == Queued
    ensures var me := Step(s, Claim(w, id, now)).workers[w]; me.pc == JustClaimed && me.job == id
  {
  }

  lemma CreateRunLeads(s: State, w: WorkerId)
    requires w in s.workers && s.workers[w].pc == JustClaimed
    ensures var me := Step(s, CreateRun(w)).workers[w];
      me.pc == RunCreated(s.nextRun) && me.job == s.workers[w].job
  {
  }

  lemma TransitionLeads(s: State, w: WorkerId)
    requires w in s.workers && s.workers[w].pc.RunCreated?
    ensures var me, run := Step(s, ClaimProtocol.Transition(w)).workers[w], s.workers[w].pc.run;
      && me.job == s.workers[w].job
      && me.pc == match TransitionOutcome(s.jobs, s.workers[w].job, w)
                  case Landed => Starting(run)
                  case LostClaim => Cancelling(run)
                  case AlreadyRunning => BackingOff(run)
  {
  }

  lemma ReleaseLeads(s: State, w: WorkerId)
    requires w in s.workers && s.workers[w].pc.BackingOff? && s.workers[w].job in s.jobs
    ensures var me, run := Step(s, Release(w)).workers[w], s.workers[w].pc.run;
      && me.job == s.workers[w].job
      && (me.pc == FailingRun(Some(run)) || me.pc == Cancelling(run))
  {
  }

  /** No row ever named the run of a worker whose release is refused. */
  lemma RefusedIsUnnamed(s: State, w: WorkerId)
    requires Reachable(s) && w in s.workers && s.workers[w].pc.BackingOff? && s.workers[w].job in s.jobs
    ensures w in Step(s, Release(w)).workers
    ensures Step(s, Release(w)).workers[w].pc.FailingRun? ==> Unnamed(Step(s, Release(w)), s.workers[w].pc.run)
  {
    ReachableRunInv(s);
    assert WorkerUnnamed(s, w);
  }

  lemma MarkRunningLeads(s: State, w: WorkerId)
    requires w in s.workers && s.workers[w].pc.Starting?
    ensures var me := Step(s, MarkRunning(w)).workers[w];
      me.pc == Executing(s.workers[w].pc.run) && me.job == s.workers[w].job && me.beating
    ensures Step(s, MarkRunning(w)).runs == s.runs[s.workers[w].pc.run := RunRunning]
  {
  }

  lemma ExecutedLeads(s: State, w: WorkerId, success: bool)
    requires w in s.workers && s.workers[w].pc.Executing?
    ensures var me := Step(s, Executed(w, success)).workers[w];
      me.pc == RecordingRun(s.workers[w].pc.run, success) && me.job == s.workers[w].job
  {
  }

  lemma FaultLeads(s: State, w: WorkerId)
    requires w in s.workers
    requires var pc := s.workers[w].pc;
      pc.JustClaimed? || pc.RunCreated? || pc.BackingOff? || pc.Cancelling? || pc.Starting? || pc.Executing?
    ensures var me := Step(s, Fault(w)).workers[w];
      me.pc == FailingRun(s.workers[w].pc.Run()) && me.job == s.workers[w].job
  {
  }

  lemma FailRunLeads(s: State, w: WorkerId, landed: bool)
    requires w in s.workers && s.workers[w].pc.FailingRun?
    ensures var me, run := Step(s, FailRun(w, landed)).workers[w], s.workers[w].pc.failed;
      me.pc == FailingJob(run, run.None? || landed) && me.job == s.workers[w].job
  {
  }

  lemma RecordRunLeads(s: State, w: WorkerId)
    requires w in s.workers && s.workers[w].pc.RecordingRun?
    ensures var me, pc := Step(s, RecordRun(w)).workers[w], s.workers[w].pc;
      me.pc == FinishingJob(pc.run, pc.success) && me.job == s.workers[w].job
  {
  }

  lemma LastCallLeads(s: State, a: Action)
    requires a.CancelRun? || a.FinishJob? || a.FailJob?
    requires a.w in s.workers
    requires a.CancelRun? ==> s.workers[a.w].pc.Cancelling?
    requires a.FinishJob? ==> s.workers[a.w].pc.FinishingJob?
    requires a.FailJob? ==> s.workers[a.w].pc.FailingJob?
    ensures var me := Step(s, a).workers[a.w]; me.pc == Idle && me.job == s.workers[a.w].job
  {
  }

  /** Leaving by a call that lands settles the claim. */
  lemma LastCallSettles(s: State, a: Action, run: Option<RunId>)
    requires Reachable(s) && CleanExit(s, a) && a.w in s.workers && s.workers[a.w].pc.Run() == run
    requires a.CancelRun? ==> s.workers[a.w].pc.Cancelling?
    requires a.FinishJob? ==> s.workers[a.w].pc.FinishingJob?
    ensures Settled(Step(s, a), a.w, run) && Step(s, a).workers[a.w].job == s.workers[a.w].job
  {
    LastCallLeads(s, a);
    CleanExitResolvesTheClaim(s, a);
  }

  /** Where a worker stands when only the finish of its job is left, with the run's end written. */
  ghost predicate AboutToFinish(s: State, w: WorkerId, run: Option<RunId>, success: bool)
    requires w in s.workers
  {
    match s.workers[w].pc
    case FinishingJob(r, b) => run == Some(r) && success == b
    case FailingJob(r, recorded) => run == r && recorded && !success
    case _ => false
  }

  /** The run of a worker that still holds its job has the end the worker wrote. */
  lemma HeldRunHasItsEnd(s: State, w: WorkerId, run: Option<RunId>, success: bool)
    requires Reachable(s) && w in s.workers && AboutToFinish(s, w, run, success)
    requires s.workers[w].job in s.jobs && s.jobs[s.workers[w].job].HeldBy(w)
    ensures run.Some? ==> run.value in s.runs && s.runs[run.value] == if success then RunSuccess else RunFailed
  {
    ReachableRunInv(s);
    ReachableEndInv(s);
    var me := s.workers[w];
    assert ClaimOk(s, w) && WorkerOk(s, w) && Answered(s, w);
    assert HeldOk(s, me.job, me.epoch);
  }

  lemma FinishTells(s: State, a: Action, run: Option<RunId>, success: bool)
    requires a.FinishJob? || (a.FailJob? && a.landed)
    requires Reachable(s) && a.w in s.workers && AboutToFinish(s, a.w, run, success)
    requires a.FinishJob? <==> s.workers[a.w].pc.FinishingJob?
    ensures a.w in Step(s, a).workers && FinishedAs(Step(s, a), a.w, run, success)
    ensures CameBack(Step(s, a), a.w, if a.FinishJob? then Some(success) else None)
  {
    var me := s.workers[a.w];
    ReachableRunInv(s);
    ReachableEndInv(s);
    assert ClaimOk(s, a.w) && WorkerOk(s, a.w) && Answered(s, a.w) && LeftFinished(s, me.job, a.w);
    if s.jobs[me.job].HeldBy(a.w) {
      HeldRunHasItsEnd(s, a.w, run, success);
    }
    FinishStep(s, a, success);
  }

  lemma FinishStep(s: State, a: Action, success: bool)
    requires a.FinishJob? || (a.FailJob? && a.landed)
    requires a.w in s.workers && s.workers[a.w].job in s.jobs && exists run :: AboutToFinish(s, a.w, run, success)
    requires a.FinishJob? <==> s.workers[a.w].pc.FinishingJob?
    ensures var s', me := Step(s, a), s.workers[a.w];
      && a.w in s'.workers && s'.workers[a.w].job == me.job && s'.workers[a.w].epoch == me.epoch
      && s'.runs == s.runs && s'.executions == s.executions && me.job in s'.jobs
      && (if s.jobs[me.job].HeldBy(a.w)
          then s'.jobs[me.job].status == if success then Succeeded else Failed
          else s'.log == s.log)
  {
  }

  lemma CancelTells(s: State, w: WorkerId)
    requires Reachable(s) && w in s.workers && s.workers[w].pc.Cancelling?
    ensures w in Step(s, CancelRun(w)).workers && CameBack(Step(s, CancelRun(w)), w, None)
    ensures Cancelled(Step(s, CancelRun(w)), s.workers[w].pc.run)
  {
    ReachableRunInv(s);
    ReachableEndInv(s);
    assert WorkerOk(s, w) && Answered(s, w);
  }

  // ---- the code -----------------------------------------------------------------------------

  /** What the guarded part leaves behind. */
  ghost predicate GuardedEnds(s: State, w: WorkerId, g: Guarded, run: Option<RunId>)
    requires w in s.workers
  {
    match g
    case Threw => s.workers[w].pc == FailingRun(run)
    case Completed(success) => run.Some? && s.workers[w].pc == RecordingRun(run.value, success)
    case BackedOff => run.Some? && Settled(s, w, run) && CameBack(s, w, None)
  }

  /** The call raised: the handler takes over. */
  method Throw(db: Tables, w: WorkerId) returns (g: Guarded)
    requires At(db.s, w)
    requires var pc := db.s.workers[w].pc;
      pc.JustClaimed? || pc.RunCreated? || pc.BackingOff? || pc.Cancelling? || pc.Starting? || pc.Executing?
    modifies db
    ensures At(db.s, w) && g == Threw && db.s.workers[w].job == old(db.s).workers[w].job
    ensures db.s.workers[w].pc == FailingRun(old(db.s).workers[w].pc.Run())
  {
    FaultLeads(db.s, w);
    db.Call(Fault(w), w);
    return Threw;
  }

  /** The two early returns: cancel the run row of an execution that will not happen. */
  method CancelAndReturn(db: Tables, w: WorkerId, script: Script, k: nat) returns (g: Guarded)
    requires At(db.s, w) && db.s.workers[w].pc.Cancelling? && AllForeign(script.others, w)
    modifies db
    ensures At(db.s, w) && db.s.workers[w].job == old(db.s).workers[w].job
    ensures !g.Completed? && GuardedEnds(db.s, w, g, old(db.s).workers[w].pc.Run())
    ensures g.Threw? ==> script.raises(k)
    ensures g.BackedOff? ==> Cancelled(db.s, old(db.s).workers[w].pc.run)
  {
    db.Wait(script.others(k), w);
    if script.raises(k) {
      g := Throw(db, w);
      return;
    }
    LastCallSettles(db.s, CancelRun(w), db.s.workers[w].pc.Run());
    CancelTells(db.s, w);
    db.Call(CancelRun(w), w);
    return BackedOff;
  }

  /** From the running row to the end of the execution; the heartbeat beats in between. */
  method ExecuteJob(db: Tables, w: WorkerId, script: Script) returns (g: Guarded)
    requires At(db.s, w) && db.s.workers[w].pc.Starting? && AllForeign(script.others, w)
    modifies db
    ensures At(db.s, w) && db.s.workers[w].job == old(db.s).workers[w].job
    ensures var run := old(db.s).workers[w].pc.run;
      || (g == Threw && db.s.workers[w].pc == FailingRun(Some(run)) && (script.raises(5) || script.raises(6)))
      || (g == Completed(script.success) && db.s.workers[w].pc == RecordingRun(run, script.success))
  {
    db.Wait(script.others(5), w);
    if script.raises(5) {
      g := Throw(db, w);
      return;
    }
    MarkRunningLeads(db.s, w);
    db.Call(MarkRunning(w), w);
    db.Wait(script.others(6), w);
    if script.raises(6) {
      g := Throw(db, w);
      return;
    }
    ExecutedLeads(db.s, w, script.success);
    db.Call(Executed(w, script.success), w);
    return Completed(script.success);
  }

  /** The body of the `try`. */
  method GuardedPart(db: Tables, w: WorkerId, script: Script) returns (g: Guarded, ghost run: Option<RunId>)
    requires At(db.s, w) && db.s.workers[w].pc == JustClaimed && AllForeign(script.others, w)
    modifies db
    ensures At(db.s, w) && db.s.workers[w].job == old(db.s).workers[w].job && GuardedEnds(db.s, w, g, run)
    ensures g.Threw? ==> (exists k :: script.raises(k)) || (run.Some? && Unnamed(db.s, run.value))
    ensures g.BackedOff? ==> run.Some? && Cancelled(db.s, run.value)
    ensures g.Completed? ==> g.success == script.success
  {
    run := None;
    db.Wait(script.others(1), w);
    if script.raises(1) {
      g := Throw(db, w);
      return;
    }
    CreateRunLeads(db.s, w);
    db.Call(CreateRun(w), w);
    run := db.s.workers[w].pc.Run();
    g := PromoteAndRun(db, w, script);
  }

  /** From the created run row on: promote the claim, and act on what that brings. */
  method PromoteAndRun(db: Tables, w: WorkerId, script: Script) returns (g: Guarded)
    requires At(db.s, w) && db.s.workers[w].pc.RunCreated? && AllForeign(script.others, w)
    modifies db
    ensures At(db.s, w) && db.s.workers[w].job == old(db.s).workers[w].job
    ensures GuardedEnds(db.s, w, g, old(db.s).workers[w].pc.Run())
    ensures g.Threw? ==> (exists k :: script.raises(k)) || Unnamed(db.s, old(db.s).workers[w].pc.run)
    ensures g.BackedOff? ==> Cancelled(db.s, old(db.s).workers[w].pc.run)
    ensures g.Completed? ==> g.success == script.success
  {
    db.Wait(script.others(2), w);
    if script.raises(2) {
      g := Throw(db, w);
      return;
    }
    TransitionLeads(db.s, w);
    var transitioned := TransitionOutcome(db.s.jobs, db.s.workers[w].job, w);
    db.Call(ClaimProtocol.Transition(w), w);
    if transitioned == AlreadyRunning {
      g := BackOff(db, w, script);
    } else if transitioned == LostClaim {
      g := CancelAndReturn(db, w, script, 4);
    } else {
      g := ExecuteJob(db, w, script);
    }
  }

  /** Another job of the pipeline is running: give the claim back, cancel the run. */
  method BackOff(db: Tables, w: WorkerId, script: Script) returns (g: Guarded)
    requires At(db.s, w) && db.s.workers[w].pc.BackingOff? && AllForeign(script.others, w)
    modifies db
    ensures At(db.s, w) && db.s.workers[w].job == old(db.s).workers[w].job
    ensures !g.Completed? && GuardedEnds(db.s, w, g, old(db.s).workers[w].pc.Run())
    ensures g.Threw? ==> script.raises(3) || script.raises(4) || Unnamed(db.s, old(db.s).workers[w].pc.run)
    ensures g.BackedOff? ==> Cancelled(db.s, old(db.s).workers[w].pc.run)
  {
    db.Wait(script.others(3), w);
    if script.raises(3) {
      g := Throw(db, w);
      return;
    }
    GuardIsAsStrongAsEpoch(db.s, w);
    ReleaseLeads(db.s, w);
    RefusedIsUnnamed(db.s, w);
    db.Call(Release(w), w);
    if db.s.workers[w].pc.FailingRun? {
      return Threw;
    }
    g := CancelAndReturn(db, w, script, 4);
  }

  /** `_fail_job`: both writes are attempted, whether or not the other one lands. */
  method HandleFailure(db: Tables, w: WorkerId, script: Script, ghost run: Option<RunId>)
    requires At(db.s, w) && db.s.workers[w].pc == FailingRun(run) && AllForeign(script.others, w)
    modifies db
    ensures At(db.s, w) && db.s.workers[w].job == old(db.s).workers[w].job && db.s.workers[w].pc == Idle
    ensures script.failRunLands && script.failJobLands ==>
      Settled(db.s, w, run) && FinishedAs(db.s, w, run, false) && CameBack(db.s, w, None)
  {
    db.Wait(script.others(7), w);
    FailRunLeads(db.s, w, script.failRunLands);
    db.Call(FailRun(w, script.failRunLands), w);
    db.Wait(script.others(8), w);
    if script.failRunLands && script.failJobLands {
      LastCallSettles(db.s, FailJob(w, true), run);
      FinishTells(db.s, FailJob(w, true), run, false);
    }
    LastCallLeads(db.s, FailJob(w, script.failJobLands));
    db.Call(FailJob(w, script.failJobLands), w);
  }

  /** `_finalize`: a write that raises escapes `run_once`. */
  method FinalizeJob(db: Tables, w: WorkerId, script: Script, ghost run: RunId, ghost success: bool)
    returns (exit: Exit)
    requires At(db.s, w) && AllForeign(script.others, w)
    requires db.s.workers[w].pc == RecordingRun(run, success)
    modifies db
    ensures At(db.s, w) && db.s.workers[w].job == old(db.s).workers[w].job && db.s.workers[w].pc == Idle
    ensures exit == if script.recordRaises || script.finishRaises then Raised else Returned(true)
    ensures exit != Raised ==>
      Settled(db.s, w, Some(run)) && FinishedAs(db.s, w, Some(run), success) && CameBack(db.s, w, Some(success))
  {
    db.Wait(script.others(7), w);
    if script.recordRaises {
      Escape(db, w);
      return Raised;
    }
    RecordRunLeads(db.s, w);
    db.Call(RecordRun(w), w);
    db.Wait(script.others(8), w);
    if script.finishRaises {
      Escape(db, w);
      return Raised;
    }
    LastCallSettles(db.s, FinishJob(w), Some(run));
    FinishTells(db.s, FinishJob(w), Some(run), success);
    db.Call(FinishJob(w), w);
    return Returned(true);
  }

  method Escape(db: Tables, w: WorkerId)
    requires At(db.s, w) && (db.s.workers[w].pc.RecordingRun? || db.s.workers[w].pc.FinishingJob?)
    modifies db
    ensures At(db.s, w) && db.s.workers[w].job == old(db.s).workers[w].job && db.s.workers[w].pc == Idle
  {
    EscapeLeads(db.s, w);
    db.Call(Fault(w), w);
  }

  lemma EscapeLeads(s: State, w: WorkerId)
    requires w in s.workers && (s.workers[w].pc.RecordingRun? || s.workers[w].pc.FinishingJob?)
    ensures var me := Step(s, Fault(w)).workers[w]; me.pc == Idle && me.job == s.workers[w].job
  {
  }

  /**
   One turn of a worker. It always comes back out; and if the closing writes succeed, whatever else
   failed before them and whatever the others did meanwhile, the claim it made is settled. A job it
   finished, and that job's run, then have the end the execution came back with, or failed if it did not.
   */
  method RunOnce(db: Tables, w: WorkerId, script: Script, now: int) returns (exit: Exit, ghost run: Option<RunId>)
    requires At(db.s, w) && db.s.workers[w].pc == Idle && AllForeign(script.others, w)
    modifies db
    ensures At(db.s, w) && db.s.workers[w].pc == Idle
    ensures exit != NothingClaimed ==> script.pick == Some(db.s.workers[w].job)
    ensures exit != NothingClaimed && script.ClosingWritesSucceed() ==> exit != Raised && Settled(db.s, w, run)
    ensures exit == Raised ==> script.recordRaises || script.finishRaises
    ensures exit == Returned(true) && script.ClosingWritesSucceed() ==>
      || (CameBack(db.s, w, Some(script.success)) && FinishedAs(db.s, w, run, script.success))
      || (CameBack(db.s, w, None) && FinishedAs(db.s, w, run, false))
    ensures exit == Returned(false) ==> CameBack(db.s, w, None) && run.Some? && Cancelled(db.s, run.value)
  {
    run := None;
    db.Wait(script.others(0), w);
    if script.pick.None? || script.pick.value !in db.s.jobs || db.s.jobs[script.pick.value].status != Queued {
      return NothingClaimed, None;
    }
    ClaimLeads(db.s, w, script.pick.value, now);
    db.Call(Claim(w, script.pick.value, now), w);
    var g;
    g, run := GuardedPart(db, w, script);
    match g
    case BackedOff =>
      return Returned(false), run;
    case Threw =>
      HandleFailure(db, w, script, run);
      return Returned(true), run;
    case Completed(success) =>
      exit := FinalizeJob(db, w, script, run.value, success);
      return exit, run;
  }
}
