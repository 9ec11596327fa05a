/** How a job ended: a row's status follows from the last thing that happened to it, in every reachable state. */
module JobEnds {
  import opened Wrappers
  import opened JobQueue
  import opened ClaimProtocol
  import opened ClaimInvariant
  import opened ClaimRuns

  /** The status a row has after its latest event; a finish gives the end its claim's execution wrote for its run. */
  ghost predicate FollowsLog(s: State, j: JobId) {
    if j !in s.jobs then LastOn(s.log, j).None?
    else
      match LastOn(s.log, j)
      case None => s.jobs[j].status == Queued
      case Some(ClaimedBy(_, _, _)) => s.jobs[j].Active()
      case Some(ReleasedBy(_, _)) => s.jobs[j].status == Queued
      case Some(ReclaimedAll(_)) => s.jobs[j].status == Queued
      case Some(FinishedBy(_, _, e)) => EndsAs(s, j, e)
  }

  /** Marked succeeded exactly when the execution of claim `e` came back successful and recorded it, else failed. */
  ghost predicate EndsAs(s: State, j: JobId, e: nat)
    requires j in s.jobs
  {
    && e in s.executions && s.executions[e].job == j
    && (s.jobs[j].status == Succeeded <==> s.executions[e].answered == Some(true))
    && (s.jobs[j].status == Succeeded <==> s.executions[e].ended == Some(RunSuccess))
    && (s.jobs[j].status != Succeeded ==> s.jobs[j].status == Failed)
  }

  /** Nobody is still inside the execution of a claim that has been finished. */
  ghost predicate LeftFinished(s: State, j: JobId, w: WorkerId) {
    w in s.workers && s.workers[w].pc.Engaged() && LastOn(s.log, j).Some? && LastOn(s.log, j).value.FinishedBy? ==>
      s.workers[w].epoch != LastOn(s.log, j).value.epoch
  }

  /** What a worker has been answered, and what it has recorded of the run. */
  ghost predicate Answered(s: State, w: WorkerId) {
    w in s.workers && s.workers[w].pc.Engaged() && s.workers[w].epoch in s.executions ==>
      var x := s.executions[s.workers[w].epoch];
      match s.workers[w].pc
      case RecordingRun(_, success) => x.answered == Some(success)
      case FinishingJob(_, success) =>
        x.answered == Some(success) && x.ended == Some(if success then RunSuccess else RunFailed)
      case FailingJob(_, _) => x.answered.None? && (x.ended.None? || x.ended == Some(RunFailed))
      case _ => x.answered.None?
  }

  ghost predicate EndInv(s: State) {
    && (forall j :: FollowsLog(s, j)) && (forall j, w :: LeftFinished(s, j, w)) && (forall w :: Answered(s, w))
  }

  lemma InitialEndInv(s: State)
    requires Initial(s)
    ensures EndInv(s)
  {
  }

  // ---- workers ------------------------------------------------------------------------------

  lemma KeepsAnswer(s: State, a: Action, w: WorkerId)
    requires Inv(s) && RunInv(s) && EndInv(s)
    ensures Answered(Step(s, a), w)
  {
    if ByWorker(a) && a.w == w {
      assert Answered(s, w) && WorkerOk(s, w);
      if w in s.workers {
        OwnAnswer(s, a);
      }
    } else {
      OtherAnswer(s, a, w);
    }
  }

  lemma OtherAnswer(s: State, a: Action, w: WorkerId)
    requires Inv(s) && RunInv(s) && EndInv(s) && (ByWorker(a) ==> a.w != w)
    ensures Answered(Step(s, a), w)
  {
    ForeignKeepsPlace(s, a, w);
    if w in s.workers && s.workers[w].pc.Engaged() {
      assert Answered(s, w) && WorkerOk(s, w);
      OtherHistoryKept(s, a, w);
    }
  }

  /** Nobody else writes the history of a worker's claim. */
  lemma OtherHistoryKept(s: State, a: Action, w: WorkerId)
    requires Inv(s) && RunInv(s) && (ByWorker(a) ==> a.w != w)
    requires w in s.workers && s.workers[w].pc.Engaged()
    ensures var e := s.workers[w].epoch;
      e in s.executions && e in Step(s, a).executions && Step(s, a).executions[e] == s.executions[e]
  {
    assert WorkerOk(s, w) && ExecutionOk(s, s.workers[w].epoch);
    HistoryKept(s, a, s.workers[w].epoch);
    assert ByWorker(a) ==> EpochsApart(s, w, a.w);
  }

  lemma OwnAnswer(s: State, a: Action)
    requires ByWorker(a) && a.w in s.workers && WorkerOk(s, a.w) && Answered(s, a.w)
    ensures Answered(Step(s, a), a.w)
  {
    if a.RecordRun? || a.FailRun? {
      EndStepRecords(s, a);
    } else if LocalStep(a) {
      LocalAnswer(s, a);
    } else {
      TableAnswer(s, a);
    }
  }

  lemma EndStepRecords(s: State, a: Action)
    requires (a.RecordRun? || a.FailRun?) && a.w in s.workers && WorkerOk(s, a.w) && Answered(s, a.w)
    ensures Answered(Step(s, a), a.w)
  {
  }

  lemma LocalAnswer(s: State, a: Action)
    requires LocalStep(a) && !a.RecordRun? && !a.FailRun? && a.w in s.workers
    requires WorkerOk(s, a.w) && Answered(s, a.w)
    ensures Answered(Step(s, a), a.w)
  {
  }

  lemma TableAnswer(s: State, a: Action)
    requires ByWorker(a) && !LocalStep(a) && a.w in s.workers && WorkerOk(s, a.w) && Answered(s, a.w)
    ensures Answered(Step(s, a), a.w)
  {
  }

  // ---- rows ---------------------------------------------------------------------------------

  /** The step appends an event about `j`. */
  ghost predicate Logs(s: State, a: Action, j: JobId) {
    |Step(s, a).log| == |s.log| + 1 && Step(s, a).log[|s.log|].Touches(j)
  }

  lemma LogsOrNot(s: State, a: Action, j: JobId)
    ensures Logs(s, a, j) ==> LastOn(Step(s, a).log, j) == Some(Step(s, a).log[|s.log|])
    ensures !Logs(s, a, j) ==> LastOn(Step(s, a).log, j) == LastOn(s.log, j)
  {
    if Step(s, a).log != s.log {
      OneEvent(s, a);
      LastOnAppend(s.log, Step(s, a).log[|s.log|], j);
    }
  }

  /** Without an event, a row's status changes only from claimed to running; a new row is queued. */
  lemma Unlogged(s: State, a: Action, j: JobId)
    requires j in Step(s, a).jobs && !Logs(s, a, j)
    ensures j in s.jobs ==>
      Step(s, a).jobs[j].status == s.jobs[j].status || (Step(s, a).jobs[j].Active() && s.jobs[j].Active())
    ensures j !in s.jobs ==> Step(s, a).jobs[j].status == Queued
  {
    if LocalStep(a) {
      LocalKeepsJobs(s, a);
    } else if ByWorker(a) {
      UnloggedByWorker(s, a, j);
    }
  }

  lemma UnloggedByWorker(s: State, a: Action, j: JobId)
    requires ByWorker(a) && !LocalStep(a) && j in Step(s, a).jobs && !Logs(s, a, j)
    ensures j in s.jobs
    ensures Step(s, a).jobs[j].status == s.jobs[j].status || (Step(s, a).jobs[j].Active() && s.jobs[j].Active())
  {
  }

  /** What the logged steps do to the row they log. */
  lemma Logged(s: State, a: Action, j: JobId)
    requires Logs(s, a, j) && !a.FinishJob? && !a.FailJob?
    ensures j in Step(s, a).jobs
    ensures match Step(s, a).log[|s.log|]
      case ClaimedBy(_, _, _) => Step(s, a).jobs[j].Active()
      case FinishedBy(_, _, _) => false
      case _ => Step(s, a).jobs[j].status == Queued
  {
  }

  /** A finish that takes effect: the row gets the status its worker is about to give it. */
  lemma LoggedFinish(s: State, a: Action, j: JobId)
    requires Logs(s, a, j) && (a.FinishJob? || a.FailJob?)
    ensures a.w in s.workers && s.workers[a.w].job == j && j in Step(s, a).jobs
    ensures s.workers[a.w].pc.FinishingJob? || s.workers[a.w].pc.FailingJob?
    ensures var pc, row := s.workers[a.w].pc, Step(s, a).jobs[j];
      row.status == if pc.FinishingJob? && pc.success then Succeeded else Failed
    ensures Step(s, a).log[|s.log|] == FinishedBy(j, a.w, s.workers[a.w].epoch)
    ensures Step(s, a).executions == s.executions
  {
  }

  lemma KeepsFollowing(s: State, a: Action, j: JobId)
    requires Inv(s) && RunInv(s) && EndInv(s)
    ensures FollowsLog(Step(s, a), j)
  {
    LogsOrNot(s, a, j);
    if Logs(s, a, j) {
      LoggedFollows(s, a, j);
    } else {
      UnloggedFollows(s, a, j);
    }
  }

  lemma LoggedFollows(s: State, a: Action, j: JobId)
    requires RunInv(s) && EndInv(s) && Logs(s, a, j)
    requires LastOn(Step(s, a).log, j) == Some(Step(s, a).log[|s.log|])
    ensures FollowsLog(Step(s, a), j)
  {
    if a.FinishJob? || a.FailJob? {
      LoggedFinish(s, a, j);
      assert Answered(s, a.w) && WorkerOk(s, a.w);
    } else {
      Logged(s, a, j);
    }
  }

  lemma UnloggedFollows(s: State, a: Action, j: JobId)
    requires Inv(s) && RunInv(s) && EndInv(s) && !Logs(s, a, j) && LastOn(Step(s, a).log, j) == LastOn(s.log, j)
    ensures FollowsLog(Step(s, a), j)
  {
    assert FollowsLog(s, j);
    JobsOnlyGrow(s, a, j);
    if j in Step(s, a).jobs {
      Unlogged(s, a, j);
      KeepsEnd(s, a, j);
    }
  }

  lemma JobsOnlyGrow(s: State, a: Action, j: JobId)
    ensures j in s.jobs ==> j in Step(s, a).jobs
  {
    if LocalStep(a) {
      LocalKeepsJobs(s, a);
    }
  }

  /** The history of a finished claim is over. */
  lemma KeepsEnd(s: State, a: Action, j: JobId)
    requires Inv(s) && RunInv(s) && EndInv(s)
    ensures j in s.jobs && LastOn(s.log, j).Some? && LastOn(s.log, j).value.FinishedBy? ==>
      var e := LastOn(s.log, j).value.epoch;
      e in s.executions && e in Step(s, a).executions && Step(s, a).executions[e] == s.executions[e]
  {
    assert FollowsLog(s, j);
    if j in s.jobs && LastOn(s.log, j).Some? && LastOn(s.log, j).value.FinishedBy? {
      var e := LastOn(s.log, j).value.epoch;
      assert ExecutionOk(s, e);
      HistoryKept(s, a, e);
      if ByWorker(a) {
        assert LeftFinished(s, j, a.w);
      }
    }
  }

  lemma KeepsLeft(s: State, a: Action, j: JobId, w: WorkerId)
    requires Inv(s) && RunInv(s) && EndInv(s)
    ensures LeftFinished(Step(s, a), j, w)
  {
    LogsOrNot(s, a, j);
    EpochSource(s, a, w);
    if Logs(s, a, j) {
      if a.FinishJob? || a.FailJob? {
        LeftByFinisher(s, a, j, w);
      } else {
        Logged(s, a, j);
      }
    } else {
      assert LeftFinished(s, j, w);
      if j in s.jobs && LastOn(s.log, j).Some? && LastOn(s.log, j).value.FinishedBy? {
        KeepsEnd(s, a, j);
        assert ExecutionOk(s, LastOn(s.log, j).value.epoch);
      } else {
        assert FollowsLog(s, j);
      }
    }
  }

  lemma LeftByFinisher(s: State, a: Action, j: JobId, w: WorkerId)
    requires RunInv(s) && Logs(s, a, j) && (a.FinishJob? || a.FailJob?)
    requires LastOn(Step(s, a).log, j) == Some(Step(s, a).log[|s.log|])
    ensures LeftFinished(Step(s, a), j, w)
  {
    LoggedFinish(s, a, j);
    FinisherLeaves(s, a);
    EpochSource(s, a, w);
    assert EpochsApart(s, w, a.w);
  }

  lemma FinisherLeaves(s: State, a: Action)
    requires (a.FinishJob? || a.FailJob?) && a.w in s.workers
    requires s.workers[a.w].pc.FinishingJob? || s.workers[a.w].pc.FailingJob?
    requires Step(s, a).log != s.log
    ensures a.w in Step(s, a).workers && Step(s, a).workers[a.w].pc == Idle
  {
  }

  lemma StepKeepsEndInv(s: State, a: Action)
    requires Inv(s) && RunInv(s) && EndInv(s)
    ensures EndInv(Step(s, a))
  {
    var s' := Step(s, a);
    forall j ensures FollowsLog(s', j) { KeepsFollowing(s, a, j); }
    forall j, w ensures LeftFinished(s', j, w) { KeepsLeft(s, a, j, w); }
    forall w ensures Answered(s', w) { KeepsAnswer(s, a, w); }
  }

  lemma {:induction false} RunsKeepEndInv(s: State, actions: seq<Action>)
    requires Inv(s) && RunInv(s) && EndInv(s)
    ensures EndInv(Execute(s, actions))
  {
    if actions != [] {
      var n := |actions| - 1;
      RunsKeepEndInv(s, actions[..n]);
      RunsKeepRunInv(s, actions[..n]);
      StepKeepsEndInv(Execute(s, actions[..n]), actions[n]);
    }
  }

  lemma ReachableEndInv(s: State)
    requires Reachable(s)
    ensures EndInv(s)
  {
    var s0, actions :| Initial(s0) && s == Execute(s0, actions);
    InitialInv(s0);
    InitialRunInv(s0);
    InitialEndInv(s0);
    RunsKeepEndInv(s0, actions);
  }

  // ---- what that means ------------------------------------------------------------------------

  /** A row is queued, held or ended exactly as its latest event says. */
  lemma StatusIsTheLatestEvent(s: State, j: JobId)
    requires Reachable(s) && j in s.jobs
    ensures var last := LastOn(s.log, j);
      && (s.jobs[j].Terminal() <==> last.Some? && last.value.FinishedBy?)
      && (s.jobs[j].Active() <==> last.Some? && last.value.ClaimedBy?)
  {
    ReachableEndInv(s);
    assert FollowsLog(s, j);
  }

  /**
   A finished job is marked succeeded iff the execution of the finished claim came back successful, which is
   also when that execution recorded success for its run; else it is marked failed.
   */
  lemma JobEndsAsItsExecution(s: State, j: JobId, w: WorkerId, e: nat)
    requires Reachable(s) && j in s.jobs && LastOn(s.log, j) == Some(FinishedBy(j, w, e))
    ensures e in s.executions && s.executions[e].job == j
    ensures s.jobs[j].status == Succeeded <==> s.executions[e].answered == Some(true)
    ensures s.jobs[j].status == Succeeded <==> s.executions[e].ended == Some(RunSuccess)
    ensures s.jobs[j].status == Succeeded || s.jobs[j].status == Failed
  {
    ReachableEndInv(s);
    assert FollowsLog(s, j);
  }
}
