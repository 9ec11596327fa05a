/** Concrete reachable runs in which the unguarded release, or the reaper's unguarded write, does harm. */
module ClaimScenarios {
  import opened Wrappers
  import opened JobQueue
  import opened ClaimProtocol
  import opened ClaimInvariant
  import opened ClaimRuns
  import opened ReclaimedRuns

  /** Nothing but job `id`'s row and worker `w` differs, and the row keeps its pipeline. */
  ghost predicate OnlyTouches(s: State, s': State, id: JobId, w: WorkerId) {
    && s'.jobs.Keys == s.jobs.Keys && s'.workers.Keys == s.workers.Keys
    && (forall j :: j in s.jobs && j != id ==> s'.jobs[j] == s.jobs[j])
    && (forall v :: v in s.workers && v != w ==> s'.workers[v] == s.workers[v])
    && (id in s.jobs ==> s'.jobs[id].SameSlot(s.jobs[id]))
  }

  /** An idle worker claims a queued job and creates its run row. */
  lemma DriveToRunCreated(s: State, w: WorkerId, id: JobId) returns (s': State)
    requires Reachable(s) && w in s.workers && s.workers[w].pc == Idle
    requires id in s.jobs && s.jobs[id].status == Queued
    ensures Reachable(s') && OnlyTouches(s, s', id, w)
    ensures s'.workers[w].pc.RunCreated? && s'.workers[w].job == id
    ensures s'.jobs[id].status == Claimed && s'.jobs[id].claimedBy == Some(w)
    ensures s'.workers[w].pc.run in s'.runs && s'.runs[s'.workers[w].pc.run] == RunQueued
  {
    var s1 := Step(s, Claim(w, id, 0));
    ReachableStep(s, Claim(w, id, 0));
    s' := Step(s1, CreateRun(w));
    ReachableStep(s1, CreateRun(w));
  }

  lemma SameRunningRows(s: State, s': State, id: JobId, w: WorkerId)
    requires OnlyTouches(s, s', id, w) && id in s.jobs
    ensures Taken(s'.jobs, id, s'.jobs[id], Running) <==> Taken(s.jobs, id, s.jobs[id], Running)
  {
  }

  /** An idle worker takes a queued job as far as executing it. */
  lemma DriveToExecuting(s: State, w: WorkerId, id: JobId) returns (s': State)
    requires Reachable(s) && w in s.workers && s.workers[w].pc == Idle
    requires id in s.jobs && s.jobs[id].status == Queued && !Taken(s.jobs, id, s.jobs[id], Running)
    ensures Reachable(s') && OnlyTouches(s, s', id, w)
    ensures s'.workers[w].pc.Executing? && s'.workers[w].job == id
    ensures s'.jobs[id].status == Running && s'.jobs[id].claimedBy == Some(w)
    ensures s'.jobs[id].runId == s'.workers[w].pc.Run()
  {
    var s2 := DriveToRunCreated(s, w, id);
    SameRunningRows(s, s2, id, w);
    var s3 := Step(s2, Transition(w));
    ReachableStep(s2, Transition(w));
    s' := Step(s3, MarkRunning(w));
    ReachableStep(s3, MarkRunning(w));
  }

  /** When the pipeline already runs, the worker ends up about to release its claim. */
  lemma DriveToBackoff(s: State, w: WorkerId, id: JobId) returns (s': State)
    requires Reachable(s) && w in s.workers && s.workers[w].pc == Idle
    requires id in s.jobs && s.jobs[id].status == Queued && Taken(s.jobs, id, s.jobs[id], Running)
    ensures Reachable(s') && OnlyTouches(s, s', id, w)
    ensures s'.workers[w].pc.BackingOff? && s'.workers[w].job == id
    ensures s'.jobs[id].status == Claimed
  {
    var s2 := DriveToRunCreated(s, w, id);
    SameRunningRows(s, s2, id, w);
    s' := Step(s2, Transition(w));
    ReachableStep(s2, Transition(w));
  }

  /** An executing worker's execution succeeds, and the run row says so. */
  lemma DriveToRecorded(s: State, w: WorkerId) returns (s': State)
    requires Reachable(s) && w in s.workers && s.workers[w].pc.Executing?
    ensures Reachable(s') && s'.jobs == s.jobs && s'.runs == s.runs[s.workers[w].pc.run := RunSuccess]
    ensures s'.workers == s.workers[w := Worker(
      FinishingJob(s.workers[w].pc.run, true), s.workers[w].job, s.workers[w].epoch, false)]
  {
    var s1 := DriveToRecording(s, w);
    s' := Step(s1, RecordRun(w));
    ReachableStep(s1, RecordRun(w));
  }

  /** Its execution has succeeded; nothing is written yet. */
  lemma DriveToRecording(s: State, w: WorkerId) returns (s': State)
    requires Reachable(s) && w in s.workers && s.workers[w].pc.Executing?
    ensures Reachable(s') && s'.jobs == s.jobs && s'.runs == s.runs
    ensures s'.workers == s.workers[w := Worker(
      RecordingRun(s.workers[w].pc.run, true), s.workers[w].job, s.workers[w].epoch, false)]
  {
    s' := Step(s, Executed(w, true));
    ReachableStep(s, Executed(w, true));
  }

  /** An executing owner finishes its job. */
  lemma DriveToFinished(s: State, w: WorkerId) returns (s': State)
    requires Reachable(s) && w in s.workers && s.workers[w].pc.Executing?
    requires s.workers[w].job in s.jobs && s.jobs[s.workers[w].job].HeldBy(w)
    ensures Reachable(s') && OnlyTouches(s, s', s.workers[w].job, w)
    ensures s'.workers[w].pc == Idle && s'.jobs[s.workers[w].job].status == Succeeded
  {
    var s2 := DriveToRecorded(s, w);
    s' := Step(s2, FinishJob(w));
    ReachableStep(s2, FinishJob(w));
  }

  /** Job 0 of three workers' queue runs under worker 0. */
  lemma FirstJobRuns() returns (s: State)
    ensures Reachable(s) && s.jobs.Keys == {0} && s.workers.Keys == {0, 1, 2}
    ensures s.jobs[0].pipeline == "sales" && s.jobs[0].tenant == 1
    ensures s.jobs[0].status == Running && s.jobs[0].claimedBy == Some(0)
    ensures s.workers[0].pc.Executing? && s.workers[0].job == 0
    ensures s.jobs[0].runId == s.workers[0].pc.Run()
    ensures s.workers[1].pc == Idle && s.workers[2].pc == Idle
  {
    var idle := Worker(Idle, 0, 0, false);
    var s0 := State(map[], map[], map[0 := idle, 1 := idle, 2 := idle], {}, 0, 0, [], map[]);
    assert Execute(s0, []) == s0;
    var s1 := Step(s0, Enqueue(0, "sales", 1, 0));
    ReachableStep(s0, Enqueue(0, "sales", 1, 0));
    s := DriveToExecuting(s1, 0, 0);
  }

  /** Job 0 runs under worker 0; worker 1 claimed job 1 of the same pipeline and is about to release it. */
  lemma SecondJobBacksOff() returns (s: State)
    ensures Reachable(s) && s.jobs.Keys == {0, 1} && s.workers.Keys == {0, 1, 2}
    ensures s.jobs[0].SameSlot(s.jobs[1]) && s.jobs[1].status == Claimed
    ensures s.jobs[0].status == Running && s.jobs[0].claimedBy == Some(0)
    ensures s.workers[0].pc.Executing? && s.workers[0].job == 0
    ensures s.workers[1].pc.BackingOff? && s.workers[1].job == 1
    ensures s.workers[2].pc == Idle
  {
    var s2 := FirstJobRuns();
    var s3 := Step(s2, Enqueue(1, "sales", 1, 0));
    ReachableStep(s2, Enqueue(1, "sales", 1, 0));
    assert s3.jobs[1].SameSlot(s3.jobs[0]);
    s := DriveToBackoff(s3, 1, 1);
  }

  lemma ReclaimOne(s: State, id: JobId) returns (s': State)
    requires Reachable(s) && id in s.jobs && s.jobs[id].Active() && !Taken(s.jobs, id, s.jobs[id], Queued)
    ensures Reachable(s') && s'.workers == s.workers && s'.jobs == s.jobs[id := s.jobs[id].Requeued()]
    ensures s'.runs == s.runs && (s.jobs[id].runId.Some? ==> s.jobs[id].runId.value in s'.orphans)
    ensures s' == Step(s, Reclaim({id}))
  {
    s' := Step(s, Reclaim({id}));
    ReachableStep(s, Reclaim({id}));
    assert !FlipRefused(s.jobs, {id});
  }

  /** Worker 1 is still about to release job 1, which worker 2 has meanwhile taken over and runs. */
  lemma StalledReleaser() returns (s: State)
    ensures Reachable(s) && s.jobs.Keys == {0, 1} && s.workers.Keys == {0, 1, 2}
    ensures s.workers[1].pc.BackingOff? && s.workers[1].job == 1
    ensures s.workers[2].pc.Executing? && s.workers[2].job == 1
    ensures s.jobs[1].status == Running && s.jobs[1].claimedBy == Some(2)
    ensures s.jobs[0].status == Succeeded
  {
    var s4 := SecondJobBacksOff();
    var s5 := ReclaimOne(s4, 1);
    var s6 := DriveToFinished(s5, 0);
    s := DriveToExecuting(s6, 2, 1);
  }

  /** A late release takes a running job away from the worker that is executing it. */
  lemma ReleaseStealsARunningJob() returns (s: State, a: Action)
    ensures Reachable(s) && a == Release(1) && 1 in s.jobs && 2 in s.workers
    ensures s.jobs[1].status == Running && s.jobs[1].HeldBy(2) && s.workers[2].pc.Executing?
    ensures Step(s, a).jobs[1].status == Queued && Step(s, a).workers[2] == s.workers[2]
  {
    s := StalledReleaser();
    a := Release(1);
  }

  /** A late release puts a job that already succeeded back in the queue. */
  lemma ReleaseReopensAFinishedJob() returns (s: State, a: Action)
    ensures Reachable(s) && a == Release(1) && 1 in s.jobs
    ensures s.jobs[1].status == Succeeded && Step(s, a).jobs[1].status == Queued
  {
    var t := StalledReleaser();
    s := DriveToFinished(t, 2);
    a := Release(1);
  }

  /** Worker 0 executed run 0 and recorded its success, but the job had been reclaimed meanwhile. */
  lemma RunSucceedsAfterReclaim() returns (s: State)
    ensures Reachable(s) && s.jobs.Keys == {0} && s.workers.Keys == {0, 1, 2}
    ensures s.jobs[0].status == Queued && s.workers[0].pc == Idle && s.workers[1].pc == Idle
    ensures s.jobs[0].runId.Some? && s.jobs[0].runId.value in s.runs
    ensures s.runs[s.jobs[0].runId.value] == RunSuccess
  {
    var s1 := FirstJobRuns();
    var s2 := ReclaimOne(s1, 0);
    s := DriveToLateFinish(s2, 0);
  }

  /** A worker that has lost its job records its run's success; its finishing write changes nothing. */
  lemma DriveToLateFinish(s: State, w: WorkerId) returns (s': State)
    requires Reachable(s) && w in s.workers && s.workers[w].pc.Executing? && s.workers[w].job in s.jobs
    requires s.jobs[s.workers[w].job].status == Queued
    ensures Reachable(s') && s'.jobs == s.jobs && s'.workers.Keys == s.workers.Keys && s'.workers[w].pc == Idle
    ensures forall v :: v in s.workers && v != w ==> s'.workers[v] == s.workers[v]
    ensures s'.runs == s.runs[s.workers[w].pc.run := RunSuccess]
  {
    var s2 := DriveToRecorded(s, w);
    s' := Step(s2, FinishJob(w));
    ReachableStep(s2, FinishJob(w));
  }

  /**
   The reaper fails a run that had succeeded: the next worker claims the job and dies before it binds a
   run of its own, so the row still names the earlier one.
   */
  lemma ReaperFailsASucceededRun() returns (s: State, run: RunId)
    ensures Reachable(s) && run in s.runs && run in s.orphans && s.runs[run] == RunSuccess
    ensures Step(s, FailOrphan(run)).runs[run] == RunFailed
  {
    var s1 := RunSucceedsAfterReclaim();
    run := s1.jobs[0].runId.value;
    var s2 := Step(s1, Claim(1, 0, 0));
    ReachableStep(s1, Claim(1, 0, 0));
    var s3 := Step(s2, Crash(1));
    ReachableStep(s2, Crash(1));
    s := ReclaimOne(s3, 0);
  }

  /**
   The reaper fails a run that had succeeded: the worker recorded success and died before it finished the
   job, so its running row is reclaimed.
   */
  lemma ReaperFailsARunRecordedInTime() returns (s: State, run: RunId)
    ensures Reachable(s) && run in s.runs && run in s.orphans && s.runs[run] == RunSuccess
    ensures Step(s, FailOrphan(run)).runs[run] == RunFailed
  {
    var s1 := FirstJobRuns();
    run := s1.workers[0].pc.run;
    var s2 := DriveToRecorded(s1, 0);
    var s3 := Step(s2, Crash(0));
    ReachableStep(s2, Crash(0));
    s := ReclaimOne(s3, 0);
  }

  /** A worker that dies between creating its run and binding it leaves a run no reclaim will ever fail. */
  lemma CrashLeavesAQueuedRun() returns (s: State, run: RunId)
    ensures Reachable(s) && s.jobs.Keys == {0} && s.jobs[0].status == Queued
    ensures forall actions :: StaysQueued(s, run, actions)
  {
    var s3;
    s3, run := DiesBeforeBinding();
    s := ReclaimOne(s3, 0);
    StaysUnnamed(s3, Reclaim({0}), run);
    StaysAbandoned(s3, Reclaim({0}), run);
    forall actions ensures StaysQueued(s, run, actions) {
      UnnamedForGood(s, run, actions);
    }
  }

  ghost predicate StaysQueued(s: State, run: RunId, actions: seq<Action>) {
    run in Execute(s, actions).runs && Execute(s, actions).runs[run] == RunQueued
  }

  lemma DiesBeforeBinding() returns (s: State, run: RunId)
    ensures Reachable(s) && s.jobs.Keys == {0} && s.jobs[0].status == Claimed
    ensures Abandoned(s, run) && Unnamed(s, run) && s.runs[run] == RunQueued
  {
    var s1 := OneJobOneWorker();
    var s2 := DriveToRunCreated(s1, 0, 0);
    run := s2.workers[0].pc.run;
    s := CrashUnbound(s2, run);
  }

  lemma OneJobOneWorker() returns (s: State)
    ensures Reachable(s) && s.jobs.Keys == {0} && s.jobs[0].status == Queued
    ensures s.workers.Keys == {0} && s.workers[0].pc == Idle
  {
    var s0 := State(map[], map[], map[0 := Worker(Idle, 0, 0, false)], {}, 0, 0, [], map[]);
    assert Execute(s0, []) == s0;
    s := Step(s0, Enqueue(0, "sales", 1, 0));
    ReachableStep(s0, Enqueue(0, "sales", 1, 0));
  }

  lemma CrashUnbound(s: State, run: RunId) returns (s': State)
    requires Reachable(s) && s.workers.Keys == {0} && s.workers[0].pc == RunCreated(run)
    ensures Reachable(s') && s'.jobs == s.jobs && s'.runs == s.runs
    ensures Abandoned(s', run) && Unnamed(s', run)
  {
    assert Unnamed(s, run) && run in s.runs && run < s.nextRun by {
      ReachableRunInv(s);
      assert WorkerUnnamed(s, 0) && RunOk(s, 0);
    }
    s' := Step(s, Crash(0));
    ReachableStep(s, Crash(0));
  }

  /** A worker that was reclaimed, and whose run the reaper has failed, comes back and records success. */
  lemma ZombieOverwritesFailedRun() returns (s: State, run: RunId)
    ensures Reachable(s) && run in s.runs && s.runs[run] == RunFailed
    ensures 0 in s.jobs && s.jobs[0].status == Queued && 0 in s.workers && s.workers[0].pc == RecordingRun(run, true)
    ensures Step(s, RecordRun(0)).runs[run] == RunSuccess
  {
    var s1 := FirstJobRuns();
    run := s1.workers[0].pc.run;
    var s2 := ReclaimOne(s1, 0);
    var s3 := FailHanded(s2, run);
    s := DriveToRecording(s3, 0);
    RecordsSuccess(s, 0, run);
  }

  lemma RecordsSuccess(s: State, w: WorkerId, run: RunId)
    requires w in s.workers && s.workers[w].pc == RecordingRun(run, true)
    ensures run in Step(s, RecordRun(w)).runs && Step(s, RecordRun(w)).runs[run] == RunSuccess
  {
  }

  lemma FailHanded(s: State, run: RunId) returns (s': State)
    requires Reachable(s) && run in s.orphans
    ensures Reachable(s') && s'.jobs == s.jobs && s'.workers == s.workers && s'.runs == s.runs[run := RunFailed]
  {
    ReachableRunInv(s);
    s' := Step(s, FailOrphan(run));
    ReachableStep(s, FailOrphan(run));
  }
}
