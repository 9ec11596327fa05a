/** Every interleaving of the protocol's steps keeps the invariant. */
module ClaimInvariant {
  import opened Wrappers
  import opened JobQueue
  import opened ClaimProtocol

  // ---- steps that leave the job table and the log alone ---------------------------------

  predicate Early(pc: Pc) {
    pc.JustClaimed? || pc.RunCreated?
  }

  /** Only worker `w`'s program counter and the run rows it may write differ. */
  ghost predicate OnlyWorkerMoves(s: State, s': State, w: WorkerId)
    requires w in s.workers
  {
    && s'.jobs == s.jobs && s'.log == s.log && s'.nextEpoch == s.nextEpoch
    && s'.workers.Keys == s.workers.Keys
    && (forall v :: v in s.workers && v != w ==> s'.workers[v] == s.workers[v])
    && s'.workers[w].job == s.workers[w].job && s'.workers[w].epoch == s.workers[w].epoch
    && (s'.workers[w].pc.Engaged() ==> s.workers[w].pc.Engaged())
    && (Early(s'.workers[w].pc) ==> Early(s.workers[w].pc))
  }

  lemma MoveKeepsClaims(s: State, s': State, w: WorkerId)
    requires Inv(s) && w in s.workers && OnlyWorkerMoves(s, s', w)
    requires s'.workers[w].pc.Cancelling? ==> !(s.workers[w].job in s.jobs && s.jobs[s.workers[w].job].HeldBy(w))
    ensures forall j :: j in s'.jobs ==> JobOk(s', j)
    ensures forall v :: v in s'.workers ==> ClaimOk(s', v)
  {
    forall j | j in s'.jobs ensures JobOk(s', j) {
      assert JobOk(s, j);
    }
    forall v | v in s'.workers ensures ClaimOk(s', v) {
      assert ClaimOk(s, v);
    }
  }

  /** Run rows only change at `w`'s own run, at a fresh id, or towards "failed". */
  ghost predicate RunsWrittenBy(s: State, s': State, w: WorkerId)
    requires w in s.workers
  {
    && s.runs.Keys <= s'.runs.Keys
    && s.nextRun <= s'.nextRun && (forall r :: r in s'.runs ==> r < s'.nextRun)
    && (forall r :: r in s.runs && s.workers[w].pc.Run() != Some(r) ==> s'.runs[r] == s.runs[r])
  }

  lemma MoveKeepsRuns(s: State, s': State, w: WorkerId)
    requires Inv(s) && w in s.workers && OnlyWorkerMoves(s, s', w) && RunsWrittenBy(s, s', w)
    requires RunOk(s', w)
    requires s'.workers[w].pc.Run() == s.workers[w].pc.Run() || s'.workers[w].pc.Run() == None
      || (s'.workers[w].pc.Run().value >= s.nextRun)
    ensures RunsDistinct(s') && forall v :: v in s'.workers ==> RunOk(s', v)
  {
    forall v | v in s'.workers ensures RunOk(s', v) {
      assert RunOk(s, v);
    }
    forall v | v in s.workers && v != w
      ensures s'.workers[v].pc.Run() != s'.workers[w].pc.Run() || s'.workers[v].pc.Run().None?
    {
      assert RunOk(s, v);
    }
  }

  lemma MoveKeepsInv(s: State, s': State, w: WorkerId)
    requires Inv(s) && w in s.workers && OnlyWorkerMoves(s, s', w) && RunsWrittenBy(s, s', w)
    requires RunOk(s', w)
    requires s'.workers[w].pc.Run() == s.workers[w].pc.Run() || s'.workers[w].pc.Run() == None
      || (s'.workers[w].pc.Run().value >= s.nextRun)
    requires s'.workers[w].pc.Cancelling? ==> !(s.workers[w].job in s.jobs && s.jobs[s.workers[w].job].HeldBy(w))
    ensures Inv(s')
  {
    MoveKeepsClaims(s, s', w);
    MoveKeepsRuns(s, s', w);
  }

  // ---- steps on the job table ----------------------------------------------------------

  /** A table step with its log entry: how a changed row must be accounted for. */
  ghost predicate Accounted(s: State, s': State, e: Option<Event>) {
    && s'.jobs.Keys >= s.jobs.Keys
    && s'.runs == s.runs && s'.nextRun == s.nextRun && s'.workers == s.workers
    && s'.log == (if e.Some? then s.log + [e.value] else s.log)
    && (forall j :: j in s'.jobs ==> RowAccounted(s, s', e, j))
  }

  /** Either the row's holding is as before and untouched by the event, or the row ends up held by nobody. */
  ghost predicate RowAccounted(s: State, s': State, e: Option<Event>, j: JobId)
    requires j in s'.jobs
  {
    || !s'.jobs[j].Active()
    || (j in s.jobs && s.jobs[j].Active() && s.jobs[j].claimedBy == s'.jobs[j].claimedBy
        && s.jobs[j].status == s'.jobs[j].status
        && (e.Some? ==> !e.value.Touches(j)))
  }

  lemma TableStepKeepsInv(s: State, s': State, e: Option<Event>)
    requires Inv(s) && Accounted(s, s', e) && IndexesHold(s'.jobs)
    requires s'.nextEpoch == s.nextEpoch
    requires e.Some? ==> !e.value.ClaimedBy? && EventFenced(s'.log, |s.log|)
    ensures Inv(s')
  {
    if e.Some? {
      FencedAppend(s.log, e.value);
    }
    forall j | j in s'.jobs ensures JobOk(s', j) {
      assert RowAccounted(s, s', e, j);
      if s'.jobs[j].Active() {
        assert JobOk(s, j);
        if e.Some? {
          LastOnAppend(s.log, e.value, j);
        }
      }
    }
    forall w | w in s'.workers ensures ClaimOk(s', w) && RunOk(s', w) {
      assert ClaimOk(s, w) && RunOk(s, w);
      var j := s.workers[w].job;
      if s.workers[w].pc.Engaged() {
        assert RowAccounted(s, s', e, j);
        if e.Some? {
          LastOnAppend(s.log, e.value, j);
        }
      }
    }
  }

  lemma EnqueueKeepsInv(s: State, id: JobId, pipeline: string, tenant: int, now: int)
    requires Inv(s)
    ensures Inv(Step(s, Enqueue(id, pipeline, tenant, now)))
  {
    var s' := Step(s, Enqueue(id, pipeline, tenant, now));
    if s' != s {
      forall j | j in s'.jobs ensures RowAccounted(s, s', None, j) {
      }
      TableStepKeepsInv(s, s', None);
    }
  }

  lemma BeatKeepsInv(s: State, w: WorkerId, now: int)
    requires Inv(s) && w in s.workers
    ensures Inv(Step(s, Beat(w, now)))
  {
    var s' := Step(s, Beat(w, now));
    BeatKeepsIndexes(s.jobs, s.workers[w].job, w, now);
    forall j | j in s'.jobs ensures RowAccounted(s, s', None, j) {
    }
    TableStepKeepsInv(s, s', None);
  }

  lemma FinishedKeepsInv(s: State, w: WorkerId, status: JobStatus)
    requires Inv(s) && w in s.workers && s.workers[w].pc.Engaged() && (status == Succeeded || status == Failed)
    ensures Inv(MarkFinished(s, w, status))
    ensures var id := s.workers[w].job;
      id in s.jobs && id in MarkFinished(s, w, status).jobs && !MarkFinished(s, w, status).jobs[id].HeldBy(w)
  {
    var id := s.workers[w].job;
    var s' := MarkFinished(s, w, status);
    assert ClaimOk(s, w);
    if s.jobs[id].HeldBy(w) {
      var e := FinishedBy(id, w, s.workers[w].epoch);
      FinishKeepsIndexes(s.jobs, id, status, w);
      assert s'.log[..|s.log|] == s.log;
      forall j | j in s'.jobs ensures RowAccounted(s, s', Some(e), j) {
      }
      TableStepKeepsInv(s, s', Some(e));
    }
  }

  lemma ReleaseRowKeepsInv(s: State, w: WorkerId)
    requires Inv(s) && w in s.workers && s.workers[w].job in s.jobs
    requires !Taken(s.jobs, s.workers[w].job, s.jobs[s.workers[w].job], Queued)
    ensures Inv(s.(jobs := AfterRelease(s.jobs, s.workers[w].job), log := s.log + [ReleasedBy(s.workers[w].job, w)]))
  {
    var id := s.workers[w].job;
    var e := ReleasedBy(id, w);
    var s' := s.(jobs := AfterRelease(s.jobs, id), log := s.log + [e]);
    ReleaseKeepsIndexes(s.jobs, id);
    forall j | j in s'.jobs ensures RowAccounted(s, s', Some(e), j) {
    }
    TableStepKeepsInv(s, s', Some(e));
  }

  lemma ReclaimKeepsInv(s: State, ids: set<JobId>)
    requires Inv(s)
    ensures Inv(Step(s, Reclaim(ids)))
  {
    var s' := Step(s, Reclaim(ids));
    if s' != s {
      var e := ReclaimedAll(ids);
      var t := s'.(orphans := s.orphans);
      ReclaimKeepsIndexes(s.jobs, ids);
      assert t.log[..|s.log|] == s.log;
      forall j | j in ids ensures LastOn(s.log, j).Some? && LastOn(s.log, j).value.ClaimedBy? {
        assert JobOk(s, j);
      }
      forall j | j in t.jobs ensures RowAccounted(s, t, Some(e), j) {
      }
      TableStepKeepsInv(s, t, Some(e));
      OrphansAreFree(t, s');
    }
  }

  lemma OrphansAreFree(s: State, s': State)
    requires Inv(s) && s' == s.(orphans := s'.orphans)
    ensures Inv(s')
  {
    assert forall j :: j in s.jobs ==> JobOk(s, j) ==> JobOk(s', j);
    assert forall w :: w in s.workers ==> ClaimOk(s, w) && RunOk(s, w) ==> ClaimOk(s', w) && RunOk(s', w);
  }

  lemma FailOrphanKeepsInv(s: State, run: RunId)
    requires Inv(s)
    ensures Inv(Step(s, FailOrphan(run)))
  {
    var s' := Step(s, FailOrphan(run));
    forall j | j in s'.jobs ensures JobOk(s', j) {
      assert JobOk(s, j);
    }
    forall w | w in s'.workers ensures ClaimOk(s', w) && RunOk(s', w) {
      assert ClaimOk(s, w) && RunOk(s, w);
    }
  }

  lemma ClaimKeepsInv(s: State, w: WorkerId, id: JobId, now: int)
    requires Inv(s) && w in s.workers
    ensures Inv(Step(s, Claim(w, id, now)))
  {
    var s' := Step(s, Claim(w, id, now));
    if s' != s {
      ClaimKeepsIndexes(s.jobs, id, w, now);
      var e := ClaimedBy(id, w, s.nextEpoch);
      assert s'.log[..|s.log|] == s.log;
      FencedAppend(s.log, e);
      forall j ensures LastOn(s'.log, j) == if j == id then Some(e) else LastOn(s.log, j) {
        LastOnAppend(s.log, e, j);
      }
      forall j | j in s'.jobs ensures JobOk(s', j) {
        assert j != id ==> JobOk(s, j);
      }
      forall v | v in s'.workers ensures ClaimOk(s', v) && RunOk(s', v) {
        assert ClaimOk(s, v) && RunOk(s, v);
      }
    }
  }

  lemma LandedKeepsInv(s: State, w: WorkerId)
    requires Inv(s) && w in s.workers && s.workers[w].pc.RunCreated?
    requires TransitionOutcome(s.jobs, s.workers[w].job, w) == Landed
    ensures Inv(Step(s, Transition(w)))
  {
    var s' := Step(s, Transition(w));
    var id, run := s.workers[w].job, s.workers[w].pc.run;
    JobQueue.TransitionKeepsIndexes(s.jobs, id, run, w);
    assert ClaimOk(s, w) && RunOk(s, w);
    forall j | j in s'.jobs ensures JobOk(s', j) {
      assert JobOk(s, j);
    }
    forall v | v in s'.workers ensures ClaimOk(s', v) && RunOk(s', v) {
      assert ClaimOk(s, v) && RunOk(s, v);
    }
  }

  lemma TransitionKeepsInv(s: State, w: WorkerId)
    requires Inv(s) && w in s.workers
    ensures Inv(Step(s, Transition(w)))
  {
    var me := s.workers[w];
    if me.pc.RunCreated? {
      assert ClaimOk(s, w) && RunOk(s, w);
      if TransitionOutcome(s.jobs, me.job, w) == Landed {
        LandedKeepsInv(s, w);
      } else {
        MoveKeepsInv(s, Step(s, Transition(w)), w);
      }
    }
  }

  lemma ReleaseKeepsInv(s: State, w: WorkerId)
    requires Inv(s) && w in s.workers
    ensures Inv(Step(s, Release(w)))
  {
    var me := s.workers[w];
    if me.pc.BackingOff? {
      assert ClaimOk(s, w) && RunOk(s, w);
      if Taken(s.jobs, me.job, s.jobs[me.job], Queued) {
        ThenFails(s, w, me.pc.run);
      } else {
        ReleaseRowKeepsInv(s, w);
        ThenCancels(Requeue(s, w), w, me.pc.run);
      }
    }
  }

  function Requeue(s: State, w: WorkerId): State
    requires w in s.workers && s.workers[w].job in s.jobs
  {
    s.(jobs := AfterRelease(s.jobs, s.workers[w].job), log := s.log + [ReleasedBy(s.workers[w].job, w)])
  }

  lemma ThenFails(s: State, w: WorkerId, run: RunId)
    requires Inv(s) && w in s.workers && s.workers[w].pc == BackingOff(run)
    ensures Inv(s.Move(w, FailingRun(Some(run))))
  {
    var s' := s.Move(w, FailingRun(Some(run)));
    assert RunOk(s, w) && s'.workers[w].pc.Run() == s.workers[w].pc.Run();
    assert RunOk(s', w);
    MoveKeepsInv(s, s', w);
  }

  lemma ThenCancels(t: State, w: WorkerId, run: RunId)
    requires Inv(t) && w in t.workers && t.workers[w].pc == BackingOff(run)
    requires t.workers[w].job in t.jobs && !t.jobs[t.workers[w].job].HeldBy(w)
    ensures Inv(t.Move(w, Cancelling(run)))
  {
    assert RunOk(t, w);
    MoveKeepsInv(t, t.Move(w, Cancelling(run)), w);
  }

  lemma FinishStepKeepsInv(s: State, a: Action)
    requires Inv(s) && (a.FinishJob? || a.FailJob?) && a.w in s.workers
    ensures Inv(Step(s, a))
  {
    var w := a.w;
    var pc := s.workers[w].pc;
    assert ClaimOk(s, w) && RunOk(s, w);
    if a.FinishJob? && pc.FinishingJob? {
      FinishedKeepsInv(s, w, TerminalStatus(pc.success));
      ThenLeaves(MarkFinished(s, w, TerminalStatus(pc.success)), w);
    } else if a.FailJob? && pc.FailingJob? {
      FinishedKeepsInv(s, w, Failed);
      ThenLeaves(if a.landed then MarkFinished(s, w, Failed) else s, w);
    }
  }

  lemma ThenLeaves(t: State, w: WorkerId)
    requires Inv(t) && w in t.workers && !t.workers[w].pc.Executing?
    ensures Inv(t.Move(w, Idle))
  {
    assert RunOk(t, w);
    MoveKeepsInv(t, t.Move(w, Idle), w);
  }

  // ---- every step, and every run -------------------------------------------------------

  /** Steps that write at most the worker's own run row. */
  predicate LocalStep(a: Action) {
    a.CreateRun? || a.CancelRun? || a.MarkRunning? || a.Executed? || a.RecordRun? || a.FailRun?
    || a.Fault? || a.Crash?
  }

  /** What a local step does, in the terms the invariant's frame lemma needs. */
  ghost predicate LocalShape(s: State, s': State, w: WorkerId)
    requires w in s.workers
  {
    && OnlyWorkerMoves(s, s', w) && RunsWrittenBy(s, s', w) && RunOk(s', w)
    && (s'.workers[w].pc.Cancelling? ==> s.workers[w].pc.Cancelling?)
    && (s'.workers[w].pc.Run() == s.workers[w].pc.Run() || s'.workers[w].pc.Run() == None
        || s'.workers[w].pc.Run().value >= s.nextRun)
  }

  lemma LocalKeepsInv(s: State, a: Action)
    requires Inv(s) && LocalStep(a) && a.w in s.workers
    ensures Inv(Step(s, a))
  {
    assert ClaimOk(s, a.w) && RunOk(s, a.w);
    if a.CreateRun? {
      CreateRunShape(s, a);
    } else if a.CancelRun? || a.MarkRunning? {
      EarlyStepShape(s, a);
    } else if a.Executed? || a.RecordRun? {
      LateStepShape(s, a);
    } else if a.FailRun? {
      FailRunShape(s, a.w, a.landed);
    } else if a.Fault? {
      FaultShape(s, a.w);
    } else {
      CrashShape(s, a);
    }
    MoveKeepsInv(s, Step(s, a), a.w);
  }

  lemma CreateRunShape(s: State, a: Action)
    requires a.CreateRun? && Counters(s) && a.w in s.workers && RunOk(s, a.w)
    ensures LocalShape(s, Step(s, a), a.w)
  {
  }

  lemma EarlyStepShape(s: State, a: Action)
    requires a.CancelRun? || a.MarkRunning?
    requires Counters(s) && a.w in s.workers && RunOk(s, a.w)
    ensures LocalShape(s, Step(s, a), a.w)
  {
  }

  lemma LateStepShape(s: State, a: Action)
    requires a.Executed? || a.RecordRun?
    requires Counters(s) && a.w in s.workers && RunOk(s, a.w)
    ensures LocalShape(s, Step(s, a), a.w)
  {
  }

  lemma FailRunShape(s: State, w: WorkerId, landed: bool)
    requires Counters(s) && w in s.workers && RunOk(s, w)
    ensures LocalShape(s, Step(s, FailRun(w, landed)), w)
  {
    var pc := s.workers[w].pc;
    if pc.FailingRun? && pc.failed.Some? && landed {
      var t := s.(runs := s.runs[pc.failed.value := RunFailed]).NoteEnd(w, RunFailed);
      OwnWriteShape(s, t, w, RunFailed, FailingJob(pc.failed, true));
    }
  }

  /** A step that writes the worker's own run row and moves the worker on. */
  lemma OwnWriteShape(s: State, t: State, w: WorkerId, status: RunStatus, pc: Pc)
    requires w in s.workers && s.workers[w].pc.Engaged() && s.workers[w].pc.Run().Some? && Counters(s) && RunOk(s, w)
    requires t.jobs == s.jobs && t.log == s.log && t.workers == s.workers
    requires t.nextEpoch == s.nextEpoch && t.nextRun == s.nextRun
    requires t.runs == s.runs[s.workers[w].pc.Run().value := status]
    requires !Early(pc)
    ensures OnlyWorkerMoves(s, t.Move(w, pc), w) && RunsWrittenBy(s, t.Move(w, pc), w)
  {
  }

  lemma FaultShape(s: State, w: WorkerId)
    requires Counters(s) && w in s.workers && RunOk(s, w)
    ensures LocalShape(s, Step(s, Fault(w)), w)
  {
  }

  lemma CrashShape(s: State, a: Action)
    requires a.Crash? && Counters(s) && a.w in s.workers && RunOk(s, a.w)
    ensures LocalShape(s, Step(s, a), a.w)
  {
  }

  lemma StepKeepsInv(s: State, a: Action)
    requires Inv(s)
    ensures Inv(Step(s, a))
  {
    if ByWorker(a) && a.w !in s.workers {
    } else if LocalStep(a) {
      LocalKeepsInv(s, a);
    } else {
      match a
      case Enqueue(id, pipeline, tenant, now) => EnqueueKeepsInv(s, id, pipeline, tenant, now);
      case Reclaim(ids) => ReclaimKeepsInv(s, ids);
      case FailOrphan(run) => FailOrphanKeepsInv(s, run);
      case AbandonOrphans => OrphansAreFree(s, Step(s, a));
      case Claim(w, id, now) => ClaimKeepsInv(s, w, id, now);
      case Transition(w) => TransitionKeepsInv(s, w);
      case Release(w) => ReleaseKeepsInv(s, w);
      case Beat(w, now) => BeatKeepsInv(s, w, now);
      case FinishJob(_) => FinishStepKeepsInv(s, a);
      case FailJob(_, _) => FinishStepKeepsInv(s, a);
    }
  }

  lemma {:induction false} RunsKeepInv(s: State, actions: seq<Action>)
    requires Inv(s)
    ensures Inv(Execute(s, actions))
  {
    if actions != [] {
      RunsKeepInv(s, actions[..|actions| - 1]);
      StepKeepsInv(Execute(s, actions[..|actions| - 1]), actions[|actions| - 1]);
    }
  }

  ghost predicate Reachable(s: State) {
    exists s0, actions :: Initial(s0) && s == Execute(s0, actions)
  }

  lemma ReachableStep(s: State, a: Action)
    requires Reachable(s)
    ensures Reachable(Step(s, a))
  {
    var s0, actions :| Initial(s0) && s == Execute(s0, actions);
    var more := actions + [a];
    assert more[..|more| - 1] == actions;
    assert Step(s, a) == Execute(s0, more);
  }

  lemma ReachableInv(s: State)
    requires Reachable(s)
    ensures Inv(s)
  {
    var s0, actions :| Initial(s0) && s == Execute(s0, actions);
    InitialInv(s0);
    RunsKeepInv(s0, actions);
  }

  // ---- whose step moves a worker -----------------------------------------------------------

  /** A step of somebody else, or of the worker's heartbeat task. */
  predicate Foreign(a: Action, w: WorkerId) {
    ByWorker(a) ==> a.w != w || a.Beat?
  }

  lemma ForeignKeepsPlace(s: State, a: Action, w: WorkerId)
    requires Foreign(a, w)
    ensures w in Step(s, a).workers <==> w in s.workers
    ensures w in s.workers ==> Step(s, a).workers[w] == s.workers[w]
  {
    if ByWorker(a) && LocalStep(a) {
      LocalStepKeepsOthers(s, a, w);
    } else if ByWorker(a) {
      TableStepKeepsOthers(s, a, w);
    }
  }

  lemma LocalStepKeepsOthers(s: State, a: Action, w: WorkerId)
    requires LocalStep(a) && a.w != w
    ensures w in Step(s, a).workers <==> w in s.workers
    ensures w in s.workers ==> Step(s, a).workers[w] == s.workers[w]
  {
    if a.RecordRun? || a.FailRun? || a.Fault? {
      EndStepKeepsOthers(s, a, w);
    }
  }

  lemma EndStepKeepsOthers(s: State, a: Action, w: WorkerId)
    requires (a.RecordRun? || a.FailRun? || a.Fault?) && a.w != w
    ensures w in Step(s, a).workers <==> w in s.workers
    ensures w in s.workers ==> Step(s, a).workers[w] == s.workers[w]
  {
  }

  lemma TableStepKeepsOthers(s: State, a: Action, w: WorkerId)
    requires ByWorker(a) && !LocalStep(a) && Foreign(a, w)
    ensures w in Step(s, a).workers <==> w in s.workers
    ensures w in s.workers ==> Step(s, a).workers[w] == s.workers[w]
  {
  }

  lemma KeepsWorkers(s: State, a: Action, w: WorkerId)
    requires w in s.workers
    ensures w in Step(s, a).workers
  {
    if Foreign(a, w) {
      ForeignKeepsPlace(s, a, w);
    } else if LocalStep(a) {
      LocalStepStays(s, a);
    }
  }

  lemma LocalStepStays(s: State, a: Action)
    requires LocalStep(a) && a.w in s.workers
    ensures a.w in Step(s, a).workers
  {
  }
}
