/**
 Which run a job row names, and which run the reaper fails. `run_id` outlives the execution it was
 written for; these results hold of every row, whether its claimer is alive, crashed or gone.
 */
module ClaimRuns {
  import opened Wrappers
  import opened JobQueue
  import opened ClaimProtocol
  import opened ClaimInvariant

  /** The worker has written the end of its run, and is about to finish the job. */
  predicate Recorded(pc: Pc) {
    pc.FinishingJob? || (pc.FailingJob? && pc.recorded && pc.failed.Some?)
  }

  // ---- the invariant ------------------------------------------------------------------

  /** What the history says of a claim: its run was created, and only a created run has an end. */
  ghost predicate ExecutionOk(s: State, e: nat) {
    e in s.executions ==>
      && e < s.nextEpoch
      && (s.executions[e].run.Some? ==> s.executions[e].run.value in s.runs && s.executions[e].run.value < s.nextRun)
      && (s.executions[e].ended.Some? ==> s.executions[e].run.Some?)
  }

  /** No two claims share a run. */
  ghost predicate RunsApart(s: State, e: nat, f: nat) {
    e in s.executions && f in s.executions && e != f && s.executions[e].run.Some? ==>
      s.executions[e].run != s.executions[f].run
  }

  /** A worker inside `run_once` is where the history says its claim is. */
  ghost predicate WorkerOk(s: State, w: WorkerId) {
    w in s.workers && s.workers[w].pc.Engaged() ==>
      var me := s.workers[w];
      && me.epoch in s.executions
      && s.executions[me.epoch].job == me.job
      && s.executions[me.epoch].run == me.pc.Run()
      && (s.executions[me.epoch].ended.Some? <==> Recorded(me.pc))
  }

  ghost predicate EpochsApart(s: State, v: WorkerId, w: WorkerId) {
    v in s.workers && w in s.workers && v != w && s.workers[v].pc.Engaged() && s.workers[w].pc.Engaged() ==>
      s.workers[v].epoch != s.workers[w].epoch
  }

  /** `e` is the claim that created run `r`, and it was a claim of job `k`. */
  ghost predicate Created(s: State, e: nat, k: JobId, r: RunId) {
    e in s.executions && s.executions[e].job == k && s.executions[e].run == Some(r)
  }

  /** A row only ever names a run created by a claim of that row. */
  ghost predicate NamesOwn(s: State, k: JobId) {
    k in s.jobs && s.jobs[k].runId.Some? ==> exists e :: Created(s, e, k, s.jobs[k].runId.value)
  }

  /** The epoch of the claim under which a held row is held. */
  ghost predicate CurrentClaim(s: State, j: JobId, e: nat) {
    && j in s.jobs && s.jobs[j].Active()
    && LastOn(s.log, j).Some? && LastOn(s.log, j).value.ClaimedBy? && LastOn(s.log, j).value.epoch == e
  }

  /** A held row and the execution of its current claim. */
  ghost predicate HeldOk(s: State, j: JobId, e: nat) {
    CurrentClaim(s, j, e) ==>
      && e in s.executions && s.executions[e].job == j
      && (s.jobs[j].status == Running <==> s.executions[e].run.Some? && s.jobs[j].runId == s.executions[e].run)
      && (s.executions[e].run.Some? ==> OpenUntilEnded(s, s.executions[e]))
  }

  /** The execution's run is nobody's orphan, and stands as its execution left it. */
  ghost predicate OpenUntilEnded(s: State, x: Execution)
    requires x.run.Some?
  {
    var r := x.run.value;
    && r in s.runs && r !in s.orphans
    && (TerminalRun(s.runs[r]) <==> x.ended.Some?)
    && (x.ended.Some? ==> s.runs[r] == x.ended.value)
  }

  ghost predicate Unnamed(s: State, r: RunId) {
    r !in s.orphans && forall k :: k in s.jobs ==> s.jobs[k].runId != Some(r)
  }

  predicate NotBoundYet(pc: Pc) {
    pc.RunCreated? || pc.BackingOff? || pc.Cancelling?
  }

  ghost predicate WorkerUnnamed(s: State, w: WorkerId) {
    w in s.workers && NotBoundYet(s.workers[w].pc) ==> Unnamed(s, s.workers[w].pc.run)
  }

  /** No row names a cancelled run. */
  ghost predicate CancelledUnnamed(s: State, r: RunId) {
    r in s.runs && s.runs[r] == RunCancelled ==> Unnamed(s, r)
  }

  ghost predicate RunInv(s: State) {
    && (forall e :: ExecutionOk(s, e)) && (forall e, f :: RunsApart(s, e, f))
    && (forall w :: WorkerOk(s, w)) && (forall v, w :: EpochsApart(s, v, w))
    && (forall k :: NamesOwn(s, k)) && (forall j, e :: HeldOk(s, j, e))
    && (forall w :: WorkerUnnamed(s, w)) && (forall r :: CancelledUnnamed(s, r))
    && s.orphans <= s.runs.Keys
  }

  lemma InitialRunInv(s: State)
    requires Initial(s)
    ensures RunInv(s)
  {
  }

  // ---- what a step does to rows, workers, runs, orphans and history -----------------------

  /** A row's `run_id` changes only when its claimer's transition lands. */
  lemma RowNames(s: State, a: Action, k: JobId)
    requires k in Step(s, a).jobs && Step(s, a).jobs[k].runId.Some?
    ensures
      || (k in s.jobs && Step(s, a).jobs[k].runId == s.jobs[k].runId)
      || (Binds(s, a, k) && Step(s, a).jobs[k].runId == s.workers[a.w].pc.Run())
  {
  }

  predicate Binds(s: State, a: Action, k: JobId) {
    && a.Transition? && a.w in s.workers && s.workers[a.w].pc.RunCreated? && s.workers[a.w].job == k
    && TransitionOutcome(s.jobs, k, a.w) == Landed
  }

  /** Only a reclaim adds orphans: the runs its rows name. */
  lemma NewOrphans(s: State, a: Action, r: RunId)
    requires r in Step(s, a).orphans && r !in s.orphans
    ensures a.Reclaim? && ReclaimLands(s, a.ids)
    ensures a.Reclaim? && exists j :: j in a.ids && j in s.jobs && s.jobs[j].runId == Some(r)
  {
  }

  /** A run row is written by its own worker, or by the reaper if it is an orphan. */
  lemma RunWritten(s: State, a: Action, r: RunId)
    requires r in s.runs && r < s.nextRun && r !in s.orphans
    requires ByWorker(a) && a.w in s.workers ==> s.workers[a.w].pc.Run() != Some(r)
    ensures r in Step(s, a).runs && Step(s, a).runs[r] == s.runs[r]
  {
  }

  /** The step by which an acting worker changes what the history says of its claim. */
  predicate Notes(s: State, a: Action, e: nat) {
    && ByWorker(a) && a.w in s.workers && s.workers[a.w].pc.Engaged() && s.workers[a.w].epoch == e
    && (a.CreateRun? || a.CancelRun? || a.Executed? || a.RecordRun? || a.FailRun?)
  }

  /** A claim's history is written by its own worker only; its job never changes, its run at most once. */
  lemma HistoryKept(s: State, a: Action, e: nat)
    requires e in s.executions && e < s.nextEpoch
    ensures e in Step(s, a).executions && Step(s, a).executions[e].job == s.executions[e].job
    ensures Step(s, a).executions[e] == s.executions[e] || Notes(s, a, e)
    ensures Step(s, a).executions[e].run == s.executions[e].run || (a.CreateRun? && s.workers[a.w].pc == JustClaimed)
  {
  }

  lemma HistoryGrows(s: State, a: Action, e: nat)
    requires e in Step(s, a).executions && e !in s.executions
    ensures e == s.nextEpoch && a.Claim? && s.nextEpoch < Step(s, a).nextEpoch
    ensures var x := Step(s, a).executions[e]; x.run.None? && x.answered.None? && x.ended.None?
  {
  }

  lemma CountersGrow(s: State, a: Action)
    ensures s.nextRun <= Step(s, a).nextRun && s.nextEpoch <= Step(s, a).nextEpoch
  {
  }

  lemma RunsStay(s: State, a: Action)
    ensures s.runs.Keys <= Step(s, a).runs.Keys
  {
  }

  /** The runs a step adds are numbered from the counter on. */
  lemma CreatesRun(s: State, w: WorkerId)
    requires w in s.workers && s.workers[w].pc == JustClaimed && s.workers[w].epoch in s.executions
    ensures var s', e := Step(s, CreateRun(w)), s.workers[w].epoch;
      && s'.runs == s.runs[s.nextRun := RunQueued] && s'.nextRun == s.nextRun + 1
      && s'.executions == s.executions[e := s.executions[e].(run := Some(s.nextRun))]
      && s'.jobs == s.jobs && s'.orphans == s.orphans && s'.log == s.log
  {
  }

  // ---- the invariant is kept -----------------------------------------------------------------

  lemma KeepsExecution(s: State, a: Action, e: nat)
    requires Inv(s) && RunInv(s)
    ensures ExecutionOk(Step(s, a), e)
  {
    CountersGrow(s, a);
    RunsStay(s, a);
    if e in s.executions {
      assert ExecutionOk(s, e);
      HistoryKept(s, a, e);
      if Notes(s, a, e) {
        assert WorkerOk(s, a.w) && RunOk(s, a.w);
        NotedIsOk(s, a);
      }
    } else if e in Step(s, a).executions {
      HistoryGrows(s, a, e);
    }
  }

  lemma NotedIsOk(s: State, a: Action)
    requires ByWorker(a) && a.w in s.workers && Notes(s, a, s.workers[a.w].epoch) && Counters(s)
    requires WorkerOk(s, a.w) && RunOk(s, a.w) && ExecutionOk(s, s.workers[a.w].epoch)
    ensures ExecutionOk(Step(s, a), s.workers[a.w].epoch)
  {
  }

  lemma KeepsRunsApart(s: State, a: Action, e: nat, f: nat)
    requires Inv(s) && RunInv(s)
    ensures RunsApart(Step(s, a), e, f)
  {
    var s' := Step(s, a);
    assert RunsApart(s, e, f) && RunsApart(s, f, e) && ExecutionOk(s, e) && ExecutionOk(s, f);
    if e in s'.executions && f in s'.executions && e != f && s'.executions[e].run.Some? {
      RunSourceOf(s, a, e);
      RunSourceOf(s, a, f);
    }
  }

  /** Where a claim's run comes from: it had it before, or this step created it. */
  lemma RunSourceOf(s: State, a: Action, e: nat)
    requires RunInv(s) && e in Step(s, a).executions
    ensures e in s.executions || Step(s, a).executions[e].run.None?
    ensures e in s.executions ==>
      || Step(s, a).executions[e].run == s.executions[e].run
      || (Creates(s, a, e) && Step(s, a).executions[e].run == Some(s.nextRun))
  {
    if e in s.executions {
      assert ExecutionOk(s, e);
      HistoryKept(s, a, e);
      if Step(s, a).executions[e].run != s.executions[e].run {
        CreatesRun(s, a.w);
      }
    } else {
      HistoryGrows(s, a, e);
    }
  }

  /** The step creates the run of claim `e`. */
  predicate Creates(s: State, a: Action, e: nat) {
    a.CreateRun? && a.w in s.workers && s.workers[a.w].pc == JustClaimed && s.workers[a.w].epoch == e
  }

  lemma KeepsWorker(s: State, a: Action, w: WorkerId)
    requires Inv(s) && RunInv(s)
    ensures WorkerOk(Step(s, a), w)
  {
    assert WorkerOk(s, w);
    if ByWorker(a) && a.w == w {
      if w in s.workers {
        assert RunOk(s, w);
        SelfKeepsWorker(s, a);
      }
    } else {
      ForeignKeepsPlace(s, a, w);
      if w in s.workers && s.workers[w].pc.Engaged() {
        assert ExecutionOk(s, s.workers[w].epoch);
        HistoryKept(s, a, s.workers[w].epoch);
        assert ByWorker(a) ==> EpochsApart(s, w, a.w);
      }
    }
  }

  lemma SelfKeepsWorker(s: State, a: Action)
    requires ByWorker(a) && a.w in s.workers && WorkerOk(s, a.w) && RunOk(s, a.w)
    ensures WorkerOk(Step(s, a), a.w)
  {
    if a.FailRun? || a.RecordRun? {
      EndKeepsWorker(s, a);
    } else if LocalStep(a) {
      LocalKeepsWorker(s, a);
    } else {
      TableKeepsWorker(s, a);
    }
  }

  lemma EndKeepsWorker(s: State, a: Action)
    requires (a.FailRun? || a.RecordRun?) && a.w in s.workers && WorkerOk(s, a.w)
    ensures WorkerOk(Step(s, a), a.w)
  {
  }

  lemma LocalKeepsWorker(s: State, a: Action)
    requires LocalStep(a) && !a.FailRun? && !a.RecordRun? && a.w in s.workers && WorkerOk(s, a.w)
    ensures WorkerOk(Step(s, a), a.w)
  {
  }

  lemma TableKeepsWorker(s: State, a: Action)
    requires ByWorker(a) && !LocalStep(a) && a.w in s.workers && WorkerOk(s, a.w)
    ensures WorkerOk(Step(s, a), a.w)
  {
  }

  lemma KeepsEpochsApart(s: State, a: Action, v: WorkerId, w: WorkerId)
    requires Inv(s) && RunInv(s)
    ensures EpochsApart(Step(s, a), v, w)
  {
    EpochSource(s, a, v);
    EpochSource(s, a, w);
    assert EpochsApart(s, v, w);
  }

  /** A worker inside `run_once` keeps its epoch, or has just taken a fresh one. */
  lemma EpochSource(s: State, a: Action, w: WorkerId)
    requires RunInv(s)
    ensures var s' := Step(s, a);
      w in s'.workers && s'.workers[w].pc.Engaged() ==>
        || (w in s.workers && s.workers[w].pc.Engaged() && s'.workers[w].epoch == s.workers[w].epoch < s.nextEpoch)
        || (a.Claim? && a.w == w && s'.workers[w].epoch == s.nextEpoch)
  {
    assert WorkerOk(s, w);
    if w in s.workers {
      assert ExecutionOk(s, s.workers[w].epoch);
    }
    if ByWorker(a) && a.w == w {
      OwnEpoch(s, a);
    } else {
      ForeignKeepsPlace(s, a, w);
    }
  }

  lemma OwnEpoch(s: State, a: Action)
    requires ByWorker(a)
    ensures var s' := Step(s, a);
      a.w in s'.workers && s'.workers[a.w].pc.Engaged() ==>
        || (a.w in s.workers && s.workers[a.w].pc.Engaged() && s'.workers[a.w].epoch == s.workers[a.w].epoch)
        || (a.Claim? && s'.workers[a.w].epoch == s.nextEpoch)
  {
  }

  lemma KeepsNamesOwn(s: State, a: Action, k: JobId)
    requires Inv(s) && RunInv(s)
    ensures NamesOwn(Step(s, a), k)
  {
    var s' := Step(s, a);
    if k in s'.jobs && s'.jobs[k].runId.Some? {
      var r := s'.jobs[k].runId.value;
      RowNames(s, a, k);
      if k in s.jobs && s.jobs[k].runId == Some(r) {
        assert NamesOwn(s, k);
        var e :| Created(s, e, k, r);
        StaysCreated(s, a, e, k, r);
      } else {
        assert WorkerOk(s, a.w);
        StaysCreated(s, a, s.workers[a.w].epoch, k, r);
      }
    }
  }

  lemma StaysCreated(s: State, a: Action, e: nat, k: JobId, r: RunId)
    requires RunInv(s) && Created(s, e, k, r)
    ensures Created(Step(s, a), e, k, r)
  {
    assert ExecutionOk(s, e);
    HistoryKept(s, a, e);
    if ByWorker(a) {
      assert WorkerOk(s, a.w);
    }
  }

  lemma KeepsOrphansCreated(s: State, a: Action)
    requires RunInv(s)
    ensures Step(s, a).orphans <= Step(s, a).runs.Keys
  {
    RunsStay(s, a);
    forall r | r in Step(s, a).orphans ensures r in s.runs {
      if r !in s.orphans {
        NewOrphans(s, a, r);
        var j :| j in a.ids && j in s.jobs && s.jobs[j].runId == Some(r);
        assert NamesOwn(s, j);
        var e :| Created(s, e, j, r);
        assert ExecutionOk(s, e);
      }
    }
  }

  // ---- held rows ------------------------------------------------------------------------------

  predicate Claims(s: State, a: Action, j: JobId) {
    a.Claim? && a.id == j && a.w in s.workers && s.workers[a.w].pc == Idle && j in s.jobs && s.jobs[j].status == Queued
  }

  /** A row is held now because it has just been claimed, has just been bound, or was held before just so. */
  lemma RowKept(s: State, a: Action, j: JobId)
    requires j in Step(s, a).jobs && Step(s, a).jobs[j].Active() && !Claims(s, a, j)
    ensures j in s.jobs && s.jobs[j].Active()
    ensures !Binds(s, a, j) ==>
      Step(s, a).jobs[j].status == s.jobs[j].status && Step(s, a).jobs[j].runId == s.jobs[j].runId
    ensures Binds(s, a, j) ==>
      && Step(s, a).jobs[j].status == Running && Step(s, a).jobs[j].runId == s.workers[a.w].pc.Run()
      && s.jobs[j].HeldBy(a.w)
  {
    if Binds(s, a, j) {
      BoundRow(s, a.w, j);
    } else {
      UnboundRow(s, a, j);
    }
  }

  lemma BoundRow(s: State, w: WorkerId, j: JobId)
    requires Binds(s, ClaimProtocol.Transition(w), j)
    ensures var row := Step(s, ClaimProtocol.Transition(w)).jobs[j];
      row.status == Running && row.runId == s.workers[w].pc.Run() && s.jobs[j].HeldBy(w)
  {
  }

  lemma UnboundRow(s: State, a: Action, j: JobId)
    requires j in Step(s, a).jobs && Step(s, a).jobs[j].Active() && !Claims(s, a, j) && !Binds(s, a, j)
    ensures j in s.jobs && s.jobs[j].Active()
    ensures Step(s, a).jobs[j].status == s.jobs[j].status && Step(s, a).jobs[j].runId == s.jobs[j].runId
  {
    if ByWorker(a) && a.w in s.workers {
      UnboundRowByWorker(s, a, j);
    }
  }

  lemma UnboundRowByWorker(s: State, a: Action, j: JobId)
    requires ByWorker(a) && a.w in s.workers && j in Step(s, a).jobs && Step(s, a).jobs[j].Active()
    requires !Claims(s, a, j) && !Binds(s, a, j)
    ensures j in s.jobs && s.jobs[j].Active()
    ensures Step(s, a).jobs[j].status == s.jobs[j].status && Step(s, a).jobs[j].runId == s.jobs[j].runId
  {
    if LocalStep(a) {
      LocalKeepsJobs(s, a);
    }
  }

  lemma LocalKeepsJobs(s: State, a: Action)
    requires LocalStep(a)
    ensures Step(s, a).jobs == s.jobs
  {
  }

  /** The log grows by at most one event, and an event about a job that leaves it held is its claim. */
  lemma LogGrows(s: State, a: Action, j: JobId)
    requires j in Step(s, a).jobs && Step(s, a).jobs[j].Active() && !Claims(s, a, j)
    requires Inv(s)
    ensures LastOn(Step(s, a).log, j) == LastOn(s.log, j)
  {
    var s' := Step(s, a);
    if s'.log != s.log {
      OneEvent(s, a);
      LastOnAppend(s.log, s'.log[|s.log|], j);
      UntouchedIfHeld(s, a, j);
    }
  }

  lemma OneEvent(s: State, a: Action)
    requires Step(s, a).log != s.log
    ensures |Step(s, a).log| == |s.log| + 1 && Step(s, a).log == s.log + [Step(s, a).log[|s.log|]]
  {
  }

  lemma UntouchedIfHeld(s: State, a: Action, j: JobId)
    requires j in Step(s, a).jobs && Step(s, a).jobs[j].Active() && !Claims(s, a, j)
    requires |Step(s, a).log| == |s.log| + 1
    ensures !Step(s, a).log[|s.log|].Touches(j)
  {
  }

  lemma KeepsHeld(s: State, a: Action, j: JobId, e: nat)
    requires Inv(s) && RunInv(s)
    ensures HeldOk(Step(s, a), j, e)
  {
    var s' := Step(s, a);
    if CurrentClaim(s', j, e) {
      if Claims(s, a, j) {
        ClaimedIsHeld(s, a.w, j, a.now, e);
      } else {
        RowKept(s, a, j);
        LogGrows(s, a, j);
        assert HeldOk(s, j, e) && ExecutionOk(s, e);
        HistoryKept(s, a, e);
        KeepsNaming(s, a, j, e);
        KeepsOpen(s, a, j, e);
      }
    }
  }

  lemma ClaimedIsHeld(s: State, w: WorkerId, j: JobId, now: int, e: nat)
    requires Claims(s, Claim(w, j, now), j) && CurrentClaim(Step(s, Claim(w, j, now)), j, e)
    ensures HeldOk(Step(s, Claim(w, j, now)), j, e)
  {
    LastOnAppend(s.log, ClaimedBy(j, w, s.nextEpoch), j);
  }

  /** The holder's claim is the current one. */
  lemma HoldersEpoch(s: State, w: WorkerId, j: JobId, e: nat)
    requires Inv(s) && w in s.workers && s.workers[w].pc.Engaged() && s.workers[w].job == j
    requires CurrentClaim(s, j, e) && s.jobs[j].HeldBy(w)
    ensures s.workers[w].epoch == e
  {
    assert ClaimOk(s, w);
  }

  lemma KeepsNaming(s: State, a: Action, j: JobId, e: nat)
    requires Inv(s) && RunInv(s) && CurrentClaim(s, j, e) && CurrentClaim(Step(s, a), j, e) && !Claims(s, a, j)
    requires HeldOk(s, j, e) && e in Step(s, a).executions
    ensures var s' := Step(s, a);
      s'.jobs[j].status == Running <==> s'.executions[e].run.Some? && s'.jobs[j].runId == s'.executions[e].run
  {
    RowKept(s, a, j);
    RunSourceOf(s, a, e);
    if Binds(s, a, j) {
      HoldersEpoch(s, a.w, j, e);
      assert WorkerOk(s, a.w);
    } else if Creates(s, a, e) {
      CreatesRun(s, a.w);
      NextRunUnnamed(s);
      assert WorkerOk(s, a.w);
    }
  }

  lemma NextRunUnnamed(s: State)
    requires Inv(s) && RunInv(s)
    ensures Unnamed(s, s.nextRun)
  {
    forall k | k in s.jobs ensures s.jobs[k].runId != Some(s.nextRun) {
      assert NamesOwn(s, k);
      if s.jobs[k].runId.Some? {
        var e :| Created(s, e, k, s.jobs[k].runId.value);
        assert ExecutionOk(s, e);
      }
    }
  }

  lemma KeepsOpen(s: State, a: Action, j: JobId, e: nat)
    requires Inv(s) && RunInv(s) && CurrentClaim(s, j, e) && CurrentClaim(Step(s, a), j, e)
    requires HeldOk(s, j, e) && e in Step(s, a).executions
    ensures Step(s, a).executions[e].run.Some? ==> OpenUntilEnded(Step(s, a), Step(s, a).executions[e])
  {
    assert ExecutionOk(s, e);
    if ByWorker(a) && a.w in s.workers && s.workers[a.w].pc.Engaged() && s.workers[a.w].epoch == e {
      assert WorkerOk(s, a.w) && RunOk(s, a.w);
      OwnStepKeepsOpen(s, a);
    } else {
      HistoryKept(s, a, e);
      if s.executions[e].run.Some? {
        OtherStepKeepsOpen(s, a, j, e);
      }
    }
  }

  lemma OwnStepKeepsOpen(s: State, a: Action)
    requires Inv(s) && ByWorker(a) && a.w in s.workers && s.workers[a.w].pc.Engaged()
    requires WorkerOk(s, a.w) && RunOk(s, a.w) && s.orphans <= s.runs.Keys
    requires var x := s.executions[s.workers[a.w].epoch]; x.run.Some? ==> OpenUntilEnded(s, x)
    ensures OwnOpen(Step(s, a), s.workers[a.w].epoch)
  {
    if a.FailRun? || a.RecordRun? {
      EndKeepsOpen(s, a);
    } else if LocalStep(a) {
      LocalKeepsOpen(s, a);
    } else {
      TableKeepsOpen(s, a);
    }
  }

  ghost predicate OwnOpen(s: State, e: nat) {
    e in s.executions && (s.executions[e].run.Some? ==> OpenUntilEnded(s, s.executions[e]))
  }

  lemma EndKeepsOpen(s: State, a: Action)
    requires (a.FailRun? || a.RecordRun?) && a.w in s.workers && s.workers[a.w].pc.Engaged()
    requires WorkerOk(s, a.w) && RunOk(s, a.w) && OwnOpen(s, s.workers[a.w].epoch)
    ensures OwnOpen(Step(s, a), s.workers[a.w].epoch)
  {
  }

  lemma LocalKeepsOpen(s: State, a: Action)
    requires LocalStep(a) && !a.FailRun? && !a.RecordRun? && a.w in s.workers && s.workers[a.w].pc.Engaged()
    requires WorkerOk(s, a.w) && RunOk(s, a.w) && OwnOpen(s, s.workers[a.w].epoch)
    requires Counters(s) && s.orphans <= s.runs.Keys
    ensures OwnOpen(Step(s, a), s.workers[a.w].epoch)
  {
  }

  lemma TableKeepsOpen(s: State, a: Action)
    requires ByWorker(a) && !LocalStep(a) && a.w in s.workers && s.workers[a.w].pc.Engaged()
    requires WorkerOk(s, a.w) && OwnOpen(s, s.workers[a.w].epoch)
    ensures OwnOpen(Step(s, a), s.workers[a.w].epoch)
  {
  }

  lemma OtherStepKeepsOpen(s: State, a: Action, j: JobId, e: nat)
    requires Inv(s) && RunInv(s) && CurrentClaim(s, j, e) && CurrentClaim(Step(s, a), j, e) && HeldOk(s, j, e)
    requires s.executions[e].run.Some?
    requires ByWorker(a) && a.w in s.workers && s.workers[a.w].pc.Engaged() ==> s.workers[a.w].epoch != e
    ensures OpenUntilEnded(Step(s, a), s.executions[e])
  {
    var r := s.executions[e].run.value;
    assert ExecutionOk(s, e);
    if ByWorker(a) && a.w in s.workers && s.workers[a.w].pc.Engaged() {
      assert WorkerOk(s, a.w) && RunsApart(s, e, s.workers[a.w].epoch);
    }
    RunWritten(s, a, r);
    NamedOnlyBy(s, j, e, r);
    if r in Step(s, a).orphans {
      NewOrphans(s, a, r);
    }
  }

  /** Only the job of the claim that created it ever names a run. */
  lemma NamedOnlyBy(s: State, j: JobId, e: nat, r: RunId)
    requires RunInv(s) && Created(s, e, j, r)
    ensures forall k :: k in s.jobs && s.jobs[k].runId == Some(r) ==> k == j
  {
    forall k | k in s.jobs && s.jobs[k].runId == Some(r) ensures k == j {
      assert NamesOwn(s, k);
      var f :| Created(s, f, k, r);
      assert RunsApart(s, e, f);
    }
  }

  // ---- runs no row names ----------------------------------------------------------------------

  lemma StaysUnnamed(s: State, a: Action, r: RunId)
    requires Unnamed(s, r)
    requires forall k :: Binds(s, a, k) ==> s.workers[a.w].pc.Run() != Some(r)
    ensures Unnamed(Step(s, a), r)
  {
    forall k | k in Step(s, a).jobs ensures Step(s, a).jobs[k].runId != Some(r) {
      if Step(s, a).jobs[k].runId.Some? {
        RowNames(s, a, k);
      }
    }
    if r in Step(s, a).orphans {
      NewOrphans(s, a, r);
    }
  }

  lemma KeepsWorkerUnnamed(s: State, a: Action, w: WorkerId)
    requires Inv(s) && RunInv(s)
    ensures WorkerUnnamed(Step(s, a), w)
  {
    var s' := Step(s, a);
    if w in s'.workers && NotBoundYet(s'.workers[w].pc) {
      NotBoundSource(s, a, w);
      assert WorkerUnnamed(s, w);
      NextRunUnnamed(s);
      StaysUnnamed(s, a, s'.workers[w].pc.run);
    }
  }

  /** A worker not bound yet was not bound yet before, with the same run, or has just created its run. */
  lemma NotBoundSource(s: State, a: Action, w: WorkerId)
    requires w in Step(s, a).workers && NotBoundYet(Step(s, a).workers[w].pc)
    ensures w in s.workers && (a.Transition? && a.w == w ==> !Binds(s, a, s.workers[w].job))
    ensures
      || (NotBoundYet(s.workers[w].pc) && s.workers[w].pc.run == Step(s, a).workers[w].pc.run)
      || (a.CreateRun? && a.w == w && Step(s, a).workers[w].pc.run == s.nextRun)
  {
    if !ByWorker(a) || a.w != w {
      ForeignKeepsPlace(s, a, w);
    } else {
      OwnNotBoundSource(s, a);
    }
  }

  lemma OwnNotBoundSource(s: State, a: Action)
    requires ByWorker(a) && a.w in Step(s, a).workers && NotBoundYet(Step(s, a).workers[a.w].pc)
    ensures a.w in s.workers && (a.Transition? ==> !Binds(s, a, s.workers[a.w].job))
    ensures
      || (NotBoundYet(s.workers[a.w].pc) && s.workers[a.w].pc.run == Step(s, a).workers[a.w].pc.run)
      || (a.CreateRun? && Step(s, a).workers[a.w].pc.run == s.nextRun)
  {
    KeepsWorkersBack(s, a);
    if LocalStep(a) {
      LocalNotBound(s, a);
    } else {
      TableNotBound(s, a);
    }
  }

  lemma KeepsWorkersBack(s: State, a: Action)
    requires ByWorker(a) && a.w in Step(s, a).workers
    ensures a.w in s.workers
  {
  }

  lemma LocalNotBound(s: State, a: Action)
    requires LocalStep(a) && a.w in s.workers && a.w in Step(s, a).workers
    requires NotBoundYet(Step(s, a).workers[a.w].pc)
    ensures
      || (NotBoundYet(s.workers[a.w].pc) && s.workers[a.w].pc.run == Step(s, a).workers[a.w].pc.run)
      || (a.CreateRun? && Step(s, a).workers[a.w].pc.run == s.nextRun)
  {
  }

  lemma TableNotBound(s: State, a: Action)
    requires ByWorker(a) && !LocalStep(a) && a.w in s.workers && a.w in Step(s, a).workers
    requires NotBoundYet(Step(s, a).workers[a.w].pc)
    ensures NotBoundYet(s.workers[a.w].pc) && s.workers[a.w].pc.run == Step(s, a).workers[a.w].pc.run
    ensures a.Transition? ==> !Binds(s, a, s.workers[a.w].job)
  {
  }

  lemma KeepsCancelledUnnamed(s: State, a: Action, r: RunId)
    requires Inv(s) && RunInv(s)
    ensures CancelledUnnamed(Step(s, a), r)
  {
    if r in Step(s, a).runs && Step(s, a).runs[r] == RunCancelled {
      if r in s.runs && s.runs[r] == RunCancelled {
        assert CancelledUnnamed(s, r);
        forall k | Binds(s, a, k) ensures s.workers[a.w].pc.Run() != Some(r) {
          BoundRunIsOpen(s, a, k);
        }
      } else {
        CancelSource(s, a, r);
        assert WorkerUnnamed(s, a.w);
      }
      StaysUnnamed(s, a, r);
    }
  }

  lemma BoundRunIsOpen(s: State, a: Action, k: JobId)
    requires Inv(s) && RunInv(s) && Binds(s, a, k)
    ensures s.workers[a.w].pc.run in s.runs && !TerminalRun(s.runs[s.workers[a.w].pc.run])
  {
    var e := s.workers[a.w].epoch;
    assert ClaimOk(s, a.w) && WorkerOk(s, a.w);
    assert HeldOk(s, k, e);
  }

  lemma CancelSource(s: State, a: Action, r: RunId)
    requires r in Step(s, a).runs && Step(s, a).runs[r] == RunCancelled
    requires r in s.runs ==> s.runs[r] != RunCancelled
    ensures a.CancelRun? && a.w in s.workers && s.workers[a.w].pc == Cancelling(r)
  {
  }

  // ---- every run of the protocol ----------------------------------------------------------------

  lemma StepKeepsRunInv(s: State, a: Action)
    requires Inv(s) && RunInv(s)
    ensures RunInv(Step(s, a))
  {
    var s' := Step(s, a);
    KeepsOrphansCreated(s, a);
    forall e ensures ExecutionOk(s', e) { KeepsExecution(s, a, e); }
    forall e, f ensures RunsApart(s', e, f) { KeepsRunsApart(s, a, e, f); }
    forall w ensures WorkerOk(s', w) { KeepsWorker(s, a, w); }
    forall v, w ensures EpochsApart(s', v, w) { KeepsEpochsApart(s, a, v, w); }
    forall k ensures NamesOwn(s', k) { KeepsNamesOwn(s, a, k); }
    forall j, e ensures HeldOk(s', j, e) { KeepsHeld(s, a, j, e); }
    forall w ensures WorkerUnnamed(s', w) { KeepsWorkerUnnamed(s, a, w); }
    forall r ensures CancelledUnnamed(s', r) { KeepsCancelledUnnamed(s, a, r); }
  }

  lemma {:induction false} RunsKeepRunInv(s: State, actions: seq<Action>)
    requires Inv(s) && RunInv(s)
    ensures Inv(Execute(s, actions)) && RunInv(Execute(s, actions))
  {
    if actions != [] {
      var before := Execute(s, actions[..|actions| - 1]);
      RunsKeepRunInv(s, actions[..|actions| - 1]);
      StepKeepsInv(before, actions[|actions| - 1]);
      StepKeepsRunInv(before, actions[|actions| - 1]);
    }
  }

  lemma ReachableRunInv(s: State)
    requires Reachable(s)
    ensures Inv(s) && RunInv(s)
  {
    var s0, actions :| Initial(s0) && s == Execute(s0, actions);
    InitialInv(s0);
    InitialRunInv(s0);
    RunsKeepRunInv(s0, actions);
  }
}
