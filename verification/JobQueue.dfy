/**
 The `jobs` table and its transactions. Each queue call is one atomic statement: it either
 takes effect as a whole or, when a partial unique index refuses it, changes nothing.
 */
module JobQueue {
  import opened Wrappers

  type JobId = nat
  type RunId = nat
  type WorkerId = nat

  datatype JobStatus = Queued | Claimed | Running | Succeeded | Failed | Cancelled | TimedOut
  datatype Job = Job(
    pipeline: string, tenant: int, status: JobStatus, runId: Option<RunId>,
    claimedBy: Option<WorkerId>, heartbeatAt: Option<int>, scheduledFor: Option<int>,
    createdAt: int)
  {
    /** Held by some worker. */
    predicate Active() {
      status == Claimed || status == Running
    }

    predicate Terminal() {
      !Active() && status != Queued
    }

    predicate HeldBy(w: WorkerId) {
      Active() && claimedBy == Some(w)
    }

    predicate SameSlot(other: Job) {
      pipeline == other.pipeline && tenant == other.tenant
    }

    predicate Stale(now: int, threshold: int, tenantId: int) {
      Active() && tenant == tenantId && heartbeatAt.Some? && heartbeatAt.value < now - threshold
    }

    predicate Claimable(tenantId: int, now: int) {
      status == Queued && tenant == tenantId && (scheduledFor.None? || scheduledFor.value <= now)
    }

    function Requeued(): Job {
      this.(status := Queued, claimedBy := None, heartbeatAt := None)
    }
  }

  /** Some other row than `id` has this status in this pipeline and tenant. */
  ghost predicate OtherRow(jobs: Jobs, id: JobId, pipeline: string, tenant: int, status: JobStatus) {
    exists k :: k in jobs && k != id && RowIs(jobs[k], pipeline, tenant, status)
  }

  predicate RowIs(job: Job, pipeline: string, tenant: int, status: JobStatus) {
    job.status == status && job.pipeline == pipeline && job.tenant == tenant
  }

  /** Last stamped before the cutoff. */
  predicate Lapsed(job: Job, tenant: int, cutoff: int) {
    job.tenant == tenant && job.heartbeatAt.Some? && job.heartbeatAt.value < cutoff
  }

  type Jobs = map<JobId, Job>

  /** The claim order: by scheduled time, unscheduled rows last, and among equals by creation time. */
  predicate DueBefore(a: Job, b: Job) {
    || (a.scheduledFor.Some? && (b.scheduledFor.None? || a.scheduledFor.value < b.scheduledFor.value))
    || (a.scheduledFor == b.scheduledFor && a.createdAt < b.createdAt)
  }

  /** No later scheduled than `b` (unscheduled is latest), and if scheduled alike then created no later. */
  predicate ComesFirst(a: Job, b: Job) {
    && (b.scheduledFor.Some? ==> a.scheduledFor.Some? && a.scheduledFor.value <= b.scheduledFor.value)
    && (a.scheduledFor == b.scheduledFor ==> a.createdAt <= b.createdAt)
  }

  const STALE_THRESHOLD := 60_000_000
  const DEFAULT_TENANT := 1

  /** One of the two partial unique indexes: at most one row per (pipeline, tenant) in `status`. */
  ghost predicate UniquePerPipeline(jobs: Jobs, status: JobStatus) {
    forall i, j :: i in jobs && j in jobs && i != j ==>
      jobs[i].status == jobs[j].status == status ==> !jobs[i].SameSlot(jobs[j])
  }

  ghost predicate IndexesHold(jobs: Jobs) {
    UniquePerPipeline(jobs, Queued) && UniquePerPipeline(jobs, Running)
  }

  /** Another row of the same pipeline already has `status`. */
  predicate Taken(jobs: Jobs, id: JobId, job: Job, status: JobStatus) {
    exists k :: k in jobs && k != id && jobs[k].status == status && jobs[k].SameSlot(job)
  }

  // ---- the transactions as functions -----------------------------------------------

  datatype Transition = Landed | LostClaim | AlreadyRunning

  function TransitionOutcome(jobs: Jobs, id: JobId, w: WorkerId): Transition {
    if id !in jobs || jobs[id].status != Claimed || jobs[id].claimedBy != Some(w) then LostClaim
    else if Taken(jobs, id, jobs[id], Running) then AlreadyRunning
    else Landed
  }

  function AfterTransition(jobs: Jobs, id: JobId, run: RunId, w: WorkerId): Jobs {
    if TransitionOutcome(jobs, id, w) == Landed
    then jobs[id := jobs[id].(status := Running, runId := Some(run))]
    else jobs
  }

  function AfterClaim(jobs: Jobs, id: JobId, w: WorkerId, now: int): Jobs
    requires id in jobs
  {
    jobs[id := jobs[id].(status := Claimed, claimedBy := Some(w), heartbeatAt := Some(now))]
  }

  function AfterFinish(jobs: Jobs, id: JobId, status: JobStatus, w: WorkerId): Jobs {
    if id in jobs && jobs[id].HeldBy(w) then jobs[id := jobs[id].(status := status)] else jobs
  }

  /** `release_claim` names no worker: it requeues the row whoever holds it, unless an index refuses. */
  function AfterRelease(jobs: Jobs, id: JobId): Jobs
    requires id in jobs
  {
    if Taken(jobs, id, jobs[id], Queued) then jobs
    else jobs[id := jobs[id].(status := Queued, claimedBy := None)]
  }

  function AfterBeat(jobs: Jobs, id: JobId, w: WorkerId, now: int): Jobs {
    if id in jobs && jobs[id].claimedBy == Some(w) then jobs[id := jobs[id].(heartbeatAt := Some(now))] else jobs
  }

  /** The one-statement flip of a whole set of rows back to the queue. */
  function Flipped(jobs: Jobs, ids: set<JobId>): Jobs {
    map j | j in jobs :: if j in ids then jobs[j].Requeued() else jobs[j]
  }

  /** Two rows of one pipeline would be queued after the flip. */
  predicate FlipRefused(jobs: Jobs, ids: set<JobId>) {
    exists j, k :: j in jobs && k in jobs && j != k && j in ids
      && (k in ids || jobs[k].status == Queued) && jobs[j].SameSlot(jobs[k])
  }

  function AfterReclaim(jobs: Jobs, ids: set<JobId>): Jobs {
    if FlipRefused(jobs, ids) then jobs else Flipped(jobs, ids)
  }

  function StaleJobs(jobs: Jobs, now: int, threshold: int, tenant: int): set<JobId> {
    set j | j in jobs && jobs[j].Stale(now, threshold, tenant)
  }

  // ---- every transaction keeps the indexes --------------------------------------------

  lemma ClaimKeepsIndexes(jobs: Jobs, id: JobId, w: WorkerId, now: int)
    requires IndexesHold(jobs) && id in jobs && jobs[id].status == Queued
    ensures IndexesHold(AfterClaim(jobs, id, w, now))
  {
  }

  lemma TransitionKeepsIndexes(jobs: Jobs, id: JobId, run: RunId, w: WorkerId)
    requires IndexesHold(jobs)
    ensures IndexesHold(AfterTransition(jobs, id, run, w))
  {
  }

  lemma FinishKeepsIndexes(jobs: Jobs, id: JobId, status: JobStatus, w: WorkerId)
    requires IndexesHold(jobs) && status != Queued && status != Running
    ensures IndexesHold(AfterFinish(jobs, id, status, w))
  {
  }

  lemma ReleaseKeepsIndexes(jobs: Jobs, id: JobId)
    requires IndexesHold(jobs) && id in jobs
    ensures IndexesHold(AfterRelease(jobs, id))
  {
  }

  lemma BeatKeepsIndexes(jobs: Jobs, id: JobId, w: WorkerId, now: int)
    requires IndexesHold(jobs)
    ensures IndexesHold(AfterBeat(jobs, id, w, now))
  {
  }

  /** The reclaim statement violates the one-queued index exactly when `FlipRefused` says so. */
  lemma FlipRefusedExactly(jobs: Jobs, ids: set<JobId>)
    requires IndexesHold(jobs)
    ensures FlipRefused(jobs, ids) <==> !UniquePerPipeline(Flipped(jobs, ids), Queued)
  {
    var f := Flipped(jobs, ids);
    if FlipRefused(jobs, ids) {
      var j, k :| j in jobs && k in jobs && j != k && j in ids
        && (k in ids || jobs[k].status == Queued) && jobs[j].SameSlot(jobs[k]);
      assert f[j].status == Queued && f[k].status == Queued && f[j].SameSlot(f[k]);
    }
  }

  lemma ReclaimKeepsIndexes(jobs: Jobs, ids: set<JobId>)
    requires IndexesHold(jobs)
    ensures IndexesHold(AfterReclaim(jobs, ids))
  {
    FlipRefusedExactly(jobs, ids);
  }

  /**
   The reaper's pass is all or nothing, so one pipeline can hold back every other: a stale job whose
   pipeline has a queued successor keeps an unrelated pipeline's stale job from being reclaimed.
   */
  lemma OnePipelineBlocksTheWholePass(now: int)
    ensures exists jobs: Jobs ::
      && IndexesHold(jobs)
      && 2 in jobs && jobs[2].Stale(now, STALE_THRESHOLD, DEFAULT_TENANT)
      && (forall k :: k in jobs && k != 2 ==> !jobs[k].SameSlot(jobs[2]))
      && AfterReclaim(jobs, StaleJobs(jobs, now, STALE_THRESHOLD, DEFAULT_TENANT)) == jobs
  {
    var lapsed := Some(now - STALE_THRESHOLD - 1);
    var stuck := Job("sales", DEFAULT_TENANT, Running, Some(7), Some(1), lapsed, None, 0);
    var successor := Job("sales", DEFAULT_TENANT, Queued, None, None, None, None, 0);
    var unrelated := Job("stock", DEFAULT_TENANT, Running, Some(8), Some(2), lapsed, None, 0);
    var jobs: Jobs := map[0 := stuck, 1 := successor, 2 := unrelated];
    assert jobs[0].SameSlot(jobs[1]) && 0 in StaleJobs(jobs, now, STALE_THRESHOLD, DEFAULT_TENANT);
    assert FlipRefused(jobs, StaleJobs(jobs, now, STALE_THRESHOLD, DEFAULT_TENANT));
    assert "sales"[1] != "stock"[1];
    assert !jobs[0].SameSlot(jobs[2]) && !jobs[1].SameSlot(jobs[2]);
  }

  // ---- the queue object ------------------------------------------------------------

  datatype EnqueueResult = Enqueued(id: JobId) | QueuedJobAlreadyExists
  datatype ReclaimResult = Reclaimed(rows: ReclaimedRows) | IndexRefused

  class Queue {
    var jobs: Jobs

    ghost predicate Valid()
      reads this
    {
      IndexesHold(jobs)
    }

    /** Inserts a queued row unless the pipeline already has one. */
    method EnqueueScheduled(id: JobId, pipeline: string, tenant: int, scheduledFor: Option<int>, createdAt: int)
      returns (r: EnqueueResult)
      requires Valid() && id !in jobs
      modifies this
      ensures Valid()
      ensures var job := Job(pipeline, tenant, Queued, None, None, None, scheduledFor, createdAt);
        && (r == QueuedJobAlreadyExists <==> Taken(old(jobs), id, job, Queued))
        && (r != QueuedJobAlreadyExists ==> r == Enqueued(id))
        && jobs == if r == QueuedJobAlreadyExists then old(jobs) else old(jobs)[id := job]
      ensures r == QueuedJobAlreadyExists <==> OtherRow(old(jobs), id, pipeline, tenant, Queued)
    {
      var job := Job(pipeline, tenant, Queued, None, None, None, scheduledFor, createdAt);
      if Taken(jobs, id, job, Queued) {
        return QueuedJobAlreadyExists;
      }
      jobs := jobs[id := job];
      return Enqueued(id);
    }

    /** Claims an earliest-due claimable row among `open`: those no other claim has locked, with a fitting label. */
    method ClaimNext(worker: WorkerId, tenant: int, now: int, open: set<JobId>) returns (r: Option<JobId>)
      requires Valid()
      modifies this
      ensures Valid()
      ensures r.None? ==> jobs == old(jobs) && forall j :: j in open && j in jobs ==> !jobs[j].Claimable(tenant, now)
      ensures r.Some? ==>
        && r.value in open && r.value in old(jobs) && old(jobs)[r.value].Claimable(tenant, now)
        && jobs == AfterClaim(old(jobs), r.value, worker, now)
        && forall j :: j in open && j in old(jobs) && old(jobs)[j].Claimable(tenant, now) ==>
             ComesFirst(old(jobs)[r.value], old(jobs)[j])
      ensures r.Some? ==>
        && old(jobs)[r.value].status == Queued && old(jobs)[r.value].tenant == tenant
        && (old(jobs)[r.value].scheduledFor.Some? ==> old(jobs)[r.value].scheduledFor.value <= now)
        && jobs == old(jobs)[r.value := old(jobs)[r.value].(
             status := Claimed, claimedBy := Some(worker), heartbeatAt := Some(now))]
      ensures r.None? ==> forall j :: j in open && j in jobs && jobs[j].status == Queued && jobs[j].tenant == tenant ==>
        jobs[j].scheduledFor.Some? && jobs[j].scheduledFor.value > now
    {
      var todo := set j | j in open && j in jobs && jobs[j].Claimable(tenant, now);
      ghost var claimable, seen: set<JobId> := todo, {};
      r := None;
      while todo != {}
        invariant seen + todo == claimable
        invariant r.None? ==> seen == {}
        invariant r.Some? ==> r.value in seen
        invariant forall j :: j in seen && r.Some? ==> !DueBefore(jobs[j], jobs[r.value])
        decreases todo
      {
        var j :| j in todo;
        todo, seen := todo - {j}, seen + {j};
        if r.None? || DueBefore(jobs[j], jobs[r.value]) {
          r := Some(j);
        }
      }
      assert forall j :: j in open && j in jobs && jobs[j].Claimable(tenant, now) ==> j in claimable;
      if r.Some? {
        ClaimKeepsIndexes(jobs, r.value, worker, now);
        jobs := jobs[r.value := jobs[r.value].(status := Claimed, claimedBy := Some(worker), heartbeatAt := Some(now))];
      }
    }

    /** Promotes the worker's own claimed row, or reports why it cannot. */
    method TransitionToRunning(id: JobId, run: RunId, worker: WorkerId) returns (r: Transition)
      requires Valid()
      modifies this
      ensures Valid() && r == TransitionOutcome(old(jobs), id, worker)
      ensures jobs == AfterTransition(old(jobs), id, run, worker)
      ensures r == LostClaim <==>
        !(id in old(jobs) && old(jobs)[id].status == Claimed && old(jobs)[id].claimedBy == Some(worker))
      ensures r == AlreadyRunning ==> OtherRow(jobs, id, jobs[id].pipeline, jobs[id].tenant, Running)
      ensures jobs == if r == Landed then old(jobs)[id := old(jobs)[id].(status := Running, runId := Some(run))]
                      else old(jobs)
    {
      TransitionKeepsIndexes(jobs, id, run, worker);
      if id !in jobs || jobs[id].claimedBy != Some(worker) || jobs[id].status != Claimed {
        return LostClaim;
      }
      if Taken(jobs, id, jobs[id], Running) {
        return AlreadyRunning;
      }
      jobs := jobs[id := jobs[id].(status := Running, runId := Some(run))];
      return Landed;
    }

    method MarkFinished(id: JobId, status: JobStatus, worker: WorkerId) returns (landed: bool)
      requires Valid() && status != Queued && status != Running
      modifies this
      ensures Valid() && (landed <==> id in old(jobs) && old(jobs)[id].HeldBy(worker))
      ensures jobs == AfterFinish(old(jobs), id, status, worker)
      ensures landed <==>
        && id in old(jobs) && old(jobs)[id].claimedBy == Some(worker)
        && (old(jobs)[id].status == Claimed || old(jobs)[id].status == Running)
      ensures jobs == if landed then old(jobs)[id := old(jobs)[id].(status := status)] else old(jobs)
    {
      FinishKeepsIndexes(jobs, id, status, worker);
      landed := id in jobs && jobs[id].claimedBy == Some(worker) && jobs[id].Active();
      if landed {
        jobs := jobs[id := jobs[id].(status := status)];
      }
    }

    /** `false` when the one-queued index refuses the write. */
    method ReleaseClaim(id: JobId) returns (released: bool)
      requires Valid() && id in jobs
      modifies this
      ensures Valid() && jobs == AfterRelease(old(jobs), id)
      ensures released <==> !Taken(old(jobs), id, old(jobs)[id], Queued)
      ensures released <==> !OtherRow(old(jobs), id, old(jobs)[id].pipeline, old(jobs)[id].tenant, Queued)
      ensures jobs == if released then old(jobs)[id := old(jobs)[id].(status := Queued, claimedBy := None)]
                      else old(jobs)
    {
      ReleaseKeepsIndexes(jobs, id);
      released := !Taken(jobs, id, jobs[id], Queued);
      if released {
        jobs := jobs[id := jobs[id].(status := Queued, claimedBy := None)];
      }
    }

    method UpdateHeartbeat(id: JobId, now: int, worker: WorkerId)
      requires Valid() && id in jobs
      modifies this
      ensures Valid() && jobs == AfterBeat(old(jobs), id, worker, now)
      ensures jobs == if old(jobs)[id].claimedBy == Some(worker)
                      then old(jobs)[id := old(jobs)[id].(heartbeatAt := Some(now))] else old(jobs)
    {
      BeatKeepsIndexes(jobs, id, worker, now);
      if jobs[id].claimedBy != Some(worker) {
        return;
      }
      jobs := jobs[id := jobs[id].(heartbeatAt := Some(now))];
    }

    /** Flips every stale row not locked by another transaction, or none if the index refuses. */
    method ReclaimStale(now: int, threshold: int, tenant: int, locked: set<JobId>) returns (r: ReclaimResult)
      requires Valid()
      modifies this
      ensures Valid()
      ensures var ids := StaleJobs(old(jobs), now, threshold, tenant) - locked;
        && jobs == AfterReclaim(old(jobs), ids)
        && (r == IndexRefused <==> FlipRefused(old(jobs), ids))
        && (r.Reclaimed? ==>
              r.rows == map j | j in ids && j in old(jobs) :: (old(jobs)[j].runId, old(jobs)[j].claimedBy))
      ensures r.Reclaimed? ==> jobs.Keys == old(jobs).Keys && forall j :: j in old(jobs) ==>
        && (j in r.rows <==>
              j !in locked && Lapsed(old(jobs)[j], tenant, now - threshold)
              && (old(jobs)[j].status == Claimed || old(jobs)[j].status == Running))
        && jobs[j] == if j in r.rows then old(jobs)[j].(status := Queued, claimedBy := None, heartbeatAt := None)
                      else old(jobs)[j]
      ensures r == IndexRefused ==> jobs == old(jobs)
    {
      var ids := StaleJobs(jobs, now, threshold, tenant) - locked;
      ReclaimKeepsIndexes(jobs, ids);
      if FlipRefused(jobs, ids) {
        return IndexRefused;
      }
      r := Reclaimed(map j | j in ids && j in jobs :: (jobs[j].runId, jobs[j].claimedBy));
      jobs := Flipped(jobs, ids);
    }
  }

  // ---- the reaper's pass -------------------------------------------------------------

  datatype RunStatus = RunQueued | RunRunning | RunSuccess | RunFailed | RunCancelled

  predicate TerminalRun(s: RunStatus) {
    s == RunSuccess || s == RunFailed || s == RunCancelled
  }

  class Repository {
    var runs: map<RunId, RunStatus>

    method UpdateRunStatus(id: RunId, status: RunStatus)
      requires id in runs
      modifies this
      ensures runs == old(runs)[id := status]
    {
      runs := runs[id := status];
    }
  }

  type ReclaimedRows = map<JobId, (Option<RunId>, Option<WorkerId>)>

  /** The runs named by the reclaimed rows of `js`, open or not. */
  ghost function RunsAmong(rows: ReclaimedRows, js: set<JobId>): set<RunId> {
    set j | j in js && j in rows && rows[j].0.Some? :: rows[j].0.value
  }

  /** One of the reclaimed rows names the run. */
  ghost predicate Names(rows: ReclaimedRows, run: RunId) {
    exists j :: j in rows && rows[j].0 == Some(run)
  }

  /** Every run in `ids` marked failed. */
  ghost function RunsFailed(runs: map<RunId, RunStatus>, ids: set<RunId>): map<RunId, RunStatus> {
    map r | r in runs :: if r in ids then RunFailed else runs[r]
  }

  /**
   One pass: reclaim, then fail the run each reclaimed row names, whatever state that run is in. A run
   update that raises ends the pass: the reclaim stays, and the runs not reached are left as they are.
   */
  method ReapStaleOnce(
      queue: Queue, repository: Repository, now: int, tenant: int, locked: set<JobId>, raises: RunId -> bool)
    returns (r: ReclaimResult, completed: bool, ghost failed: set<RunId>)
    requires queue.Valid()
    requires forall j :: j in queue.jobs && queue.jobs[j].runId.Some? ==> queue.jobs[j].runId.value in repository.runs
    modifies queue, repository
    ensures var ids := StaleJobs(old(queue.jobs), now, STALE_THRESHOLD, tenant) - locked;
      && queue.Valid() && queue.jobs == AfterReclaim(old(queue.jobs), ids)
      && (r == IndexRefused <==> FlipRefused(old(queue.jobs), ids))
      && (r == IndexRefused ==> failed == {} && !completed)
      && (r.Reclaimed? ==> r.rows.Keys == ids && FailsUntilRaise(r.rows, raises, completed, failed))
      && repository.runs == RunsFailed(old(repository.runs), failed)
    ensures repository.runs.Keys == old(repository.runs).Keys
    ensures forall run :: run in repository.runs && repository.runs[run] != old(repository.runs)[run] ==>
      repository.runs[run] == RunFailed && r.Reclaimed? && Names(r.rows, run)
    ensures completed ==> r.Reclaimed? && forall run :: run in repository.runs && Names(r.rows, run) ==>
      repository.runs[run] == RunFailed
  {
    completed, failed := false, {};
    r := queue.ReclaimStale(now, STALE_THRESHOLD, tenant, locked);
    if r == IndexRefused {
      return;
    }
    completed, failed := FailRuns(repository, r.rows, raises);
  }

  /** All the named runs were failed, or one update raised, and only runs whose updates do not raise were failed. */
  ghost predicate FailsUntilRaise(rows: ReclaimedRows, raises: RunId -> bool, completed: bool, failed: set<RunId>) {
    && failed <= RunsAmong(rows, rows.Keys)
    && (forall run :: run in failed ==> !raises(run))
    && (completed ==> failed == RunsAmong(rows, rows.Keys))
    && (!completed ==> exists run :: run in RunsAmong(rows, rows.Keys) && raises(run))
  }

  method FailRuns(repository: Repository, rows: ReclaimedRows, raises: RunId -> bool)
    returns (completed: bool, ghost failed: set<RunId>)
    requires RunsAmong(rows, rows.Keys) <= repository.runs.Keys
    modifies repository
    ensures FailsUntilRaise(rows, raises, completed, failed)
    ensures repository.runs == RunsFailed(old(repository.runs), failed)
  {
    var pending := rows.Keys;
    failed := {};
    while pending != {}
      invariant RunsAmong(rows, rows.Keys) == failed + RunsAmong(rows, pending)
      invariant forall run :: run in failed ==> !raises(run)
      invariant repository.runs == RunsFailed(old(repository.runs), failed)
      invariant pending <= rows.Keys
      decreases pending
    {
      var j :| j in pending;
      var run := rows[j].0;
      pending := pending - {j};
      if run.Some? {
        assert run.value in RunsAmong(rows, rows.Keys);
        if raises(run.value) {
          return false, failed;
        }
        repository.UpdateRunStatus(run.value, RunFailed);
        failed := failed + {run.value};
      }
    }
    completed := true;
  }
}
