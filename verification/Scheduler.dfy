/** The scheduler's pass over due schedules, and the `schedules` rows it advances. */
module Scheduler {
  import opened Wrappers
  import opened Cron
  import JobQueue

  type ScheduleId = nat

  datatype Schedule = Schedule(
    pipeline: string, cron: string, paused: bool, nextFiresAt: Option<int>, lastFiredAt: Option<int>)
  {
    predicate Due(now: int) {
      !paused && nextFiresAt.Some? && nextFiresAt.value <= now
    }
  }

  type Rows = map<ScheduleId, Schedule>

  /** What a cron expression (with its time zone) denotes. */
  type Calendar = string -> Ticks

  ghost predicate ProperCalendar(c: Calendar) {
    forall e :: Increasing(c(e))
  }

  /** One schedule per pipeline. */
  ghost predicate OnePerPipeline(rows: Rows) {
    forall a, b :: a in rows && b in rows && a != b ==> rows[a].pipeline != rows[b].pipeline
  }

  /** `set_last_fired`: the advance starts from the OLD `next_fires_at`, not from `now`. */
  function AfterFire(c: Calendar, s: Schedule, now: int): Schedule
    requires ProperCalendar(c)
  {
    var anchor := if s.nextFiresAt.Some? then s.nextFiresAt.value else now;
    s.(lastFiredAt := Some(now), nextFiresAt := Some(NextTickAfter(c(s.cron), anchor)))
  }

  class Schedules {
    var rows: Rows

    method ListDue(now: int) returns (due: set<ScheduleId>)
      ensures forall s :: s in due <==>
        s in rows && !rows[s].paused && rows[s].nextFiresAt.Some? && rows[s].nextFiresAt.value <= now
    {
      due := set s | s in rows && rows[s].Due(now);
    }

    method SetLastFired(id: ScheduleId, now: int, calendar: Calendar)
      requires id in rows && ProperCalendar(calendar)
      modifies this
      ensures rows == old(rows)[id := AfterFire(calendar, old(rows)[id], now)]
      ensures rows[id].lastFiredAt == Some(now)
      ensures var was := old(rows)[id];
        rows[id].nextFiresAt
          == Some(NextTickAfter(calendar(was.cron), if was.nextFiresAt.Some? then was.nextFiresAt.value else now))
    {
      var schedule := rows[id];
      var anchor := if schedule.nextFiresAt.Some? then schedule.nextFiresAt.value else now;
      schedule := schedule.(lastFiredAt := Some(now));
      schedule := schedule.(nextFiresAt := Some(NextTickAfter(calendar(schedule.cron), anchor)));
      rows := rows[id := schedule];
    }
  }

  /** What became of a due schedule: the tick it was stamped with, and the job if the enqueue landed. */
  datatype Attempt = Attempt(scheduledFor: int, job: Option<JobQueue.JobId>)

  /** The row an enqueue inserts. */
  function FiredJob(pipeline: string, scheduledFor: int, createdAt: int): JobQueue.Job {
    JobQueue.Job(
      pipeline, JobQueue.DEFAULT_TENANT, JobQueue.Queued, None, None, None, Some(scheduledFor), createdAt)
  }

  /** Due, and its label resolver does not raise. */
  predicate Fires(rows: Rows, id: ScheduleId, now: int, resolves: string -> bool) {
    id in rows && rows[id].Due(now) && resolves(rows[id].pipeline)
  }

  /**
   What a pass may do to the schedules: it attempts the unpaused rows whose next fire time has come and whose
   label resolves, moves each of those on from that time, and leaves every other row as it was.
   */
  ghost predicate FiresExactly(
      rows: Rows, after: Rows, now: int, resolves: string -> bool, attempts: map<ScheduleId, Attempt>)
  {
    && attempts.Keys <= rows.Keys == after.Keys
    && forall s :: s in rows ==>
         && (s in attempts <==>
               !rows[s].paused && rows[s].nextFiresAt.Some? && rows[s].nextFiresAt.value <= now
               && resolves(rows[s].pipeline))
         && (if s in attempts then MovedOn(rows[s], after[s], now) else after[s] == rows[s])
  }

  ghost predicate MovedOn(row: Schedule, after: Schedule, now: int)
    requires row.nextFiresAt.Some?
  {
    && after.lastFiredAt == Some(now) && after.nextFiresAt.Some? && after.nextFiresAt.value > row.nextFiresAt.value
    && after.pipeline == row.pipeline && after.cron == row.cron && after.paused == row.paused
  }

  lemma ProgressFiresExactly(
      rows: Rows, jobs: JobQueue.Jobs, rowsNow: Rows, jobsNow: JobQueue.Jobs, now: int, calendar: Calendar,
      resolves: string -> bool, attempts: map<ScheduleId, Attempt>)
    requires ProperCalendar(calendar)
    requires Progress(rows, jobs, rowsNow, jobsNow, now, calendar, resolves, rows.Keys, attempts)
    ensures FiresExactly(rows, rowsNow, now, resolves, attempts)
  {
    forall s | s in rows && s in attempts ensures MovedOn(rows[s], rowsNow[s], now) {
      NextTickIsLeast(calendar(rows[s].cron), rows[s].nextFiresAt.value);
    }
  }

  predicate HasQueued(jobs: JobQueue.Jobs, pipeline: string) {
    exists k :: k in jobs && jobs[k].status == JobQueue.Queued && jobs[k].pipeline == pipeline
      && jobs[k].tenant == JobQueue.DEFAULT_TENANT
  }

  ghost function RowsAfter(
      rows: Rows, now: int, calendar: Calendar, resolves: string -> bool, done: set<ScheduleId>): Rows
    requires ProperCalendar(calendar)
  {
    map s | s in rows ::
      if s in done && Fires(rows, s, now, resolves) then AfterFire(calendar, rows[s], now) else rows[s]
  }

  /** The attempts made for the schedules of `done`: one each, stamped with the canonical tick. */
  ghost predicate AttemptsFor(
      rows: Rows, jobs: JobQueue.Jobs, now: int, calendar: Calendar, resolves: string -> bool,
      done: set<ScheduleId>, attempts: map<ScheduleId, Attempt>)
    requires ProperCalendar(calendar)
  {
    && attempts.Keys == (set s | s in done && Fires(rows, s, now, resolves))
    && forall s :: s in attempts && s in rows ==> AttemptAt(rows[s], jobs, now, calendar, attempts[s])
  }

  /** The enqueue lands exactly when the pipeline has no queued job yet. */
  ghost predicate AttemptAt(row: Schedule, jobs: JobQueue.Jobs, now: int, calendar: Calendar, attempt: Attempt)
    requires ProperCalendar(calendar)
  {
    && attempt.scheduledFor == ThisTickAt(calendar(row.cron), now)
    && (attempt.job.Some? <==> !HasQueued(jobs, row.pipeline))
  }

  function FiredSet(attempts: map<ScheduleId, Attempt>): set<ScheduleId> {
    set s | s in attempts && attempts[s].job.Some?
  }

  function FiredCount(attempts: map<ScheduleId, Attempt>): nat {
    |FiredSet(attempts)|
  }

  function JobsOf(attempts: map<ScheduleId, Attempt>, ss: set<ScheduleId>): set<JobQueue.JobId> {
    set s | s in ss && s in attempts && attempts[s].job.Some? :: attempts[s].job.value
  }

  function FiredJobs(attempts: map<ScheduleId, Attempt>): set<JobQueue.JobId> {
    JobsOf(attempts, FiredSet(attempts))
  }

  /** A fired schedule has its own new job, queued for its pipeline and stamped with its tick. */
  ghost predicate PlacedAt(
      rows: Rows, before: JobQueue.Jobs, now: JobQueue.Jobs, attempts: map<ScheduleId, Attempt>, s: ScheduleId)
    requires s in attempts && attempts[s].job.Some?
  {
    var j := attempts[s].job.value;
    && s in rows && j !in before && j in now
    && now[j] == FiredJob(rows[s].pipeline, attempts[s].scheduledFor, now[j].createdAt)
  }

  /** The queue gains exactly one such job per fired schedule, and is otherwise as it was. */
  ghost predicate QueuedAfter(
      rows: Rows, before: JobQueue.Jobs, now: JobQueue.Jobs, attempts: map<ScheduleId, Attempt>)
  {
    && now.Keys == before.Keys + FiredJobs(attempts)
    && (forall j :: j in before ==> j in now && now[j] == before[j])
    && (forall s :: s in FiredSet(attempts) ==> PlacedAt(rows, before, now, attempts, s))
    && JobsDistinct(attempts)
  }

  ghost predicate JobsDistinct(attempts: map<ScheduleId, Attempt>) {
    forall s, t :: s in FiredSet(attempts) && t in FiredSet(attempts) && s != t ==> attempts[s].job != attempts[t].job
  }

  ghost predicate IdsBelow(jobs: JobQueue.Jobs, bound: nat) {
    forall j :: j in jobs ==> j < bound
  }

  /** Handles one due row; the row advances whether the enqueue lands or is a duplicate. */
  method FireOne(
      schedules: Schedules, queue: JobQueue.Queue, id: ScheduleId, now: int, calendar: Calendar, jobId: nat)
    returns (attempt: Attempt)
    requires schedules as object != queue && queue.Valid() && ProperCalendar(calendar)
    requires id in schedules.rows && IdsBelow(queue.jobs, jobId)
    modifies schedules, queue
    ensures queue.Valid() && IdsBelow(queue.jobs, jobId + 1)
    ensures schedules.rows == old(schedules.rows)[id := AfterFire(calendar, old(schedules.rows)[id], now)]
    ensures var s := old(schedules.rows)[id];
      && AttemptAt(s, old(queue.jobs), now, calendar, attempt)
      && Enqueues(old(queue.jobs), queue.jobs, s.pipeline, attempt, jobId, now)
  {
    var schedule := schedules.rows[id];
    var scheduledFor := ThisTickAt(calendar(schedule.cron), now);
    ghost var before := queue.jobs;
    var r := queue.EnqueueScheduled(jobId, schedule.pipeline, JobQueue.DEFAULT_TENANT, Some(scheduledFor), now);
    attempt := Attempt(scheduledFor, if r == JobQueue.QueuedJobAlreadyExists then None else Some(r.id));
    TakenMeansQueued(before, jobId, FiredJob(schedule.pipeline, scheduledFor, now));
    schedules.SetLastFired(id, now, calendar);
  }

  /** A landed attempt inserted its row under `id`; any other attempt inserted nothing. */
  ghost predicate Enqueues(
      before: JobQueue.Jobs, after: JobQueue.Jobs, pipeline: string, attempt: Attempt, id: JobQueue.JobId,
      createdAt: int)
  {
    && id !in before
    && (attempt.job.Some? ==> attempt.job == Some(id))
    && after == if attempt.job.Some? then before[id := FiredJob(pipeline, attempt.scheduledFor, createdAt)] else before
  }

  lemma TakenMeansQueued(jobs: JobQueue.Jobs, id: nat, job: JobQueue.Job)
    requires id !in jobs && job.tenant == JobQueue.DEFAULT_TENANT
    ensures JobQueue.Taken(jobs, id, job, JobQueue.Queued) <==> HasQueued(jobs, job.pipeline)
  {
    if HasQueued(jobs, job.pipeline) {
      var k :| k in jobs && jobs[k].status == JobQueue.Queued && jobs[k].pipeline == job.pipeline
        && jobs[k].tenant == JobQueue.DEFAULT_TENANT;
      assert jobs[k].SameSlot(job);
    }
  }

  /** The schedules still to handle in a pass are due; all others count as done. */
  ghost predicate Remaining(rows: Rows, due: set<ScheduleId>, done: set<ScheduleId>, now: int) {
    done == rows.Keys - due && forall s :: s in due ==> s in rows && rows[s].Due(now)
  }

  lemma TakeOne(rows: Rows, due: set<ScheduleId>, done: set<ScheduleId>, id: ScheduleId, now: int)
    requires Remaining(rows, due, done, now) && id in due
    ensures id in rows && id !in done && rows[id].Due(now)
    ensures Remaining(rows, due - {id}, done + {id}, now)
  {
  }

  /** Handles one due row of the pass: a raising label resolver skips the row and leaves it as it was. */
  method HandleOne(
      schedules: Schedules, queue: JobQueue.Queue, id: ScheduleId, now: int, calendar: Calendar,
      resolves: string -> bool, jobId: nat, ghost rows: Rows, ghost jobs: JobQueue.Jobs,
      ghost done: set<ScheduleId>, attempts: map<ScheduleId, Attempt>)
    returns (attempts': map<ScheduleId, Attempt>, enqueued: bool)
    requires schedules as object != queue && queue.Valid() && ProperCalendar(calendar) && OnePerPipeline(rows)
    requires id in rows && id !in done && rows[id].Due(now) && IdsBelow(queue.jobs, jobId)
    requires Progress(rows, jobs, schedules.rows, queue.jobs, now, calendar, resolves, done, attempts)
    modifies schedules, queue
    ensures queue.Valid() && IdsBelow(queue.jobs, jobId + 1)
    ensures Progress(rows, jobs, schedules.rows, queue.jobs, now, calendar, resolves, done + {id}, attempts')
    ensures FiredCount(attempts') == FiredCount(attempts) + (if enqueued then 1 else 0)
  {
    KeepsRow(rows, jobs, schedules.rows, queue.jobs, now, calendar, resolves, done, attempts, id);
    if !resolves(schedules.rows[id].pipeline) {
      return attempts, false;
    }
    ghost var rows0, jobs0 := schedules.rows, queue.jobs;
    var attempt := FireOne(schedules, queue, id, now, calendar, jobId);
    CountOneMore(attempts, id, attempt);
    OneMoreDone(
      rows, jobs, rows0, jobs0, schedules.rows, queue.jobs, now, calendar, resolves, done, attempts, id, attempt,
      jobId);
    return attempts[id := attempt], attempt.job.Some?;
  }

  /**
   One pass: every due row whose label resolves is attempted once with its canonical tick and advanced;
   a row whose resolver raises is left as it was; nothing else changes.
   */
  method RunDueOnce(
      schedules: Schedules, queue: JobQueue.Queue, now: int, calendar: Calendar, resolves: string -> bool,
      firstJobId: nat)
    returns (fired: nat, attempts: map<ScheduleId, Attempt>)
    requires schedules as object != queue && queue.Valid() && ProperCalendar(calendar)
    requires OnePerPipeline(schedules.rows) && IdsBelow(queue.jobs, firstJobId)
    modifies schedules, queue
    ensures queue.Valid()
    ensures Progress(
      old(schedules.rows), old(queue.jobs), schedules.rows, queue.jobs, now, calendar, resolves,
      old(schedules.rows).Keys, attempts)
    ensures FiresExactly(old(schedules.rows), schedules.rows, now, resolves, attempts)
    ensures fired == FiredCount(attempts) && |queue.jobs| == |old(queue.jobs)| + fired
  {
    var due := schedules.ListDue(now);
    ghost var rows, jobs := schedules.rows, queue.jobs;
    ghost var done := rows.Keys - due;
    var nextId := firstJobId;
    fired, attempts := 0, map[];
    NothingDoneYet(rows, jobs, now, calendar, resolves, due);
    while due != {}
      invariant Remaining(rows, due, done, now) && queue.Valid() && IdsBelow(queue.jobs, nextId)
      invariant Progress(rows, jobs, schedules.rows, queue.jobs, now, calendar, resolves, done, attempts)
      invariant fired == FiredCount(attempts)
      decreases due
    {
      var id :| id in due;
      TakeOne(rows, due, done, id, now);
      due := due - {id};
      var enqueued;
      attempts, enqueued :=
        HandleOne(schedules, queue, id, now, calendar, resolves, nextId, rows, jobs, done, attempts);
      nextId := nextId + 1;
      if enqueued {
        fired := fired + 1;
      }
      done := done + {id};
    }
    PassDone(rows, jobs, schedules.rows, queue.jobs, now, calendar, resolves, done, attempts);
  }

  lemma PassDone(
      rows: Rows, jobs: JobQueue.Jobs, rowsNow: Rows, jobsNow: JobQueue.Jobs, now: int, calendar: Calendar,
      resolves: string -> bool, done: set<ScheduleId>, attempts: map<ScheduleId, Attempt>)
    requires ProperCalendar(calendar) && Remaining(rows, {}, done, now)
    requires Progress(rows, jobs, rowsNow, jobsNow, now, calendar, resolves, done, attempts)
    ensures Progress(rows, jobs, rowsNow, jobsNow, now, calendar, resolves, rows.Keys, attempts)
    ensures FiresExactly(rows, rowsNow, now, resolves, attempts)
    ensures |jobsNow| == |jobs| + FiredCount(attempts)
  {
    assert done == rows.Keys;
    ProgressFiresExactly(rows, jobs, rowsNow, jobsNow, now, calendar, resolves, attempts);
    OneJobEach(rows, jobs, jobsNow, attempts);
  }

  /** The queue grows by the number of fired schedules. */
  lemma OneJobEach(rows: Rows, before: JobQueue.Jobs, now: JobQueue.Jobs, attempts: map<ScheduleId, Attempt>)
    requires QueuedAfter(rows, before, now, attempts)
    ensures |now| == |before| + FiredCount(attempts)
  {
    DistinctJobs(attempts, FiredSet(attempts));
    JobsAreNew(rows, before, now, attempts);
    assert |now.Keys| == |before.Keys| + |FiredJobs(attempts)|;
  }

  lemma JobsAreNew(rows: Rows, before: JobQueue.Jobs, now: JobQueue.Jobs, attempts: map<ScheduleId, Attempt>)
    requires QueuedAfter(rows, before, now, attempts)
    ensures FiredJobs(attempts) !! before.Keys
  {
    forall j | j in FiredJobs(attempts) ensures j !in before {
      var s :| s in attempts && attempts[s].job.Some? && attempts[s].job.value == j;
      assert s in FiredSet(attempts) && PlacedAt(rows, before, now, attempts, s);
    }
  }

  lemma {:induction false} DistinctJobs(attempts: map<ScheduleId, Attempt>, ss: set<ScheduleId>)
    requires ss <= FiredSet(attempts)
    requires forall s, t :: s in ss && t in ss && s != t ==> attempts[s].job != attempts[t].job
    ensures |JobsOf(attempts, ss)| == |ss|
    decreases ss
  {
    if ss != {} {
      var s :| s in ss;
      DistinctJobs(attempts, ss - {s});
      assert attempts[s].job.value !in JobsOf(attempts, ss - {s});
      assert JobsOf(attempts, ss) == JobsOf(attempts, ss - {s}) + {attempts[s].job.value};
    }
  }

  /**
   The state of a pass in which the schedules of `done` are handled: their rows have advanced, each was
   attempted once, and the queue holds what that put there. The other rows are untouched.
   */
  ghost predicate Progress(
      rows: Rows, jobs: JobQueue.Jobs, rowsNow: Rows, jobsNow: JobQueue.Jobs, now: int, calendar: Calendar,
      resolves: string -> bool, done: set<ScheduleId>, attempts: map<ScheduleId, Attempt>)
    requires ProperCalendar(calendar)
  {
    && rowsNow == RowsAfter(rows, now, calendar, resolves, done)
    && AttemptsFor(rows, jobs, now, calendar, resolves, done, attempts)
    && QueuedAfter(rows, jobs, jobsNow, attempts)
  }

  lemma KeepsRow(
      rows: Rows, jobs: JobQueue.Jobs, rowsNow: Rows, jobsNow: JobQueue.Jobs, now: int, calendar: Calendar,
      resolves: string -> bool, done: set<ScheduleId>, attempts: map<ScheduleId, Attempt>, id: ScheduleId)
    requires ProperCalendar(calendar) && id in rows && id !in done
    requires Progress(rows, jobs, rowsNow, jobsNow, now, calendar, resolves, done, attempts)
    ensures id in rowsNow && rowsNow[id] == rows[id] && id !in attempts
    ensures !resolves(rows[id].pipeline) ==>
      Progress(rows, jobs, rowsNow, jobsNow, now, calendar, resolves, done + {id}, attempts)
  {
  }

  lemma OneMoreDone(
      rows: Rows, jobs: JobQueue.Jobs, rows0: Rows, jobs0: JobQueue.Jobs, rows1: Rows, jobs1: JobQueue.Jobs,
      now: int, calendar: Calendar, resolves: string -> bool, done: set<ScheduleId>,
      attempts: map<ScheduleId, Attempt>, id: ScheduleId, attempt: Attempt, jobId: JobQueue.JobId)
    requires ProperCalendar(calendar) && OnePerPipeline(rows) && id in rows && id !in done && id in rows0
    requires Progress(rows, jobs, rows0, jobs0, now, calendar, resolves, done, attempts)
    requires rows0[id] == rows[id] && Fires(rows, id, now, resolves)
    requires rows1 == rows0[id := AfterFire(calendar, rows0[id], now)]
    requires AttemptAt(rows[id], jobs0, now, calendar, attempt)
    requires Enqueues(jobs0, jobs1, rows[id].pipeline, attempt, jobId, now)
    ensures Progress(rows, jobs, rows1, jobs1, now, calendar, resolves, done + {id}, attempts[id := attempt])
  {
    NotYetQueued(rows, jobs, jobs0, now, calendar, resolves, done, attempts, id);
    QueuesOneMore(rows, jobs, jobs0, jobs1, attempts, id, attempt, jobId, now);
    AttemptsOneMore(rows, jobs, now, calendar, resolves, done, attempts, id, attempt);
    RowsOneMore(rows, now, calendar, resolves, done, id);
  }

  lemma RowsOneMore(
      rows: Rows, now: int, calendar: Calendar, resolves: string -> bool, done: set<ScheduleId>, id: ScheduleId)
    requires ProperCalendar(calendar) && Fires(rows, id, now, resolves)
    ensures RowsAfter(rows, now, calendar, resolves, done + {id})
      == RowsAfter(rows, now, calendar, resolves, done)[id := AfterFire(calendar, rows[id], now)]
  {
  }

  lemma AttemptsOneMore(
      rows: Rows, jobs: JobQueue.Jobs, now: int, calendar: Calendar, resolves: string -> bool,
      done: set<ScheduleId>, attempts: map<ScheduleId, Attempt>, id: ScheduleId, attempt: Attempt)
    requires ProperCalendar(calendar) && Fires(rows, id, now, resolves)
    requires AttemptsFor(rows, jobs, now, calendar, resolves, done, attempts)
    requires AttemptAt(rows[id], jobs, now, calendar, attempt)
    ensures AttemptsFor(rows, jobs, now, calendar, resolves, done + {id}, attempts[id := attempt])
  {
  }

  lemma NothingDoneYet(
      rows: Rows, jobs: JobQueue.Jobs, now: int, calendar: Calendar, resolves: string -> bool, due: set<ScheduleId>)
    requires ProperCalendar(calendar) && due == set s | s in rows && rows[s].Due(now)
    ensures Progress(rows, jobs, rows, jobs, now, calendar, resolves, rows.Keys - due, map[])
  {
    assert RowsAfter(rows, now, calendar, resolves, rows.Keys - due) == rows;
  }

  lemma QueuesOneMore(
      rows: Rows, jobs: JobQueue.Jobs, jobs0: JobQueue.Jobs, jobs1: JobQueue.Jobs,
      attempts: map<ScheduleId, Attempt>, id: ScheduleId, attempt: Attempt, jobId: JobQueue.JobId, now: int)
    requires id in rows && id !in attempts && QueuedAfter(rows, jobs, jobs0, attempts)
    requires Enqueues(jobs0, jobs1, rows[id].pipeline, attempt, jobId, now)
    ensures QueuedAfter(rows, jobs, jobs1, attempts[id := attempt])
  {
    FiredOneMore(attempts, id, attempt);
    var m := attempts[id := attempt];
    forall s | s in FiredSet(m) ensures PlacedAt(rows, jobs, jobs1, m, s) {
      if s != id {
        assert PlacedAt(rows, jobs, jobs0, attempts, s);
      }
    }
    forall s | s in FiredSet(attempts) ensures attempts[s].job != Some(jobId) {
      assert PlacedAt(rows, jobs, jobs0, attempts, s);
    }
    StaysDistinct(attempts, id, attempt);
  }

  lemma StaysDistinct(attempts: map<ScheduleId, Attempt>, id: ScheduleId, attempt: Attempt)
    requires id !in attempts && JobsDistinct(attempts)
    requires attempt.job.Some? ==> forall s :: s in FiredSet(attempts) ==> attempts[s].job != attempt.job
    ensures JobsDistinct(attempts[id := attempt])
  {
    FiredOneMore(attempts, id, attempt);
  }

  lemma FiredOneMore(attempts: map<ScheduleId, Attempt>, id: ScheduleId, a: Attempt)
    requires id !in attempts
    ensures FiredSet(attempts[id := a]) == FiredSet(attempts) + (if a.job.Some? then {id} else {})
    ensures FiredJobs(attempts[id := a]) == FiredJobs(attempts) + (if a.job.Some? then {a.job.value} else {})
  {
    var m := attempts[id := a];
    forall s | s in attempts ensures m[s] == attempts[s] {
    }
    forall j | j in FiredJobs(attempts) ensures j in FiredJobs(m) {
      var s :| s in attempts && attempts[s].job.Some? && attempts[s].job.value == j;
      assert m[s].job.value == j;
    }
    if a.job.Some? {
      assert m[id].job.value in FiredJobs(m);
    }
  }

  lemma NotYetQueued(
      rows: Rows, before: JobQueue.Jobs, jobs: JobQueue.Jobs, now: int, calendar: Calendar,
      resolves: string -> bool, done: set<ScheduleId>, attempts: map<ScheduleId, Attempt>, id: ScheduleId)
    requires ProperCalendar(calendar) && OnePerPipeline(rows) && id in rows && id !in done
    requires AttemptsFor(rows, before, now, calendar, resolves, done, attempts)
    requires QueuedAfter(rows, before, jobs, attempts)
    ensures HasQueued(jobs, rows[id].pipeline) <==> HasQueued(before, rows[id].pipeline)
    ensures id !in attempts
  {
    var p := rows[id].pipeline;
    forall k | k in jobs && k !in before ensures jobs[k].pipeline != p {
      var s :| s in attempts && attempts[s].job.Some? && attempts[s].job.value == k;
      assert s in FiredSet(attempts) && PlacedAt(rows, before, jobs, attempts, s);
    }
    if HasQueued(before, p) {
      var k :| k in before && before[k].status == JobQueue.Queued && before[k].pipeline == p
        && before[k].tenant == JobQueue.DEFAULT_TENANT;
      assert jobs[k] == before[k];
    }
  }

  lemma CountOneMore(attempts: map<ScheduleId, Attempt>, id: ScheduleId, a: Attempt)
    requires id !in attempts
    ensures FiredCount(attempts[id := a]) == FiredCount(attempts) + (if a.job.Some? then 1 else 0)
  {
    FiredOneMore(attempts, id, a);
  }
}
