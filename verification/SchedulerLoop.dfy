/**
 The scheduler's boundary loop over the real tables: its passes, what each of them attempted, and
 the job rows that came of it, with other users of the queue acting between passes.
 */
module SchedulerLoop {
  import opened Wrappers
  import opened Cron
  import opened Scheduler
  import opened Firing
  import Clock
  import JobQueue

  /** One pass: when it ran, the job table before and after it, and its attempts. */
  datatype Pass = Pass(at: int, before: JobQueue.Jobs, after: JobQueue.Jobs, attempts: map<ScheduleId, Attempt>)

  function Times(h: seq<Pass>): (times: seq<int>)
    ensures |times| == |h| && forall k :: 0 <= k < |h| ==> times[k] == h[k].at
  {
    seq(|h|, k requires 0 <= k < |h| => h[k].at)
  }

  lemma TimesFront(h: seq<Pass>, k: nat)
    requires k <= |h|
    ensures Times(h[..k]) == Times(h)[..k]
  {
  }

  /** The schedule rows found by the pass that follows the first `k`. */
  ghost function RowsBefore(rows: Rows, calendar: Calendar, resolves: string -> bool, h: seq<Pass>, k: nat): Rows
    requires ProperCalendar(calendar) && k <= |h|
  {
    RowsAfterPasses(rows, calendar, resolves, Times(h)[..k])
  }

  /** Pass `k` did to rows and queue what a pass does. */
  ghost predicate PassAt(rows: Rows, calendar: Calendar, resolves: string -> bool, h: seq<Pass>, k: nat)
    requires ProperCalendar(calendar) && k < |h|
  {
    var found := RowsBefore(rows, calendar, resolves, h, k);
    Progress(
      found, h[k].before, RowsBefore(rows, calendar, resolves, h, k + 1), h[k].after, h[k].at, calendar, resolves,
      found.Keys, h[k].attempts)
  }

  ghost predicate IsHistory(rows: Rows, calendar: Calendar, resolves: string -> bool, h: seq<Pass>)
    requires ProperCalendar(calendar)
  {
    forall k :: 0 <= k < |h| ==> PassAt(rows, calendar, resolves, h, k)
  }

  // ---- the loop ------------------------------------------------------------------------

  method FreshId(jobs: JobQueue.Jobs) returns (bound: nat)
    ensures IdsBelow(jobs, bound)
  {
    var todo := jobs.Keys;
    bound := 0;
    while todo != {}
      invariant todo <= jobs.Keys && forall j :: j in jobs && j !in todo ==> j < bound
      decreases todo
    {
      var j :| j in todo;
      todo := todo - {j};
      bound := if j < bound then bound else j + 1;
    }
  }

  /** What the workers, the reaper and manual enqueues do to the job table before pass `k`. */
  type Others = (nat, JobQueue.Jobs) -> JobQueue.Jobs

  ghost predicate KeepIndexes(others: Others) {
    forall k, jobs :: JobQueue.IndexesHold(jobs) ==> JobQueue.IndexesHold(others(k, jobs))
  }

  /** `scheduler_loop`, cut off after `rounds` passes: the first runs at once, each later one on the next boundary. */
  method Run(
      schedules: Schedules, queue: JobQueue.Queue, clock: Clock.FakeClock, interval: int, calendar: Calendar,
      resolves: string -> bool, rounds: nat, others: Others)
    returns (h: seq<Pass>)
    requires schedules as object != queue && schedules as object != clock && queue as object != clock
    requires queue.Valid() && ProperCalendar(calendar) && OnePerPipeline(schedules.rows) && KeepIndexes(others)
    modifies schedules, queue, clock
    ensures |h| == rounds && queue.Valid() && OnTheClock(h, old(clock.now), interval)
    ensures Covers(old(schedules.rows), schedules.rows, calendar, resolves, h)
  {
    h := [];
    ghost var rows := schedules.rows;
    while |h| < rounds
      invariant |h| <= rounds && queue.Valid() && OnePerPipeline(schedules.rows)
      invariant Covers(rows, schedules.rows, calendar, resolves, h)
      invariant OnTheClock(h, old(clock.now), interval) && clock.now == NextAt(h, old(clock.now), interval)
    {
      queue.jobs := others(|h|, queue.jobs);
      var pass := OnePass(schedules, queue, clock.now, calendar, resolves, rows, h);
      TickOver(h, pass, old(clock.now), interval);
      h := h + [pass];
      clock.SleepUntilNextBoundary(interval);
    }
  }

  /** One round of the loop. */
  method OnePass(
      schedules: Schedules, queue: JobQueue.Queue, at: int, calendar: Calendar, resolves: string -> bool,
      ghost rows: Rows, ghost h: seq<Pass>)
    returns (pass: Pass)
    requires schedules as object != queue && queue.Valid() && ProperCalendar(calendar)
    requires OnePerPipeline(schedules.rows) && Covers(rows, schedules.rows, calendar, resolves, h)
    modifies schedules, queue
    ensures queue.Valid() && OnePerPipeline(schedules.rows) && pass.at == at
    ensures pass.before == old(queue.jobs) && pass.after == queue.jobs
    ensures Covers(rows, schedules.rows, calendar, resolves, h + [pass])
  {
    var before := queue.jobs;
    ghost var found := schedules.rows;
    var firstId := FreshId(queue.jobs);
    var fired, attempts := RunDueOnce(schedules, queue, at, calendar, resolves, firstId);
    pass := Pass(at, before, queue.jobs, attempts);
    OnePassMore(rows, found, schedules.rows, calendar, resolves, h, pass);
    PipelinesStay(found, at, calendar, resolves);
  }

  /** When the pass after `h` runs: at once, or on the boundary that follows the last pass. */
  function NextAt(h: seq<Pass>, start: int, interval: int): int {
    if h == [] then start else Clock.NextBoundary(h[|h| - 1].at, interval)
  }

  /** The first pass runs at `start`, each later one on the first boundary after the one before it. */
  ghost predicate OnTheClock(h: seq<Pass>, start: int, interval: int) {
    && (h != [] ==> h[0].at == start)
    && forall k :: 0 < k < |h| ==> h[k].at == Clock.NextBoundary(h[k - 1].at, interval)
  }

  lemma TickOver(h: seq<Pass>, pass: Pass, start: int, interval: int)
    requires OnTheClock(h, start, interval) && pass.at == NextAt(h, start, interval)
    ensures OnTheClock(h + [pass], start, interval)
  {
    var all := h + [pass];
    forall k | 0 < k < |all| ensures all[k].at == Clock.NextBoundary(all[k - 1].at, interval) {
      if k < |h| {
        assert h[k].at == Clock.NextBoundary(h[k - 1].at, interval);
      }
    }
  }

  lemma PipelinesStay(rows: Rows, now: int, calendar: Calendar, resolves: string -> bool)
    requires ProperCalendar(calendar) && OnePerPipeline(rows)
    ensures OnePerPipeline(RowsAfter(rows, now, calendar, resolves, rows.Keys))
  {
    forall s | s in rows ensures RowsAfter(rows, now, calendar, resolves, rows.Keys)[s].pipeline == rows[s].pipeline {
    }
  }

  /** `h` is a history that has led from `rows` to `rowsNow`. */
  ghost predicate Covers(
      rows: Rows, rowsNow: Rows, calendar: Calendar, resolves: string -> bool, h: seq<Pass>)
    requires ProperCalendar(calendar)
  {
    IsHistory(rows, calendar, resolves, h) && rowsNow == RowsAfterPasses(rows, calendar, resolves, Times(h))
  }

  lemma OnePassMore(
      rows: Rows, found: Rows, rowsNow: Rows, calendar: Calendar, resolves: string -> bool, h: seq<Pass>, pass: Pass)
    requires ProperCalendar(calendar) && Covers(rows, found, calendar, resolves, h)
    requires Progress(
      found, pass.before, rowsNow, pass.after, pass.at, calendar, resolves, found.Keys, pass.attempts)
    ensures Covers(rows, rowsNow, calendar, resolves, h + [pass])
  {
    RowsOneMorePass(rows, found, calendar, resolves, h, pass);
    assert (h + [pass])[|h|] == pass;
    HistoryExtends(rows, calendar, resolves, h, pass);
  }

  lemma HistoryExtends(rows: Rows, calendar: Calendar, resolves: string -> bool, h: seq<Pass>, pass: Pass)
    requires ProperCalendar(calendar) && IsHistory(rows, calendar, resolves, h)
    requires PassAt(rows, calendar, resolves, h + [pass], |h|)
    ensures IsHistory(rows, calendar, resolves, h + [pass])
  {
    forall k | 0 <= k < |h| + 1 ensures PassAt(rows, calendar, resolves, h + [pass], k) {
      if k < |h| {
        assert PassAt(rows, calendar, resolves, h, k);
        EarlierPassStays(rows, calendar, resolves, h, pass, k);
      }
    }
  }

  lemma RowsOneMorePass(
      rows: Rows, found: Rows, calendar: Calendar, resolves: string -> bool, h: seq<Pass>, pass: Pass)
    requires ProperCalendar(calendar) && found == RowsAfterPasses(rows, calendar, resolves, Times(h))
    ensures var all := h + [pass];
      && RowsBefore(rows, calendar, resolves, all, |h|) == found
      && RowsBefore(rows, calendar, resolves, all, |h| + 1) == RowsAfter(found, pass.at, calendar, resolves, found.Keys)
      && RowsBefore(rows, calendar, resolves, all, |h| + 1) == RowsAfterPasses(rows, calendar, resolves, Times(all))
  {
    var all, n := h + [pass], |h|;
    assert Times(all)[..n] == Times(h) && Times(all)[..n + 1] == Times(all);
  }

  lemma EarlierPassStays(
      rows: Rows, calendar: Calendar, resolves: string -> bool, h: seq<Pass>, pass: Pass, k: nat)
    requires ProperCalendar(calendar) && k < |h| && PassAt(rows, calendar, resolves, h, k)
    ensures PassAt(rows, calendar, resolves, h + [pass], k)
  {
    var all := h + [pass];
    assert Times(all)[..k] == Times(h)[..k] && Times(all)[..k + 1] == Times(h)[..k + 1];
  }

  // ---- one schedule through the history ----------------------------------------------------

  /** The `scheduled_for` values attempted for a schedule, in order. */
  function TicksOf(h: seq<Pass>, id: ScheduleId): seq<int> {
    if h == [] then []
    else
      var last := h[|h| - 1];
      TicksOf(h[..|h| - 1], id) + (if id in last.attempts then [last.attempts[id].scheduledFor] else [])
  }

  /** Unpaused, seeded, and with a label that resolves. */
  predicate Live(rows: Rows, id: ScheduleId, resolves: string -> bool) {
    id in rows && !rows[id].paused && rows[id].nextFiresAt.Some? && resolves(rows[id].pipeline)
  }

  /** A pass attempts a live schedule exactly when its row is due, with the canonical tick of the pass. */
  lemma AttemptedWhenDue(
      rows: Rows, calendar: Calendar, resolves: string -> bool, h: seq<Pass>, id: ScheduleId, k: nat)
    requires ProperCalendar(calendar) && IsHistory(rows, calendar, resolves, h) && k < |h|
    requires Live(rows, id, resolves)
    ensures var t, row := calendar(rows[id].cron), rows[id];
      && (id in h[k].attempts <==> DueAt(t, row.nextFiresAt.value, Times(h), k))
      && (id in h[k].attempts ==>
            && h[k].attempts[id].scheduledFor == ThisTickAt(t, h[k].at)
            && (h[k].attempts[id].job.Some? <==> !HasQueued(h[k].before, row.pipeline)))
  {
    assert PassAt(rows, calendar, resolves, h, k);
    RowFollowsRecurrence(rows, calendar, resolves, Times(h)[..k], id);
    var found := RowsBefore(rows, calendar, resolves, h, k);
    if id in h[k].attempts {
      assert AttemptAt(found[id], h[k].before, h[k].at, calendar, h[k].attempts[id]);
    }
  }

  /** The ticks attempted by a history are those of the one-row recurrence. */
  lemma {:induction false} AttemptsAreFiredTicks(
      rows: Rows, calendar: Calendar, resolves: string -> bool, h: seq<Pass>, id: ScheduleId)
    requires ProperCalendar(calendar) && IsHistory(rows, calendar, resolves, h) && Live(rows, id, resolves)
    ensures TicksOf(h, id) == FiredTicks(calendar(rows[id].cron), rows[id].nextFiresAt.value, Times(h))
    decreases |h|
  {
    if h != [] {
      var n := |h| - 1;
      HistoryFront(rows, calendar, resolves, h, n);
      AttemptsAreFiredTicks(rows, calendar, resolves, h[..n], id);
      AttemptedWhenDue(rows, calendar, resolves, h, id, n);
      TimesFront(h, n);
    }
  }

  lemma HistoryFront(rows: Rows, calendar: Calendar, resolves: string -> bool, h: seq<Pass>, n: nat)
    requires ProperCalendar(calendar) && IsHistory(rows, calendar, resolves, h) && n <= |h|
    ensures IsHistory(rows, calendar, resolves, h[..n])
  {
    forall k | 0 <= k < n ensures PassAt(rows, calendar, resolves, h[..n], k) {
      assert PassAt(rows, calendar, resolves, h, k);
      assert Times(h[..n])[..k] == Times(h)[..k] && Times(h[..n])[..k + 1] == Times(h)[..k + 1];
    }
  }

  /** Paused, never seeded, or with a label that does not resolve. */
  predicate Dormant(row: Schedule, resolves: string -> bool) {
    row.paused || row.nextFiresAt.None? || !resolves(row.pipeline)
  }

  lemma {:induction false} DormantRowStays(
      rows: Rows, calendar: Calendar, resolves: string -> bool, passes: seq<int>, id: ScheduleId)
    requires ProperCalendar(calendar) && id in rows && Dormant(rows[id], resolves)
    ensures var after := RowsAfterPasses(rows, calendar, resolves, passes); id in after && after[id] == rows[id]
    decreases |passes|
  {
    if passes != [] {
      DormantRowStays(rows, calendar, resolves, passes[..|passes| - 1], id);
    }
  }

  lemma {:induction false} NoAttemptsNoTicks(h: seq<Pass>, id: ScheduleId)
    requires forall k :: 0 <= k < |h| ==> id !in h[k].attempts
    ensures TicksOf(h, id) == []
  {
    if h != [] {
      NoAttemptsNoTicks(h[..|h| - 1], id);
    }
  }

  /** A schedule that is paused, has no next fire time, or has an unresolved label is never attempted nor changed. */
  lemma DormantNeverFires(rows: Rows, calendar: Calendar, resolves: string -> bool, h: seq<Pass>, id: ScheduleId)
    requires ProperCalendar(calendar) && IsHistory(rows, calendar, resolves, h)
    requires id in rows && Dormant(rows[id], resolves)
    ensures TicksOf(h, id) == [] && forall k :: 0 <= k < |h| ==> id !in h[k].attempts
    ensures forall k :: 0 <= k <= |h| ==>
      id in RowsBefore(rows, calendar, resolves, h, k) && RowsBefore(rows, calendar, resolves, h, k)[id] == rows[id]
  {
    forall k | 0 <= k <= |h|
      ensures id in RowsBefore(rows, calendar, resolves, h, k)
      ensures RowsBefore(rows, calendar, resolves, h, k)[id] == rows[id]
    {
      DormantRowStays(rows, calendar, resolves, Times(h)[..k], id);
    }
    forall k | 0 <= k < |h| ensures id !in h[k].attempts {
      DormantNotAttempted(rows, calendar, resolves, h, id, k);
    }
    NoAttemptsNoTicks(h, id);
  }

  lemma DormantNotAttempted(
      rows: Rows, calendar: Calendar, resolves: string -> bool, h: seq<Pass>, id: ScheduleId, k: nat)
    requires ProperCalendar(calendar) && k < |h| && PassAt(rows, calendar, resolves, h, k)
    requires var found := RowsBefore(rows, calendar, resolves, h, k); id in found && Dormant(found[id], resolves)
    ensures id !in h[k].attempts
  {
    ProgressFiresExactly(
      RowsBefore(rows, calendar, resolves, h, k), h[k].before, RowsBefore(rows, calendar, resolves, h, k + 1),
      h[k].after, h[k].at, calendar, resolves, h[k].attempts);
  }

  /** The attempt of pass `k` put a job in the queue. */
  predicate Landed(h: seq<Pass>, id: ScheduleId, k: nat)
    requires k < |h|
  {
    id in h[k].attempts && h[k].attempts[id].job.Some?
  }

  /** A landed attempt is a queued job row stamped with the canonical tick of its pass. */
  lemma LandedMeansQueued(
      rows: Rows, calendar: Calendar, resolves: string -> bool, h: seq<Pass>, id: ScheduleId, k: nat)
    requires ProperCalendar(calendar) && IsHistory(rows, calendar, resolves, h) && Live(rows, id, resolves)
    requires k < |h| && Landed(h, id, k)
    ensures var j := h[k].attempts[id].job.value;
      && j !in h[k].before && j in h[k].after
      && h[k].after[j].status == JobQueue.Queued
      && h[k].after[j].pipeline == rows[id].pipeline && h[k].after[j].tenant == JobQueue.DEFAULT_TENANT
      && h[k].after[j].scheduledFor == Some(ThisTickAt(calendar(rows[id].cron), h[k].at))
      && h[k].after[j].runId.None? && h[k].after[j].claimedBy.None? && h[k].after[j].heartbeatAt.None?
  {
    AttemptedWhenDue(rows, calendar, resolves, h, id, k);
    assert PassAt(rows, calendar, resolves, h, k);
    RowFollowsRecurrence(rows, calendar, resolves, Times(h)[..k], id);
    assert id in FiredSet(h[k].attempts);
    assert PlacedAt(RowsBefore(rows, calendar, resolves, h, k), h[k].before, h[k].after, h[k].attempts, id);
  }

  /**
   Two passes put jobs in the queue for one tick exactly when every pass from the one up to the other
   leaves the row due with no new tick before the next, and neither finds the pipeline queued.
   */
  lemma SecondEnqueueLandsIff(
      rows: Rows, calendar: Calendar, resolves: string -> bool, h: seq<Pass>, id: ScheduleId, i: int, j: nat, k: nat)
    requires ProperCalendar(calendar) && IsHistory(rows, calendar, resolves, h) && Live(rows, id, resolves)
    requires Ascending(Times(h)) && j < k < |h| && rows[id].nextFiresAt == Some(calendar(rows[id].cron)(i))
    ensures
      Landed(h, id, j) && Landed(h, id, k) && h[j].attempts[id].scheduledFor == h[k].attempts[id].scheduledFor
      <==>
      && AllRepeat(calendar(rows[id].cron), calendar(rows[id].cron)(i), Times(h), j, k)
      && !HasQueued(h[j].before, rows[id].pipeline) && !HasQueued(h[k].before, rows[id].pipeline)
  {
    AttemptedWhenDue(rows, calendar, resolves, h, id, j);
    AttemptedWhenDue(rows, calendar, resolves, h, id, k);
    SameTickIff(calendar(rows[id].cron), i, Times(h), j, k);
  }

  /** The latest tick before a pass is attempted by that pass, less than an interval late on an exact boundary. */
  lemma LatestTickIsAttemptedOnTime(
      rows: Rows, calendar: Calendar, resolves: string -> bool, h: seq<Pass>, id: ScheduleId, i: int, start: int,
      interval: int, k: nat)
    requires ProperCalendar(calendar) && IsHistory(rows, calendar, resolves, h) && Live(rows, id, resolves)
    requires interval > 0 && k < |h| && Paced(start, Times(h)) && OnBoundary(start, Times(h), interval, k)
    requires var t := calendar(rows[id].cron);
      && rows[id].nextFiresAt == Some(t(i)) && t(i) <= NextTickAfter(t, start)
      && ThisTickAt(t, h[k].at) > Before(start, Times(h), k)
    ensures id in h[k].attempts
    ensures h[k].attempts[id].scheduledFor == ThisTickAt(calendar(rows[id].cron), h[k].at)
    ensures 0 <= h[k].at - h[k].attempts[id].scheduledFor < interval
  {
    LatestTickIsOnTime(calendar(rows[id].cron), i, start, Times(h), interval, k);
    AttemptedWhenDue(rows, calendar, resolves, h, id, k);
  }

  // ---- one tick, two jobs ----------------------------------------------------------------------

  const LAGGING := Schedule("sales", "", false, Some(0), None)

  /**
   The failing input on the tables: a row due since tick 0, passes at 20 and 21, and a worker that claims
   the first job in between. Both enqueues land, and both jobs are stamped with tick 20.
   */
  lemma OneTickTwoJobs(calendar: Calendar, resolves: string -> bool)
    requires ProperCalendar(calendar) && calendar("") == EveryFive && resolves("sales")
    ensures var rows0: Rows := map[0 := LAGGING];
      var rows1: Rows := map[0 := LAGGING.(lastFiredAt := Some(20), nextFiresAt := Some(5))];
      var rows2: Rows := map[0 := LAGGING.(lastFiredAt := Some(21), nextFiresAt := Some(10))];
      var jobs1: JobQueue.Jobs := map[0 := FiredJob("sales", 20, 20)];
      var claimed := JobQueue.AfterClaim(jobs1, 0, 1, 20);
      && Progress(rows0, map[], rows1, jobs1, 20, calendar, resolves, {0}, map[0 := Attempt(20, Some(0))])
      && jobs1[0].Claimable(JobQueue.DEFAULT_TENANT, 20)
      && Progress(
           rows1, claimed, rows2, claimed[1 := FiredJob("sales", 20, 21)], 21, calendar, resolves, {0},
           map[0 := Attempt(20, Some(1))])
  {
    EveryFiveIncreases();
    IndexUnique(EveryFive, 20, 4);
    IndexUnique(EveryFive, 21, 4);
    NextTickIndex(EveryFive, 0);
    NextTickIndex(EveryFive, 1);
    var rows0: Rows := map[0 := LAGGING];
    var jobs1: JobQueue.Jobs := map[0 := FiredJob("sales", 20, 20)];
    var claimed := JobQueue.AfterClaim(jobs1, 0, 1, 20);
    assert AfterFire(calendar, LAGGING, 20) == LAGGING.(lastFiredAt := Some(20), nextFiresAt := Some(5));
    LoneRowFires(calendar, resolves, LAGGING, map[], 20, 20, 0);
    LoneRowFires(
      calendar, resolves, LAGGING.(lastFiredAt := Some(20), nextFiresAt := Some(5)), claimed, 21, 20, 1);
  }

  /** A pass over a single due row whose pipeline has no queued job. */
  lemma LoneRowFires(
      calendar: Calendar, resolves: string -> bool, row: Schedule, jobs: JobQueue.Jobs, now: int, tick: int,
      jobId: JobQueue.JobId)
    requires ProperCalendar(calendar) && row.Due(now) && resolves(row.pipeline)
    requires jobId !in jobs && !HasQueued(jobs, row.pipeline) && ThisTickAt(calendar(row.cron), now) == tick
    ensures Progress(
      map[0 := row], jobs, map[0 := AfterFire(calendar, row, now)], jobs[jobId := FiredJob(row.pipeline, tick, now)],
      now, calendar, resolves, {0}, map[0 := Attempt(tick, Some(jobId))])
  {
    var rows: Rows := map[0 := row];
    var attempts: map<ScheduleId, Attempt> := map[0 := Attempt(tick, Some(jobId))];
    assert FiredSet(attempts) == {0};
    assert FiredJobs(attempts) == {jobId} by {
      assert attempts[0].job.value == jobId;
    }
    assert PlacedAt(rows, jobs, jobs[jobId := FiredJob(row.pipeline, tick, now)], attempts, 0);
    assert RowsAfter(rows, now, calendar, resolves, {0}) == map[0 := AfterFire(calendar, row, now)];
  }
}
