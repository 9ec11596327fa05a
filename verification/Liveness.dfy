/**
 Heartbeats against the reaper. The heartbeat loop stamps the row at start and then on 10 s
 boundaries, any beat may fail; the reaper looks on 30 s boundaries for stamps over 60 s old.
 */
module Liveness {
  import opened Wrappers
  import opened JobQueue
  import Clock

  const BEAT_INTERVAL := 10_000_000
  const REAP_INTERVAL := 30_000_000

  /** Which of the loop's beats reach the database. */
  type Beats = nat -> bool

  /** When beat `k` is attempted. */
  function BeatTime(start: int, k: nat): int {
    if k == 0 then start else Clock.NextBoundary(BeatTime(start, k - 1), BEAT_INTERVAL)
  }

  /** The row's stamp after the first `n` beats, `claimed` being the stamp written by the claim. */
  function LastStamp(claimed: int, start: int, lands: Beats, n: nat): int {
    if n == 0 then claimed
    else if lands(n - 1) then BeatTime(start, n - 1)
    else LastStamp(claimed, start, lands, n - 1)
  }

  ghost function AfterBeats(jobs: Jobs, id: JobId, w: WorkerId, start: int, lands: Beats, n: nat): Jobs {
    if n == 0 then jobs
    else
      var before := AfterBeats(jobs, id, w, start, lands, n - 1);
      if lands(n - 1) then AfterBeat(before, id, w, BeatTime(start, n - 1)) else before
  }

  /** `_heartbeat_loop`, cut off after `beats` rounds: a failed beat is swallowed and the loop goes on. */
  method HeartbeatLoop(
      queue: Queue, id: JobId, worker: WorkerId, clock: Clock.FakeClock, lands: Beats, beats: nat)
    requires queue.Valid() && id in queue.jobs
    modifies queue, clock
    ensures queue.Valid() && clock.now == BeatTime(old(clock.now), beats)
    ensures queue.jobs == AfterBeats(old(queue.jobs), id, worker, old(clock.now), lands, beats)
  {
    var beat := 0;
    while beat < beats
      invariant beat <= beats
      invariant queue.Valid() && id in queue.jobs && clock.now == BeatTime(old(clock.now), beat)
      invariant queue.jobs == AfterBeats(old(queue.jobs), id, worker, old(clock.now), lands, beat)
    {
      if lands(beat) {
        queue.UpdateHeartbeat(id, clock.now, worker);
      }
      clock.SleepUntilNextBoundary(BEAT_INTERVAL);
      beat := beat + 1;
    }
  }

  /** The loop touches only the stamp of its own row, and only while its worker holds the claim. */
  lemma {:induction false} BeatsOnlyStamp(
      jobs: Jobs, id: JobId, w: WorkerId, claimed: int, start: int, lands: Beats, n: nat)
    requires id in jobs && jobs[id].heartbeatAt == Some(claimed)
    ensures AfterBeats(jobs, id, w, start, lands, n)
      == if jobs[id].claimedBy == Some(w)
         then jobs[id := jobs[id].(heartbeatAt := Some(LastStamp(claimed, start, lands, n)))]
         else jobs
  {
    if n > 0 {
      BeatsOnlyStamp(jobs, id, w, claimed, start, lands, n - 1);
    }
  }

  lemma {:induction false} BeatsAreClose(start: int, j: nat, k: nat)
    requires j <= k
    ensures BeatTime(start, j) <= BeatTime(start, k) <= BeatTime(start, j) + BEAT_INTERVAL * (k - j)
    decreases k
  {
    if j < k {
      BeatsAreClose(start, j, k - 1);
      Clock.NextBoundaryIsLeast(BeatTime(start, k - 1), BEAT_INTERVAL);
    }
  }

  lemma {:induction false} StampAtLeast(claimed: int, start: int, lands: Beats, j: nat, n: nat)
    requires j < n && lands(j)
    ensures LastStamp(claimed, start, lands, n) >= BeatTime(start, j)
    decreases n
  {
    if lands(n - 1) {
      BeatsAreClose(start, j, n - 1);
    } else {
      StampAtLeast(claimed, start, lands, j, n - 1);
    }
  }

  /**
   Five failed beats in a row are harmless: at any instant between beat `k` and the next, the row
   is not stale if one of the last six beats landed.
   */
  lemma FiveFailuresAreHarmless(
      job: Job, claimed: int, start: int, lands: Beats, j: nat, k: nat, now: int, tenant: int)
    requires j <= k <= j + 5 && lands(j) && BeatTime(start, k) <= now <= BeatTime(start, k + 1)
    requires job.heartbeatAt == Some(LastStamp(claimed, start, lands, k + 1))
    ensures !job.Stale(now, STALE_THRESHOLD, tenant)
  {
    StampAtLeast(claimed, start, lands, j, k + 1);
    BeatsAreClose(start, j, k + 1);
  }

  /** Six are not: last beat at 20 s, the beats from 30 s to 80 s fail, the pass at 90 s finds the row stale. */
  lemma SixFailuresCanBeFatal(job: Job, claimed: int)
    requires job.Active() && job.tenant == DEFAULT_TENANT
    requires var lands: Beats := k => k == 0;
      job.heartbeatAt == Some(LastStamp(claimed, 20_000_000, lands, 7))
    ensures BeatTime(20_000_000, 6) == 80_000_000 && BeatTime(20_000_000, 7) == 90_000_000
    ensures 90_000_000 % REAP_INTERVAL == 0 && job.Stale(90_000_000, STALE_THRESHOLD, DEFAULT_TENANT)
  {
    var lands: Beats := k => k == 0;
    SevenBeatsFromTwenty();
    NoneLandsAfter(claimed, 20_000_000, lands, 0, 7);
  }

  lemma SevenBeatsFromTwenty()
    ensures BeatTime(20_000_000, 6) == 80_000_000 && BeatTime(20_000_000, 7) == 90_000_000
  {
    assert BeatTime(20_000_000, 1) == 30_000_000;
    assert BeatTime(20_000_000, 2) == 40_000_000;
    assert BeatTime(20_000_000, 3) == 50_000_000;
    assert BeatTime(20_000_000, 4) == 60_000_000;
    assert BeatTime(20_000_000, 5) == 70_000_000;
  }

  /** When every beat after `j` fails the stamp stays at beat `j`. */
  lemma {:induction false} NoneLandsAfter(claimed: int, start: int, lands: Beats, j: nat, n: nat)
    requires j < n && lands(j) && forall i :: j < i < n ==> !lands(i)
    ensures LastStamp(claimed, start, lands, n) == BeatTime(start, j)
    decreases n
  {
    if j < n - 1 {
      NoneLandsAfter(claimed, start, lands, j, n - 1);
    }
  }

  /** The first reaper pass at which a row last stamped at `stamp` is stale. */
  function FirstStalePass(stamp: int): int {
    Clock.NextBoundary(stamp + STALE_THRESHOLD, REAP_INTERVAL)
  }

  /** A held row is stale at exactly the passes from `FirstStalePass` on, at most 90 s after its stamp. */
  lemma StaleFromFirstPassOn(job: Job, stamp: int, b: int)
    requires job.Active() && job.heartbeatAt == Some(stamp)
    ensures job.Stale(b * REAP_INTERVAL, STALE_THRESHOLD, job.tenant) <==> FirstStalePass(stamp) <= b * REAP_INTERVAL
    ensures stamp + STALE_THRESHOLD < FirstStalePass(stamp) <= stamp + 90_000_000
    ensures FirstStalePass(stamp) % REAP_INTERVAL == 0
  {
    Clock.NextBoundaryIsLeast(stamp + STALE_THRESHOLD, REAP_INTERVAL);
  }

  /**
   Once the beats stop, the pass at `FirstStalePass` puts the row back in the queue, unless the
   one-queued index refuses the statement; then it changes nothing.
   */
  lemma DeadWorkerIsReclaimed(jobs: Jobs, id: JobId, stamp: int)
    requires IndexesHold(jobs) && id in jobs && jobs[id].Active() && jobs[id].heartbeatAt == Some(stamp)
    ensures var now := FirstStalePass(stamp);
      var ids := StaleJobs(jobs, now, STALE_THRESHOLD, jobs[id].tenant);
      var after := AfterReclaim(jobs, ids);
      && now <= stamp + 90_000_000
      && (after == jobs <==> FlipRefused(jobs, ids))
      && (!FlipRefused(jobs, ids) ==> id in after && after[id].status == Queued && after[id].claimedBy == None)
  {
    var now := FirstStalePass(stamp);
    StaleFromFirstPassOn(jobs[id], stamp, now / REAP_INTERVAL);
    Clock.DivModIdentity(now, REAP_INTERVAL);
    var ids := StaleJobs(jobs, now, STALE_THRESHOLD, jobs[id].tenant);
    assert id in ids;
    if !FlipRefused(jobs, ids) {
      assert Flipped(jobs, ids)[id].status == Queued;
    }
  }

  // ---- over a history of passes -----------------------------------------------------------

  /** One reaper pass over the table it finds; `locked` are the rows other transactions hold. */
  datatype Found = Found(jobs: Jobs, locked: set<JobId>) {
    function Taken(now: int, tenant: int): set<JobId> {
      StaleJobs(jobs, now, STALE_THRESHOLD, tenant) - locked
    }

    predicate Refused(now: int, tenant: int) {
      FlipRefused(jobs, Taken(now, tenant))
    }

    function After(now: int, tenant: int): Jobs {
      AfterReclaim(jobs, Taken(now, tenant))
    }

    /** The row is held, bears that stamp and is not locked. */
    predicate Holds(id: JobId, stamp: int) {
      id in jobs && jobs[id].Active() && jobs[id].heartbeatAt == Some(stamp) && id !in locked
    }
  }

  /** A held row is requeued at a pass exactly when its first stale pass has come and the index does not refuse. */
  lemma RequeuedAtPassIff(f: Found, b: int, id: JobId, stamp: int)
    requires f.Holds(id, stamp)
    ensures var now, row := b * REAP_INTERVAL, f.jobs[id];
      && id in f.After(now, row.tenant)
      && (f.After(now, row.tenant)[id] == row.Requeued() <==>
            FirstStalePass(stamp) <= now && !f.Refused(now, row.tenant))
      && (f.After(now, row.tenant)[id] != row.Requeued() ==> f.After(now, row.tenant)[id] == row)
  {
    StaleFromFirstPassOn(f.jobs[id], stamp, b);
  }

  /** Pass `k` of the history is due to take the row and is not refused. */
  predicate Takes(found: seq<Found>, b: int, k: nat, stamp: int, tenant: int)
    requires k < |found|
  {
    FirstStalePass(stamp) <= (b + k) * REAP_INTERVAL && !found[k].Refused((b + k) * REAP_INTERVAL, tenant)
  }

  ghost predicate StaysHeld(found: seq<Found>, id: JobId, stamp: int, tenant: int) {
    forall k :: 0 <= k < |found| ==> found[k].Holds(id, stamp) && found[k].jobs[id].tenant == tenant
  }

  /**
   However the rest of the table changes between passes, a row that each of them finds held and unstamped
   goes back to the queue at the first stale pass that is not refused, and is left alone at every one before.
   */
  lemma ReclaimedAtFirstPassNotRefused(
      found: seq<Found>, b: int, id: JobId, stamp: int, tenant: int, n: nat)
    requires n < |found| && StaysHeld(found, id, stamp, tenant)
    requires Takes(found, b, n, stamp, tenant) && forall k :: 0 <= k < n ==> !Takes(found, b, k, stamp, tenant)
    ensures forall k :: 0 <= k < n ==> LeftAlone(found[k], (b + k) * REAP_INTERVAL, id, tenant)
    ensures var after := found[n].After((b + n) * REAP_INTERVAL, tenant);
      id in after && after[id].status == Queued && after[id].claimedBy == None
  {
    forall k | 0 <= k < n ensures LeftAlone(found[k], (b + k) * REAP_INTERVAL, id, tenant) {
      assert !Takes(found, b, k, stamp, tenant);
      RequeuedAtPassIff(found[k], b + k, id, stamp);
    }
    RequeuedAtPassIff(found[n], b + n, id, stamp);
  }

  predicate LeftAlone(f: Found, now: int, id: JobId, tenant: int) {
    id in f.jobs && id in f.After(now, tenant) && f.After(now, tenant)[id] == f.jobs[id]
  }

  /** What passes at the given times make of a table nobody else writes. */
  function AfterPasses(jobs: Jobs, times: seq<int>, tenant: int): Jobs {
    if times == [] then jobs
    else
      Found(AfterPasses(jobs, times[..|times| - 1], tenant), {}).After(times[|times| - 1], tenant)
  }

  /**
   A refusal lasts: as long as nobody else changes the table, a pass that is refused is followed by
   nothing but refused passes, so no job of any pipeline is reclaimed any more.
   */
  lemma {:induction false} RefusalLasts(jobs: Jobs, now: int, times: seq<int>, tenant: int)
    requires Found(jobs, {}).Refused(now, tenant) && forall k :: 0 <= k < |times| ==> times[k] >= now
    ensures AfterPasses(jobs, times, tenant) == jobs
    decreases |times|
  {
    if times != [] {
      RefusalLasts(jobs, now, times[..|times| - 1], tenant);
      StaysRefused(jobs, now, times[|times| - 1], tenant);
    }
  }

  lemma StaysRefused(jobs: Jobs, now: int, later: int, tenant: int)
    requires Found(jobs, {}).Refused(now, tenant) && later >= now
    ensures Found(jobs, {}).Refused(later, tenant)
  {
    var early, late := Found(jobs, {}).Taken(now, tenant), Found(jobs, {}).Taken(later, tenant);
    var j, k :| j in jobs && k in jobs && j != k && j in early
      && (k in early || jobs[k].status == Queued) && jobs[j].SameSlot(jobs[k]);
    assert j in late && (k in late || jobs[k].status == Queued);
  }

  /** Two stale rows of one pipeline, one claimed and one running, are enough to stop all reclaiming. */
  lemma TwoStaleRowsStopReclaiming(jobs: Jobs, i: JobId, j: JobId, now: int, times: seq<int>, tenant: int)
    requires i in jobs && j in jobs && i != j && jobs[i].SameSlot(jobs[j])
    requires jobs[i].Stale(now, STALE_THRESHOLD, tenant) && jobs[j].Stale(now, STALE_THRESHOLD, tenant)
    requires forall k :: 0 <= k < |times| ==> times[k] >= now
    ensures AfterPasses(jobs, times, tenant) == jobs
  {
    assert i in Found(jobs, {}).Taken(now, tenant) && j in Found(jobs, {}).Taken(now, tenant);
    RefusalLasts(jobs, now, times, tenant);
  }
}
