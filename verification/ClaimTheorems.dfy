/**
 What holds over every run of the claim protocol: fencing, claim resolution, how a terminal
 job can be reopened, and the one place where the unguarded release breaks exclusivity.
 */
module ClaimTheorems {
  import opened Wrappers
  import opened JobQueue
  import opened ClaimProtocol
  import opened ClaimInvariant

  // ---- exclusivity of rows, and fencing -------------------------------------------------

  /** In every reachable state a pipeline has at most one queued row and at most one running row. */
  lemma OneQueuedOneRunning(s: State, i: JobId, j: JobId)
    requires Reachable(s) && i in s.jobs && j in s.jobs && i != j && s.jobs[i].SameSlot(s.jobs[j])
    ensures !(s.jobs[i].status == s.jobs[j].status == Queued)
    ensures !(s.jobs[i].status == s.jobs[j].status == Running)
  {
    ReachableInv(s);
  }

  /** `log[c]` is the claim that `log[i]` finishes: nothing about the job happened in between. */
  ghost predicate ClaimBefore(log: seq<Event>, i: nat, c: nat)
    requires i < |log| && log[i].FinishedBy?
  {
    && c < i
    && log[c] == ClaimedBy(log[i].job, log[i].worker, log[i].epoch)
    && forall k :: c < k < i ==> !log[k].Touches(log[i].job)
  }

  lemma {:induction false} LastOnPosition(log: seq<Event>, j: JobId) returns (c: nat)
    requires LastOn(log, j).Some?
    ensures c < |log| && log[c] == LastOn(log, j).value && log[c].Touches(j)
    ensures forall k :: c < k < |log| ==> !log[k].Touches(j)
  {
    var n := |log| - 1;
    if log[n].Touches(j) {
      c := n;
    } else {
      c := LastOnPosition(log[..n], j);
    }
  }

  /**
   Fencing: a `mark_finished` that takes effect comes from the execution that made the job's current
   claim. No release, reclaim, other claim or other finish of that job lies in between.
   */
  lemma FinishesAreFenced(s: State, i: nat)
    requires Reachable(s) && i < |s.log| && s.log[i].FinishedBy?
    ensures exists c :: ClaimBefore(s.log, i, c)
  {
    ReachableInv(s);
    assert EventFenced(s.log, i);
    var j := s.log[i].job;
    var c := LastOnPosition(s.log[..i], j);
    assert ClaimBefore(s.log, i, c);
  }

  /** Each claim is finished at most once. */
  lemma ClaimFinishedOnce(s: State, i: nat, k: nat)
    requires Reachable(s) && i < k < |s.log| && s.log[i].FinishedBy? && s.log[k].FinishedBy?
    ensures s.log[i].epoch != s.log[k].epoch
  {
    FinishesAreFenced(s, i);
    FinishesAreFenced(s, k);
    ReachableInv(s);
    var c :| ClaimBefore(s.log, i, c);
    var d :| ClaimBefore(s.log, k, d);
    assert EventFenced(s.log, c) && EventFenced(s.log, d);
    if s.log[i].epoch == s.log[k].epoch {
    }
  }

  /** The same fact about the state: the guard on the worker id is as strong as a guard on the claim. */
  lemma GuardIsAsStrongAsEpoch(s: State, w: WorkerId)
    requires Reachable(s) && w in s.workers && s.workers[w].pc.Engaged()
    ensures var me := s.workers[w];
      me.job in s.jobs && (s.jobs[me.job].HeldBy(w) ==>
        LastOn(s.log, me.job) == Some(ClaimedBy(me.job, w, me.epoch)))
  {
    ReachableInv(s);
    assert ClaimOk(s, w);
  }

  // ---- claim resolution -----------------------------------------------------------------

  /** The ways a worker leaves `run_once` when the writes of `_fail_job` and `_finalize` land. */
  predicate CleanExit(s: State, a: Action) {
    || a.CancelRun?
    || a.FinishJob?
    || (a.FailJob? && a.landed && a.w in s.workers && s.workers[a.w].pc.FailingJob? && s.workers[a.w].pc.recorded)
  }

  /** Terminal, back in the queue, or some other worker's. */
  predicate Resolved(job: Job, w: WorkerId) {
    job.Terminal() || job.status == Queued || (job.Active() && job.claimedBy != Some(w))
  }

  /** A worker that leaves `run_once` cleanly leaves its job resolved, its run terminal, its heartbeat stopped. */
  lemma CleanExitResolvesTheClaim(s: State, a: Action)
    requires Reachable(s) && CleanExit(s, a) && a.w in s.workers
    requires s.workers[a.w].pc.Engaged() && Step(s, a).workers[a.w].pc == Idle
    ensures var s' := Step(s, a);
      && s.workers[a.w].job in s'.jobs && Resolved(s'.jobs[s.workers[a.w].job], a.w)
      && (s.workers[a.w].pc.Run().Some? ==>
            s.workers[a.w].pc.Run().value in s'.runs && TerminalRun(s'.runs[s.workers[a.w].pc.Run().value]))
      && !s'.workers[a.w].beating
  {
    ReachableInv(s);
    assert ClaimOk(s, a.w) && RunOk(s, a.w);
    var pc := s.workers[a.w].pc;
    if !a.CancelRun? {
      FinishedKeepsInv(s, a.w, if a.FinishJob? then TerminalStatus(pc.success) else Failed);
    }
  }

  /** A live worker leaves `run_once` in no other way than cleanly, or by a write that failed at the end. */
  lemma ExitsAreCleanOrFailedWrites(s: State, a: Action)
    requires ByWorker(a) && a.w in s.workers && s.workers[a.w].pc.Engaged()
    requires Step(s, a).workers[a.w].pc == Idle
    ensures var pc := s.workers[a.w].pc;
      || CleanExit(s, a)
      || (a.Fault? && (pc.RecordingRun? || pc.FinishingJob?))
      || (a.FailJob? && pc.FailingJob? && !(a.landed && pc.recorded))
  {
  }

  /** Once a worker no longer holds a job, it holds it again only by claiming it. */
  lemma HoldingNeedsAClaim(s: State, a: Action, j: JobId, w: WorkerId)
    requires j in Step(s, a).jobs && Step(s, a).jobs[j].HeldBy(w)
    requires !(j in s.jobs && s.jobs[j].HeldBy(w))
    ensures a.Claim? && a.w == w && a.id == j
  {
  }

  /** No step removes a job. */
  lemma JobsStay(s: State, a: Action)
    ensures s.jobs.Keys <= Step(s, a).jobs.Keys
  {
  }

  // ---- where exclusivity ends: the unguarded release -------------------------------------

  /**
   A terminal job changes status exactly when some worker is backing off from it and its
   release is not refused: releases alone reopen finished jobs.
   */
  lemma OnlyReleaseReopens(s: State, a: Action, j: JobId)
    requires j in s.jobs && s.jobs[j].Terminal()
    ensures j in Step(s, a).jobs
    ensures Step(s, a).jobs[j].status != s.jobs[j].status <==>
      && a.Release? && a.w in s.workers && s.workers[a.w].pc.BackingOff? && s.workers[a.w].job == j
      && !Taken(s.jobs, j, s.jobs[j], Queued)
  {
    JobsStay(s, a);
  }

  /** A held job is taken from its owner exactly by a reclaim of it or by a release. */
  lemma OnlyReclaimOrReleaseTakes(s: State, a: Action, j: JobId, w: WorkerId)
    requires j in s.jobs && s.jobs[j].HeldBy(w)
    ensures j in Step(s, a).jobs
    ensures Step(s, a).jobs[j].status == Queued <==>
      || (a.Reclaim? && j in a.ids && ReclaimLands(s, a.ids))
      || (a.Release? && a.w in s.workers && s.workers[a.w].pc.BackingOff? && s.workers[a.w].job == j
          && !Taken(s.jobs, j, s.jobs[j], Queued))
  {
    JobsStay(s, a);
  }
}
