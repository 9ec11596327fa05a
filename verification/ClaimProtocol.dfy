/**
 Workers, stalls, crashes and the reaper over one shared job table. Each worker's `run_once`
 is a small state machine whose database calls are single atomic steps; the steps of all
 workers and the reaper interleave in any order.
 */
module ClaimProtocol {
  import opened Wrappers
  import opened JobQueue

  // ---- states --------------------------------------------------------------------

  /** Where a worker stands inside `run_once`; `Idle` is outside it, `Dead` a lost process. */
  datatype Pc =
    | Idle
    | JustClaimed
    | RunCreated(run: RunId)
    | BackingOff(run: RunId)
    | Cancelling(run: RunId)
    | Starting(run: RunId)
    | Executing(run: RunId)
    | RecordingRun(run: RunId, success: bool)
    | FinishingJob(run: RunId, success: bool)
    | FailingRun(failed: Option<RunId>)
    | FailingJob(failed: Option<RunId>, recorded: bool)
    | Dead
  {
    function Run(): Option<RunId> {
      match this
      case Idle => None
      case JustClaimed => None
      case Dead => None
      case FailingRun(r) => r
      case FailingJob(r, _) => r
      case _ => Some(this.run)
    }

    /** Inside `run_once`, with a job claimed. */
    predicate Engaged() {
      this != Idle && this != Dead
    }
  }

  /** `epoch` numbers the worker's latest claim; `beating` says its heartbeat task is alive. */
  datatype Worker = Worker(pc: Pc, job: JobId, epoch: nat, beating: bool)

  datatype Event =
    | ClaimedBy(job: JobId, worker: WorkerId, epoch: nat)
    | FinishedBy(job: JobId, worker: WorkerId, epoch: nat)
    | ReleasedBy(job: JobId, worker: WorkerId)
    | ReclaimedAll(jobs: set<JobId>)
  {
    predicate Touches(j: JobId) {
      match this
      case ReclaimedAll(js) => j in js
      case _ => this.job == j
    }
  }

  /**
   What one claim led to: the run its execution created, whether the pipeline came back `succeeded` (neither
   `failed` nor `partial`), and the end that execution wrote for the run.
   */
  datatype Execution = Execution(job: JobId, run: Option<RunId>, answered: Option<bool>, ended: Option<RunStatus>)

  /** `log` and `executions` (by claim epoch) are kept for the statements only: no step reads them. */
  datatype State = State(
    jobs: Jobs, runs: map<RunId, RunStatus>, workers: map<WorkerId, Worker>,
    orphans: set<RunId>, nextEpoch: nat, nextRun: nat, log: seq<Event>, executions: map<nat, Execution>)
  {
    function NoteRun(w: WorkerId, run: RunId): State
      requires w in workers
    {
      var e := workers[w].epoch;
      if e in executions then this.(executions := executions[e := executions[e].(run := Some(run))]) else this
    }

    function NoteAnswer(w: WorkerId, success: bool): State
      requires w in workers
    {
      var e := workers[w].epoch;
      if e in executions then this.(executions := executions[e := executions[e].(answered := Some(success))]) else this
    }

    function NoteEnd(w: WorkerId, end: RunStatus): State
      requires w in workers
    {
      var e := workers[w].epoch;
      if e in executions then this.(executions := executions[e := executions[e].(ended := Some(end))]) else this
    }

    function Move(w: WorkerId, pc: Pc): State
      requires w in workers
    {
      this.(workers := workers[w := workers[w].(pc := pc)])
    }
  }

  // ---- steps ---------------------------------------------------------------------

  datatype Action =
    | Enqueue(id: JobId, pipeline: string, tenant: int, now: int)
    | Claim(w: WorkerId, id: JobId, now: int)
    | CreateRun(w: WorkerId)
    | Transition(w: WorkerId)
    | Release(w: WorkerId)
    | CancelRun(w: WorkerId)
    | MarkRunning(w: WorkerId)
    | Beat(w: WorkerId, now: int)
    | Executed(w: WorkerId, success: bool)
    | RecordRun(w: WorkerId)
    | FinishJob(w: WorkerId)
    | FailRun(w: WorkerId, landed: bool)
    | FailJob(w: WorkerId, landed: bool)
    | Fault(w: WorkerId)
    | Crash(w: WorkerId)
    | Reclaim(ids: set<JobId>)
    | FailOrphan(run: RunId)
    | AbandonOrphans

  predicate ByWorker(a: Action) {
    !a.Enqueue? && !a.Reclaim? && !a.FailOrphan? && !a.AbandonOrphans?
  }

  function RunEnd(success: bool): RunStatus {
    if success then RunSuccess else RunFailed
  }

  function TerminalStatus(success: bool): JobStatus {
    if success then Succeeded else Failed
  }

  /** `mark_finished` with its ownership guard, logged when it takes effect. */
  function MarkFinished(s: State, w: WorkerId, status: JobStatus): State
    requires w in s.workers
  {
    var id := s.workers[w].job;
    if id in s.jobs && s.jobs[id].HeldBy(w) then
      s.(jobs := AfterFinish(s.jobs, id, status, w), log := s.log + [FinishedBy(id, w, s.workers[w].epoch)])
    else s
  }

  /** Every row of `ids` is held, and the one-queued index lets the whole statement through. */
  predicate ReclaimLands(s: State, ids: set<JobId>) {
    (forall j :: j in ids ==> j in s.jobs && s.jobs[j].Active()) && !FlipRefused(s.jobs, ids)
  }

  /** One atomic step; an action that is not enabled changes nothing. */
  function Step(s: State, a: Action): State {
    if ByWorker(a) then
      if a.w in s.workers then WorkerStep(s, a) else s
    else
      match a
      case Enqueue(id, pipeline, tenant, now) =>
        var job := Job(pipeline, tenant, Queued, None, None, None, None, now);
        if id in s.jobs || Taken(s.jobs, id, job, Queued) then s else s.(jobs := s.jobs[id := job])
      case Reclaim(ids) =>
        // A set of held rows, whatever made them stale: the weakest assumption about time.
        if ReclaimLands(s, ids) then
          s.(jobs := Flipped(s.jobs, ids),
             orphans := s.orphans + (set j | j in ids && s.jobs[j].runId.Some? :: s.jobs[j].runId.value),
             log := s.log + [ReclaimedAll(ids)])
        else s
      case FailOrphan(run) =>
        if run in s.orphans && run in s.runs then
          s.(runs := s.runs[run := RunFailed], orphans := s.orphans - {run})
        else s
      case AbandonOrphans => s.(orphans := {})
  }

  function WorkerStep(s: State, a: Action): State
    requires ByWorker(a) && a.w in s.workers
  {
    var w := a.w;
    var me := s.workers[w];
    var pc := me.pc;
    match a
    case Claim(_, id, now) =>
      if pc == Idle && id in s.jobs && s.jobs[id].status == Queued then
        s.(jobs := AfterClaim(s.jobs, id, w, now),
           workers := s.workers[w := Worker(JustClaimed, id, s.nextEpoch, false)],
           nextEpoch := s.nextEpoch + 1,
           executions := s.executions[s.nextEpoch := Execution(id, None, None, None)],
           log := s.log + [ClaimedBy(id, w, s.nextEpoch)])
      else s
    case CreateRun(_) =>
      if pc == JustClaimed then
        s.(runs := s.runs[s.nextRun := RunQueued], nextRun := s.nextRun + 1)
          .NoteRun(w, s.nextRun).Move(w, RunCreated(s.nextRun))
      else s
    case Transition(_) =>
      if pc.RunCreated? then
        match TransitionOutcome(s.jobs, me.job, w)
        case Landed => s.(jobs := AfterTransition(s.jobs, me.job, pc.run, w)).Move(w, Starting(pc.run))
        case LostClaim => s.Move(w, Cancelling(pc.run))
        case AlreadyRunning => s.Move(w, BackingOff(pc.run))
      else s
    case Release(_) =>
      if pc.BackingOff? && me.job in s.jobs then
        if Taken(s.jobs, me.job, s.jobs[me.job], Queued) then s.Move(w, FailingRun(Some(pc.run)))
        else s.(jobs := AfterRelease(s.jobs, me.job),
                log := s.log + [ReleasedBy(me.job, w)]).Move(w, Cancelling(pc.run))
      else s
    case CancelRun(_) =>
      if pc.Cancelling? then s.(runs := s.runs[pc.run := RunCancelled]).NoteEnd(w, RunCancelled).Move(w, Idle) else s
    case MarkRunning(_) =>
      if pc.Starting? then
        s.(runs := s.runs[pc.run := RunRunning],
           workers := s.workers[w := me.(pc := Executing(pc.run), beating := true)])
      else s
    case Beat(_, now) =>
      if me.beating then s.(jobs := AfterBeat(s.jobs, me.job, w, now)) else s
    case Executed(_, success) =>
      if pc.Executing? then
        s.(workers := s.workers[w := me.(pc := RecordingRun(pc.run, success), beating := false)]).NoteAnswer(w, success)
      else s
    case RecordRun(_) =>
      if pc.RecordingRun? then
        s.(runs := s.runs[pc.run := RunEnd(pc.success)])
          .NoteEnd(w, RunEnd(pc.success)).Move(w, FinishingJob(pc.run, pc.success))
      else s
    case FinishJob(_) =>
      if pc.FinishingJob? then MarkFinished(s, w, TerminalStatus(pc.success)).Move(w, Idle) else s
    case FailRun(_, landed) =>
      if pc.FailingRun? then
        if pc.failed.None? then s.Move(w, FailingJob(None, true))
        else if landed then
          s.(runs := s.runs[pc.failed.value := RunFailed]).NoteEnd(w, RunFailed).Move(w, FailingJob(pc.failed, true))
        else s.Move(w, FailingJob(pc.failed, false))
      else s
    case FailJob(_, landed) =>
      if pc.FailingJob? then
        (if landed then MarkFinished(s, w, Failed) else s).Move(w, Idle)
      else s
    case Fault(_) =>
      // A raise before finalizing lands in the handler; one while finalizing escapes `run_once`.
      if pc.JustClaimed? || pc.RunCreated? || pc.BackingOff? || pc.Cancelling? || pc.Starting? || pc.Executing? then
        s.(workers := s.workers[w := me.(pc := FailingRun(pc.Run()), beating := false)])
      else if pc.RecordingRun? || pc.FinishingJob? then s.Move(w, Idle)
      else s
    case Crash(_) => s.(workers := s.workers[w := me.(pc := Dead, beating := false)])
  }

  function Execute(s: State, actions: seq<Action>): State {
    if actions == [] then s else Step(Execute(s, actions[..|actions| - 1]), actions[|actions| - 1])
  }

  ghost predicate Initial(s: State) {
    && s.jobs == map[] && s.runs == map[] && s.orphans == {} && s.log == [] && s.executions == map[]
    && forall w :: w in s.workers ==> s.workers[w].pc == Idle && !s.workers[w].beating
  }

  // ---- the log --------------------------------------------------------------------

  /** The latest event about job `j`. */
  ghost function LastOn(log: seq<Event>, j: JobId): Option<Event> {
    if log == [] then None
    else if log[|log| - 1].Touches(j) then Some(log[|log| - 1])
    else LastOn(log[..|log| - 1], j)
  }

  lemma LastOnAppend(log: seq<Event>, e: Event, j: JobId)
    ensures LastOn(log + [e], j) == if e.Touches(j) then Some(e) else LastOn(log, j)
  {
    assert (log + [e])[..|log|] == log;
  }

  /** A finish follows its own claim with nothing about the job in between; epochs only grow. */
  ghost predicate EventFenced(log: seq<Event>, i: nat)
    requires i < |log|
  {
    match log[i]
    case FinishedBy(j, w, e) => LastOn(log[..i], j) == Some(ClaimedBy(j, w, e))
    case ReclaimedAll(js) => forall j :: j in js ==> LastOn(log[..i], j).Some? && LastOn(log[..i], j).value.ClaimedBy?
    case ClaimedBy(_, _, e) => forall k :: 0 <= k < i && log[k].ClaimedBy? ==> log[k].epoch < e
    case ReleasedBy(_, _) => true
  }

  ghost predicate Fenced(log: seq<Event>) {
    forall i :: 0 <= i < |log| ==> EventFenced(log, i)
  }

  lemma FencedAppend(log: seq<Event>, e: Event)
    requires Fenced(log) && EventFenced(log + [e], |log|)
    ensures Fenced(log + [e])
  {
    var l := log + [e];
    forall i | 0 <= i < |l| ensures EventFenced(l, i) {
      if i < |log| {
        assert EventFenced(log, i) && l[..i] == log[..i];
      }
    }
  }

  // ---- the invariant ---------------------------------------------------------------

  /** A held row was last claimed, by the worker it names. */
  ghost predicate JobOk(s: State, j: JobId)
    requires j in s.jobs
  {
    s.jobs[j].Active() ==>
      var last := LastOn(s.log, j);
      last.Some? && last.value.ClaimedBy? && s.jobs[j].claimedBy == Some(last.value.worker)
  }

  /** If the row still names this worker, the claim it names is the one this execution made. */
  ghost predicate ClaimOk(s: State, w: WorkerId)
    requires w in s.workers
  {
    var me := s.workers[w];
    me.pc.Engaged() ==>
      && me.job in s.jobs
      && (s.jobs[me.job].HeldBy(w) ==> LastOn(s.log, me.job) == Some(ClaimedBy(me.job, w, me.epoch)))
      && (me.pc.JustClaimed? || me.pc.RunCreated? ==> s.jobs[me.job].HeldBy(w) ==> s.jobs[me.job].status == Claimed)
      && (me.pc.Cancelling? ==> !s.jobs[me.job].HeldBy(w))
  }

  /** The worker's run row exists, is its own, and is terminal once the code has made it so. */
  ghost predicate RunOk(s: State, w: WorkerId)
    requires w in s.workers
  {
    var pc := s.workers[w].pc;
    && (pc.Run().Some? ==> pc.Run().value in s.runs)
    && (pc.FinishingJob? ==> pc.run in s.runs && TerminalRun(s.runs[pc.run]))
    && (pc.FailingJob? && pc.recorded && pc.failed.Some? ==>
          pc.failed.value in s.runs && TerminalRun(s.runs[pc.failed.value]))
    && (s.workers[w].beating ==> pc.Executing?)
  }

  ghost predicate RunsDistinct(s: State) {
    forall v, w :: v in s.workers && w in s.workers && v != w && s.workers[v].pc.Run().Some? ==>
      s.workers[v].pc.Run() != s.workers[w].pc.Run()
  }

  ghost predicate Counters(s: State) {
    && (forall r :: r in s.runs ==> r < s.nextRun)
    && (forall k :: 0 <= k < |s.log| && s.log[k].ClaimedBy? ==> s.log[k].epoch < s.nextEpoch)
  }

  ghost predicate Inv(s: State) {
    && IndexesHold(s.jobs) && Fenced(s.log) && Counters(s) && RunsDistinct(s)
    && (forall j :: j in s.jobs ==> JobOk(s, j))
    && (forall w :: w in s.workers ==> ClaimOk(s, w) && RunOk(s, w))
  }

  lemma InitialInv(s: State)
    requires Initial(s)
    ensures Inv(s)
  {
  }
}
