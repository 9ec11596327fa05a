/**
 The recovery loop: run an operation, and while it fails ask an agent for a fix and run it
 again. The operation's and the agent's replies are an arbitrary script.
 */
module Recovery {
  import opened Wrappers

  type RunId = string

  const CODE_FIX := "code_fix"
  const USER_CANCEL := "user_cancel"
  const REPEATED_IDENTICAL := "repeated_identical"
  const DO_NOT_AUTO_FIX :=
    {"auth", "permission", "resource_exhaustion", USER_CANCEL, REPEATED_IDENTICAL, "out_of_scope"}
  const AGENT_REFUSALS := {"auth", "permission", "resource_exhaustion", "out_of_scope"}

  /** `Interrupted` is Ctrl-C; `Raised` any exception the loop does not catch. */
  datatype ExecReply = Ran(run: RunId, success: bool, error: string) | ExecInterrupted | ExecRaised
  datatype AgentReply =
    | Diagnosed(summary: string, category: string, refused: bool)
    | AgentInterrupted
    | AgentFailed(message: string)
    | AgentRaised

  /** Execution 0 is the original one; attempt `a` asks the agent and makes execution `a`. */
  datatype Script = Script(executions: nat -> ExecReply, agent: nat -> AgentReply)

  /** The failure classifier and the whitespace strip. */
  datatype Tools = Tools(classify: string -> string, strip: string -> string) {
    predicate DoNotFix(error: string) {
      classify(error) in DO_NOT_AUTO_FIX
    }
  }

  datatype Outcome =
    | Recovered(attempts: int, diagnosis: string)
    | Exhausted(attempts: int, diagnosis: string, lastCategory: string)
    | Refused(attempts: int, diagnosis: string, category: string)
    | Aborted(attempts: int, diagnosis: string)
    | Escaped

  /** `basis` is the stripped diagnosis a re-execution acts on. */
  datatype Event =
    | Executed(parent: Option<RunId>, basis: string, execReply: ExecReply)
    | Asked(run: RunId, error: string, agentReply: AgentReply)
  {
    predicate Failed() {
      Executed? && execReply.Ran? && !execReply.success
    }

    predicate Succeeded() {
      Executed? && execReply.Ran? && execReply.success
    }
  }

  type Trace = seq<Event>

  function OrElse(s: string, other: string): string {
    if s != "" then s else other
  }

  // ---- the loop as a function ----------------------------------------------------------

  /** The loop's variables between two attempts. */
  datatype LoopState = LoopState(
    failedRun: RunId, lastError: string, lastDiagnosis: string, lastCategory: string, diagnoses: seq<string>)

  datatype Decision = GiveUp(outcome: Outcome) | Retry(state: LoopState)
  datatype Round = Stop(outcome: Outcome, events: Trace) | Again(state: LoopState, events: Trace)

  /** What the agent's reply leads to: an outcome, or the state from which to re-execute. */
  function AfterAgent(tools: Tools, st: LoopState, attempt: nat, reply: AgentReply): Decision
    requires attempt >= 1
  {
    match reply
    case AgentInterrupted => GiveUp(Aborted(attempt - 1, st.lastDiagnosis))
    case AgentFailed(message) => GiveUp(Exhausted(attempt, message, st.lastCategory))
    case AgentRaised => GiveUp(Escaped)
    case Diagnosed(summary, category, refused) =>
      var diagnosis := OrElse(summary, st.lastDiagnosis);
      var lastCategory := OrElse(category, st.lastCategory);
      var normalized := tools.strip(diagnosis);
      if category == REPEATED_IDENTICAL then GiveUp(Exhausted(attempt, diagnosis, lastCategory))
      else if category in AGENT_REFUSALS then GiveUp(Refused(attempt, diagnosis, category))
      else if refused || category != CODE_FIX then GiveUp(Exhausted(attempt, diagnosis, lastCategory))
      else if normalized != "" && normalized in st.diagnoses
        then GiveUp(Exhausted(attempt, diagnosis, REPEATED_IDENTICAL))
      else Retry(st.(lastDiagnosis := diagnosis, lastCategory := lastCategory,
                     diagnoses := st.diagnoses + [normalized]))
  }

  function AfterRetry(tools: Tools, st: LoopState, attempt: nat, retry: ExecReply, events: Trace): Round {
    match retry
    case ExecInterrupted => Stop(Aborted(attempt, st.lastDiagnosis), events)
    case ExecRaised => Stop(Escaped, events)
    case Ran(run, success, error) =>
      if success then Stop(Recovered(attempt, st.lastDiagnosis), events)
      else if error != "" && error == st.lastError
        then Stop(Exhausted(attempt, st.lastDiagnosis, REPEATED_IDENTICAL), events)
      else if tools.DoNotFix(error) then Stop(Refused(attempt, error, tools.classify(error)), events)
      else Again(st.(failedRun := run, lastError := error), events)
  }

  function OneRound(script: Script, tools: Tools, st: LoopState, attempt: nat): Round
    requires attempt >= 1
  {
    var asked := Asked(st.failedRun, st.lastError, script.agent(attempt));
    match AfterAgent(tools, st, attempt, script.agent(attempt))
    case GiveUp(outcome) => Stop(outcome, [asked])
    case Retry(next) =>
      var retry := script.executions(attempt);
      AfterRetry(tools, next, attempt, retry,
        [asked, Executed(Some(st.failedRun), tools.strip(next.lastDiagnosis), retry)])
  }

  /** The attempts from `attempt` on, with the trace so far. */
  function Attempts(
      script: Script, tools: Tools, maxAttempts: int, st: LoopState, attempt: nat, trace: Trace): (Outcome, Trace)
    requires attempt >= 1
    decreases maxAttempts - attempt
  {
    if attempt > maxAttempts then (Exhausted(maxAttempts, st.lastDiagnosis, st.lastCategory), trace)
    else
      match OneRound(script, tools, st, attempt)
      case Stop(outcome, events) => (outcome, trace + events)
      case Again(next, events) => Attempts(script, tools, maxAttempts, next, attempt + 1, trace + events)
  }

  function Recover(script: Script, tools: Tools, maxAttempts: int, autoFix: bool): (Outcome, Trace) {
    var first := script.executions(0);
    var trace := [Executed(None, "", first)];
    match first
    case ExecInterrupted => (Aborted(0, "interrupted by user"), trace)
    case ExecRaised => (Escaped, trace)
    case Ran(run, success, error) =>
      if success then (Recovered(0, ""), trace)
      else if !autoFix then (Refused(0, OrElse(error, "recovery disabled (--no-auto-fix)"), USER_CANCEL), trace)
      else if tools.DoNotFix(error) then (Refused(0, error, tools.classify(error)), trace)
      else Attempts(script, tools, maxAttempts, LoopState(run, error, error, tools.classify(error), []), 1, trace)
  }

  /** `run_with_recovery`, step by step, recording its trace. */
  method RunWithRecovery(script: Script, tools: Tools, maxAttempts: int, autoFix: bool)
    returns (outcome: Outcome, trace: Trace)
    ensures (outcome, trace) == Recover(script, tools, maxAttempts, autoFix)
  {
    var result := script.executions(0);
    trace := [Executed(None, "", result)];
    if result.ExecInterrupted? {
      return Aborted(0, "interrupted by user"), trace;
    }
    if result.ExecRaised? {
      return Escaped, trace;
    }
    if result.success {
      return Recovered(0, ""), trace;
    }
    if !autoFix {
      return Refused(0, OrElse(result.error, "recovery disabled (--no-auto-fix)"), USER_CANCEL), trace;
    }
    if tools.DoNotFix(result.error) {
      return Refused(0, result.error, tools.classify(result.error)), trace;
    }
    var failedRun, lastError, lastDiagnosis := result.run, result.error, result.error;
    var lastCategory, history := tools.classify(result.error), [];
    var attempt := 1;
    while attempt <= maxAttempts
      invariant attempt >= 1 && (attempt <= maxAttempts + 1 || attempt == 1)
      invariant Attempts(script, tools, maxAttempts,
          LoopState(failedRun, lastError, lastDiagnosis, lastCategory, history), attempt, trace)
        == Recover(script, tools, maxAttempts, autoFix)
    {
      var reply := script.agent(attempt);
      trace := trace + [Asked(failedRun, lastError, reply)];
      if reply.AgentInterrupted? {
        return Aborted(attempt - 1, lastDiagnosis), trace;
      }
      if reply.AgentFailed? {
        return Exhausted(attempt, reply.message, lastCategory), trace;
      }
      if reply.AgentRaised? {
        return Escaped, trace;
      }
      lastDiagnosis, lastCategory := OrElse(reply.summary, lastDiagnosis), OrElse(reply.category, lastCategory);
      if reply.category == REPEATED_IDENTICAL {
        return Exhausted(attempt, lastDiagnosis, lastCategory), trace;
      }
      if reply.category in AGENT_REFUSALS {
        return Refused(attempt, lastDiagnosis, reply.category), trace;
      }
      if reply.refused || reply.category != CODE_FIX {
        return Exhausted(attempt, lastDiagnosis, lastCategory), trace;
      }
      var normalized := tools.strip(lastDiagnosis);
      if normalized != "" && normalized in history {
        return Exhausted(attempt, lastDiagnosis, REPEATED_IDENTICAL), trace;
      }
      history := history + [normalized];
      var retry := script.executions(attempt);
      assert forall t: Trace, a, b :: t + [a] + [b] == t + [a, b];
      trace := trace + [Executed(Some(failedRun), normalized, retry)];
      if retry.ExecInterrupted? {
        return Aborted(attempt, lastDiagnosis), trace;
      }
      if retry.ExecRaised? {
        return Escaped, trace;
      }
      if retry.success {
        return Recovered(attempt, lastDiagnosis), trace;
      }
      if retry.error != "" && retry.error == lastError {
        return Exhausted(attempt, lastDiagnosis, REPEATED_IDENTICAL), trace;
      }
      if tools.DoNotFix(retry.error) {
        return Refused(attempt, retry.error, tools.classify(retry.error)), trace;
      }
      failedRun, lastError := retry.run, retry.error;
      attempt := attempt + 1;
    }
    return Exhausted(maxAttempts, lastDiagnosis, lastCategory), trace;
  }
}
