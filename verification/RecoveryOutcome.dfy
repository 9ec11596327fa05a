/**
 When the recovery loop stops and what it then reports, stated on the trace alone: of every event it is said
 whether the run may go on after it, and a finished trace determines the whole outcome.
 */
module RecoveryOutcome {
  import opened Wrappers
  import opened Recovery

  // ---- reading a trace ---------------------------------------------------------------------

  /** The agent's latest non-empty summary; before there is one, the error of the first execution. */
  function DiagnosisSoFar(t: Trace): string {
    if t == [] then ""
    else
      match t[|t| - 1]
      case Asked(_, _, Diagnosed(summary, _, _)) => if summary != "" then summary else DiagnosisSoFar(t[..|t| - 1])
      case Executed(None, _, Ran(_, _, error)) => error
      case _ => DiagnosisSoFar(t[..|t| - 1])
  }

  /** The agent's latest non-empty category; before there is one, that of the error of the first execution. */
  function CategorySoFar(tools: Tools, t: Trace): string {
    if t == [] then ""
    else
      match t[|t| - 1]
      case Asked(_, _, Diagnosed(_, category, _)) =>
        if category != "" then category else CategorySoFar(tools, t[..|t| - 1])
      case Executed(None, _, Ran(_, _, error)) => tools.classify(error)
      case _ => CategorySoFar(tools, t[..|t| - 1])
  }

  /** The error is of a kind the loop must not try to fix. */
  predicate NotFixable(tools: Tools, error: string) {
    var kind := tools.classify(error);
    kind == "auth" || kind == "permission" || kind == "resource_exhaustion" || kind == "user_cancel"
    || kind == "repeated_identical" || kind == "out_of_scope"
  }

  /** The last execution failed with the error of the one before it. */
  predicate RepeatsError(t: Trace) {
    && |t| >= 3 && t[|t| - 1].Failed() && t[|t| - 3].Failed()
    && t[|t| - 1].execReply.error != "" && t[|t| - 1].execReply.error == t[|t| - 3].execReply.error
  }

  /** Some re-execution of the trace acted on this diagnosis. */
  ghost predicate ActedOn(t: Trace, basis: string) {
    exists j :: 0 < j < |t| && t[j].Executed? && t[j].basis == basis
  }

  /** The agent's reply is an accepted fix. */
  predicate FixesCode(reply: AgentReply) {
    reply.Diagnosed? && !reply.refused && reply.category == "code_fix"
  }

  /** The fix is for a diagnosis acted on before. */
  ghost predicate RepeatsDiagnosis(tools: Tools, t: Trace) {
    var basis := tools.strip(DiagnosisSoFar(t));
    basis != "" && ActedOn(t, basis)
  }

  /** The agent's reply names one of the categories that end in a refusal. */
  predicate RefusesToFix(reply: AgentReply) {
    reply.Diagnosed? && (reply.category == "auth" || reply.category == "permission"
      || reply.category == "resource_exhaustion" || reply.category == "out_of_scope")
  }

  /** Nothing may follow the last event. */
  ghost predicate Ends(tools: Tools, maxAttempts: int, t: Trace)
    requires t != []
  {
    match t[|t| - 1]
    case Executed(_, _, reply) =>
      !t[|t| - 1].Failed() || RepeatsError(t) || NotFixable(tools, reply.error) || |t| / 2 >= maxAttempts
    case Asked(_, _, reply) => !FixesCode(reply) || RepeatsDiagnosis(tools, t)
  }

  /** Why a run that ends with `t` is given up, and the category it then reports. */
  ghost predicate GivenUp(tools: Tools, maxAttempts: int, t: Trace, category: string)
    requires t != []
  {
    match t[|t| - 1]
    case Executed(_, _, reply) =>
      && t[|t| - 1].Failed()
      && (if RepeatsError(t) then category == "repeated_identical"
          else !NotFixable(tools, reply.error) && |t| / 2 >= maxAttempts && category == CategorySoFar(tools, t))
    case Asked(_, _, reply) =>
      || (reply.AgentFailed? && category == CategorySoFar(tools, t))
      || (FixesCode(reply) && RepeatsDiagnosis(tools, t) && category == "repeated_identical")
      || (reply.Diagnosed? && !FixesCode(reply) && !RefusesToFix(reply) && category == CategorySoFar(tools, t))
  }

  /** The outcome of a run whose trace is `t`, with fixing on. */
  ghost predicate ReadsOff(tools: Tools, maxAttempts: int, t: Trace, outcome: Outcome)
    requires t != []
  {
    var last := t[|t| - 1];
    match outcome
    case Recovered(attempts, diagnosis) =>
      last.Succeeded() && attempts == |t| / 2 && diagnosis == if |t| == 1 then "" else DiagnosisSoFar(t)
    case Escaped => if last.Executed? then last.execReply.ExecRaised? else last.agentReply.AgentRaised?
    case Aborted(attempts, diagnosis) =>
      && (if last.Executed? then last.execReply.ExecInterrupted? else last.agentReply.AgentInterrupted?)
      && attempts == (|t| - 1) / 2
      && diagnosis == if |t| == 1 then "interrupted by user" else DiagnosisSoFar(t)
    case Refused(attempts, diagnosis, category) =>
      && attempts == |t| / 2
      && (if last.Executed? then
            && last.Failed() && NotFixable(tools, last.execReply.error) && !RepeatsError(t)
            && diagnosis == last.execReply.error && category == tools.classify(last.execReply.error)
          else RefusesToFix(last.agentReply) && diagnosis == DiagnosisSoFar(t) && category == last.agentReply.category)
    case Exhausted(attempts, diagnosis, category) =>
      && GivenUp(tools, maxAttempts, t, category)
      && attempts == (if maxAttempts < 0 then maxAttempts else |t| / 2)
      && diagnosis == if last.Asked? && last.agentReply.AgentFailed? then last.agentReply.message else DiagnosisSoFar(t)
  }

  /** The run goes on after every event but its last. */
  ghost predicate GoesOn(tools: Tools, maxAttempts: int, t: Trace) {
    forall n :: 0 < n < |t| ==> !Ends(tools, maxAttempts, t[..n])
  }

  ghost predicate RunsToItsEnd(tools: Tools, maxAttempts: int, r: (Outcome, Trace)) {
    && r.1 != [] && GoesOn(tools, maxAttempts, r.1)
    && Ends(tools, maxAttempts, r.1) && ReadsOff(tools, maxAttempts, r.1, r.0)
  }

  // ---- the loop variables, read off the trace --------------------------------------------------

  ghost predicate ReadsState(tools: Tools, st: LoopState, attempt: nat, t: Trace) {
    && |t| == 2 * attempt - 1
    && t[|t| - 1].Failed() && !RepeatsError(t) && !NotFixable(tools, st.lastError)
    && st.lastError == t[|t| - 1].execReply.error
    && st.lastDiagnosis == DiagnosisSoFar(t) && st.lastCategory == CategorySoFar(tools, t)
    && forall d :: d in st.diagnoses && d != "" <==> ActedOn(t, d) && d != ""
  }

  lemma GoesOnBy(tools: Tools, maxAttempts: int, t: Trace, e: Event)
    requires GoesOn(tools, maxAttempts, t) && t != [] && !Ends(tools, maxAttempts, t)
    ensures GoesOn(tools, maxAttempts, t + [e])
  {
    forall n | 0 < n < |t + [e]| ensures !Ends(tools, maxAttempts, (t + [e])[..n]) {
      assert (t + [e])[..n] == t[..n];
      assert t[..|t|] == t;
    }
  }

  lemma ActedOnBy(t: Trace, e: Event, basis: string)
    requires t != []
    ensures ActedOn(t + [e], basis) <==> ActedOn(t, basis) || (e.Executed? && e.basis == basis)
  {
    if ActedOn(t, basis) {
      var j :| 0 < j < |t| && t[j].Executed? && t[j].basis == basis;
      assert (t + [e])[j] == t[j];
    }
    if e.Executed? && e.basis == basis {
      assert (t + [e])[|t|] == e;
    }
  }

  lemma ReadsBy(tools: Tools, t: Trace, e: Event)
    requires t != []
    ensures e.Asked? && e.agentReply.Diagnosed? ==>
      && DiagnosisSoFar(t + [e]) == OrElse(e.agentReply.summary, DiagnosisSoFar(t))
      && CategorySoFar(tools, t + [e]) == OrElse(e.agentReply.category, CategorySoFar(tools, t))
    ensures (e.Executed? && e.parent.Some?) || (e.Asked? && !e.agentReply.Diagnosed?) ==>
      && DiagnosisSoFar(t + [e]) == DiagnosisSoFar(t)
      && CategorySoFar(tools, t + [e]) == CategorySoFar(tools, t)
  {
    assert (t + [e])[..|t|] == t;
  }

  /** The agent's reply ends the run with the outcome read off the trace, or is an accepted new fix. */
  lemma ReplyReadsOff(tools: Tools, maxAttempts: int, st: LoopState, attempt: nat, t: Trace, asked: Event)
    requires attempt >= 1 && ReadsState(tools, st, attempt, t) && asked.Asked? && 1 <= attempt <= maxAttempts
    ensures var d := AfterAgent(tools, st, attempt, asked.agentReply);
      && (d.GiveUp? <==> Ends(tools, maxAttempts, t + [asked]))
      && (d.GiveUp? ==> ReadsOff(tools, maxAttempts, t + [asked], d.outcome))
      && (d.Retry? ==> d.state.lastDiagnosis == DiagnosisSoFar(t + [asked]))
      && (d.Retry? ==> d.state.lastCategory == CategorySoFar(tools, t + [asked]))
      && (d.Retry? ==> d.state.lastError == st.lastError)
      && (d.Retry? ==> d.state.diagnoses == st.diagnoses + [tools.strip(d.state.lastDiagnosis)])
  {
    ReadsBy(tools, t, asked);
    RefusalsAre();
    if asked.agentReply.Diagnosed? {
      ActedOnBy(t, asked, tools.strip(DiagnosisSoFar(t + [asked])));
    }
  }

  lemma RefusalsAre()
    ensures "repeated_identical" !in AGENT_REFUSALS && "code_fix" !in AGENT_REFUSALS
    ensures "repeated_identical" != "code_fix"
  {
    assert |"repeated_identical"| == 18 && |"code_fix"| == 8;
    assert forall c :: c in AGENT_REFUSALS ==> |c| != 18 && |c| != 8;
  }

  lemma RetryReadsOff(
      tools: Tools, maxAttempts: int, st: LoopState, next: LoopState, attempt: nat, t: Trace, asked: Event,
      retried: Event)
    requires 1 <= attempt <= maxAttempts && ReadsState(tools, st, attempt, t) && asked.Asked?
    requires next.lastDiagnosis == DiagnosisSoFar(t + [asked]) && next.lastError == st.lastError
    requires next.lastCategory == CategorySoFar(tools, t + [asked])
    requires next.diagnoses == st.diagnoses + [tools.strip(next.lastDiagnosis)]
    requires retried.Executed? && retried.parent.Some? && retried.basis == tools.strip(next.lastDiagnosis)
    ensures var all := t + [asked] + [retried];
            var r := AfterRetry(tools, next, attempt, retried.execReply, []);
      && (r.Stop? ==> Ends(tools, maxAttempts, all) && ReadsOff(tools, maxAttempts, all, r.outcome))
      && (r.Again? ==> ReadsState(tools, r.state, attempt + 1, all))
      && (r.Again? && attempt < maxAttempts ==> !Ends(tools, maxAttempts, all))
  {
    var all := t + [asked] + [retried];
    ReadsBy(tools, t + [asked], retried);
    assert all[|all| - 1] == retried && all[|all| - 3] == t[|t| - 1];
    forall d ensures ActedOn(all, d) <==> ActedOn(t, d) || d == retried.basis {
      ActedOnBy(t, asked, d);
      ActedOnBy(t + [asked], retried, d);
    }
  }

  lemma RoundReadsOff(script: Script, tools: Tools, maxAttempts: int, st: LoopState, attempt: nat, t: Trace)
    requires 1 <= attempt <= maxAttempts && ReadsState(tools, st, attempt, t) && GoesOn(tools, maxAttempts, t)
    ensures var r := OneRound(script, tools, st, attempt);
      && GoesOn(tools, maxAttempts, t + r.events)
      && (r.Stop? ==> RunsToItsEnd(tools, maxAttempts, (r.outcome, t + r.events)))
      && (r.Again? ==> ReadsState(tools, r.state, attempt + 1, t + r.events))
  {
    var asked := Asked(st.failedRun, st.lastError, script.agent(attempt));
    GoesOnBy(tools, maxAttempts, t, asked);
    ReplyReadsOff(tools, maxAttempts, st, attempt, t, asked);
    var d := AfterAgent(tools, st, attempt, script.agent(attempt));
    if d.Retry? {
      var retried := Executed(Some(st.failedRun), tools.strip(d.state.lastDiagnosis), script.executions(attempt));
      GoesOnBy(tools, maxAttempts, t + [asked], retried);
      RetryReadsOff(tools, maxAttempts, st, d.state, attempt, t, asked, retried);
      assert t + [asked, retried] == t + [asked] + [retried];
    }
  }

  lemma {:induction false} AttemptsReadOff(
      script: Script, tools: Tools, maxAttempts: int, st: LoopState, attempt: nat, t: Trace)
    requires attempt >= 1 && ReadsState(tools, st, attempt, t) && GoesOn(tools, maxAttempts, t)
    requires attempt == 1 || attempt <= maxAttempts + 1
    ensures RunsToItsEnd(tools, maxAttempts, Attempts(script, tools, maxAttempts, st, attempt, t))
    decreases maxAttempts - attempt
  {
    if attempt <= maxAttempts {
      RoundReadsOff(script, tools, maxAttempts, st, attempt, t);
      var r := OneRound(script, tools, st, attempt);
      if r.Again? {
        AttemptsReadOff(script, tools, maxAttempts, r.state, attempt + 1, t + r.events);
      }
    }
  }

  /** With fixing on, a run goes on after an event exactly while it may, and its trace tells its outcome. */
  lemma RunEndsWhenItMust(script: Script, tools: Tools, maxAttempts: int)
    ensures RunsToItsEnd(tools, maxAttempts, Recover(script, tools, maxAttempts, true))
  {
    var first := script.executions(0);
    var t := [Executed(None, "", first)];
    assert t[..0] == [];
    if first.Ran? && !first.success && !NotFixable(tools, first.error) {
      var st := LoopState(first.run, first.error, first.error, tools.classify(first.error), []);
      AttemptsReadOff(script, tools, maxAttempts, st, 1, t);
    }
  }

  /** `Exhausted` exactly for the five reasons of `GivenUp`, each with the category it reports. */
  lemma ExhaustedIff(script: Script, tools: Tools, maxAttempts: int)
    ensures var (outcome, trace) := Recover(script, tools, maxAttempts, true);
      && trace != []
      && (outcome.Exhausted? <==> exists category :: GivenUp(tools, maxAttempts, trace, category))
      && (outcome.Exhausted? ==> GivenUp(tools, maxAttempts, trace, outcome.lastCategory))
  {
    RunEndsWhenItMust(script, tools, maxAttempts);
  }

  // ---- whose replies they are ------------------------------------------------------------------

  /** Executions and questions alternate, and the replies are those the world gave, in order. */
  ghost predicate Replies(script: Script, t: Trace) {
    forall i :: 0 <= i < |t| ==>
      if i % 2 == 0 then t[i].Executed? && t[i].execReply == script.executions(i / 2)
      else t[i].Asked? && t[i].agentReply == script.agent((i + 1) / 2)
  }

  lemma {:induction false} AttemptsReply(
      script: Script, tools: Tools, maxAttempts: int, st: LoopState, attempt: nat, t: Trace)
    requires attempt >= 1 && |t| == 2 * attempt - 1 && Replies(script, t)
    ensures Replies(script, Attempts(script, tools, maxAttempts, st, attempt, t).1)
    decreases maxAttempts - attempt
  {
    if attempt <= maxAttempts {
      var r := OneRound(script, tools, st, attempt);
      RoundReplies(script, tools, st, attempt, t);
      if r.Again? {
        AttemptsReply(script, tools, maxAttempts, r.state, attempt + 1, t + r.events);
      }
    }
  }

  lemma RoundReplies(script: Script, tools: Tools, st: LoopState, attempt: nat, t: Trace)
    requires attempt >= 1 && |t| == 2 * attempt - 1 && Replies(script, t)
    ensures var r := OneRound(script, tools, st, attempt);
      Replies(script, t + r.events) && (r.Again? ==> |r.events| == 2)
  {
  }

  /** The loop asks for each execution and each fix once, in turn, and works with what it gets. */
  lemma RepliesInOrder(script: Script, tools: Tools, maxAttempts: int, autoFix: bool)
    ensures Replies(script, Recover(script, tools, maxAttempts, autoFix).1)
  {
    var first := script.executions(0);
    if first.Ran? && !first.success && autoFix && !tools.DoNotFix(first.error) {
      var st := LoopState(first.run, first.error, first.error, tools.classify(first.error), []);
      AttemptsReply(script, tools, maxAttempts, st, 1, [Executed(None, "", first)]);
    }
  }
}
