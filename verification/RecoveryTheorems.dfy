/** What every run of the recovery loop keeps, stated on its trace. */
module RecoveryTheorems {
  import opened Wrappers
  import opened Recovery

  /** The event at `i` may stand where it does, given the events before it. */
  ghost predicate Lawful(tools: Tools, t: Trace, i: nat)
    requires i < |t|
  {
    if i == 0 then t[0].Executed? && t[0].parent == None
    else if i % 2 == 1 then LawfulAsk(tools, t, i)
    else LawfulRetry(tools, t, i)
  }

  /** The agent is asked about the execution just made, which failed with a fixable, new error. */
  ghost predicate LawfulAsk(tools: Tools, t: Trace, i: nat)
    requires i < |t| && i % 2 == 1
  {
    && t[i].Asked? && t[i - 1].Failed()
    && t[i].run == t[i - 1].execReply.run && t[i].error == t[i - 1].execReply.error
    && !tools.DoNotFix(t[i].error)
    && (i >= 3 && t[i - 2].Asked? && t[i].error != "" ==> t[i].error != t[i - 2].error)
  }

  /** A re-execution follows an accepted fix, hangs under the failed run, and acts on a new diagnosis. */
  ghost predicate LawfulRetry(tools: Tools, t: Trace, i: nat)
    requires 0 < i < |t|
  {
    && t[i].Executed? && t[i - 1].Asked?
    && t[i].parent == Some(t[i - 1].run)
    && t[i - 1].agentReply.Diagnosed? && t[i - 1].agentReply.category == CODE_FIX && !t[i - 1].agentReply.refused
    && (t[i - 1].agentReply.summary != "" ==> t[i].basis == tools.strip(t[i - 1].agentReply.summary))
    && forall j :: 0 < j < i && j % 2 == 0 && t[j].Executed? && t[j].basis != "" ==> t[j].basis != t[i].basis
  }

  ghost predicate Disciplined(tools: Tools, t: Trace) {
    forall i :: 0 <= i < |t| ==> Lawful(tools, t, i)
  }

  /** How the outcome is read off the trace. */
  ghost predicate Fits(tools: Tools, outcome: Outcome, t: Trace) {
    && t != []
    && (outcome.Refused? <==> Declines(tools, t[|t| - 1]))
    && (outcome.Recovered? <==> t[|t| - 1].Succeeded())
    && (outcome.Aborted? <==> Interrupted(t[|t| - 1]))
    && (outcome.Escaped? <==> Raises(t[|t| - 1]))
    && (outcome.Recovered? ==> outcome.attempts == |t| / 2)
    && (outcome.Refused? ==> outcome.attempts == |t| / 2)
    && (outcome.Aborted? ==> outcome.attempts == (|t| - 1) / 2)
  }

  /** With `auto_fix` off the one execution decides, and any failure is a refusal. */
  ghost predicate FitsWithoutFixing(outcome: Outcome, e: Event) {
    && (outcome.Recovered? <==> e.Succeeded())
    && (outcome.Refused? <==> e.Failed())
    && (outcome.Aborted? <==> Interrupted(e))
    && (outcome.Escaped? <==> Raises(e))
    && (!outcome.Escaped? ==> outcome.attempts == 0)
    && (outcome.Refused? ==> outcome.category == "user_cancel" && outcome.diagnosis == RefusalText(e.execReply.error))
  }

  function RefusalText(error: string): string {
    if error != "" then error else "recovery disabled (--no-auto-fix)"
  }

  /** A failure with a do-not-fix error, or an agent's reply in one of the refusing categories. */
  predicate Declines(tools: Tools, e: Event) {
    match e
    case Executed(_, _, reply) => e.Failed() && tools.DoNotFix(reply.error)
    case Asked(_, _, reply) => reply.Diagnosed? && reply.category in AGENT_REFUSALS
  }

  lemma RepeatedIsNotARefusal()
    ensures REPEATED_IDENTICAL !in AGENT_REFUSALS
  {
    assert |REPEATED_IDENTICAL| == 18;
    assert forall c :: c in AGENT_REFUSALS ==> |c| != 18;
  }

  predicate Interrupted(e: Event) {
    match e
    case Executed(_, _, reply) => reply.ExecInterrupted?
    case Asked(_, _, reply) => reply.AgentInterrupted?
  }

  predicate Raises(e: Event) {
    match e
    case Executed(_, _, reply) => reply.ExecRaised?
    case Asked(_, _, reply) => reply.AgentRaised?
  }

  // ---- the invariant between attempts ----------------------------------------------------

  /** The loop variables describe the last execution of the trace, and the diagnoses acted on. */
  ghost predicate Describes(tools: Tools, st: LoopState, attempt: nat, t: Trace) {
    && |t| == 2 * attempt - 1
    && t[|t| - 1].Failed()
    && st.failedRun == t[|t| - 1].execReply.run && st.lastError == t[|t| - 1].execReply.error
    && !tools.DoNotFix(st.lastError)
    && (|t| >= 3 && t[|t| - 2].Asked? && st.lastError != "" ==> st.lastError != t[|t| - 2].error)
    && (forall j :: 0 < j < |t| && j % 2 == 0 && t[j].Executed? ==> t[j].basis in st.diagnoses)
  }

  lemma Extend(tools: Tools, t: Trace, e: Event)
    requires Disciplined(tools, t) && Lawful(tools, t + [e], |t|)
    ensures Disciplined(tools, t + [e])
  {
    var all := t + [e];
    forall i | 0 <= i < |all| ensures Lawful(tools, all, i) {
      if i < |t| {
        SamePrefix(tools, t, e, i);
      }
    }
  }

  lemma SamePrefix(tools: Tools, t: Trace, e: Event, i: nat)
    requires i < |t| && Lawful(tools, t, i)
    ensures Lawful(tools, t + [e], i)
  {
    assert forall j :: 0 <= j <= i ==> (t + [e])[j] == t[j];
  }

  lemma AskIsLawful(script: Script, tools: Tools, st: LoopState, attempt: nat, t: Trace)
    requires attempt >= 1 && Disciplined(tools, t) && Describes(tools, st, attempt, t)
    ensures Disciplined(tools, t + [Asked(st.failedRun, st.lastError, script.agent(attempt))])
  {
    Extend(tools, t, Asked(st.failedRun, st.lastError, script.agent(attempt)));
  }

  /** One attempt keeps the discipline, and ends in a fitting outcome or a described state. */
  lemma RoundKeeps(script: Script, tools: Tools, st: LoopState, attempt: nat, t: Trace)
    requires attempt >= 1 && Disciplined(tools, t) && Describes(tools, st, attempt, t)
    ensures var r := OneRound(script, tools, st, attempt);
      && Disciplined(tools, t + r.events)
      && (r.Stop? ==> Fits(tools, r.outcome, t + r.events) && |t + r.events| <= 2 * attempt + 1)
      && (r.Stop? && r.outcome.Exhausted? ==> r.outcome.attempts == |t + r.events| / 2)
      && (r.Again? ==> Describes(tools, r.state, attempt + 1, t + r.events))
  {
    var asked := Asked(st.failedRun, st.lastError, script.agent(attempt));
    AskIsLawful(script, tools, st, attempt, t);
    RepeatedIsNotARefusal();
    var decision := AfterAgent(tools, st, attempt, script.agent(attempt));
    if decision.Retry? {
      var retried := Executed(
        Some(st.failedRun), tools.strip(decision.state.lastDiagnosis), script.executions(attempt));
      RetryIsLawful(tools, st, attempt, t, asked, decision.state, retried);
      assert t + [asked, retried] == t + [asked] + [retried];
    }
  }

  lemma RetryIsLawful(
      tools: Tools, st: LoopState, attempt: nat, t: Trace, asked: Event, next: LoopState, retried: Event)
    requires attempt >= 1 && Describes(tools, st, attempt, t) && Disciplined(tools, t + [asked])
    requires asked.Asked? && asked.run == st.failedRun
    requires AfterAgent(tools, st, attempt, asked.agentReply) == Retry(next)
    requires retried.Executed? && retried.parent == Some(st.failedRun)
    requires retried.basis == tools.strip(next.lastDiagnosis)
    ensures Disciplined(tools, t + [asked] + [retried])
  {
    var all := t + [asked] + [retried];
    var i := |t| + 1;
    forall j | 0 < j < i && j % 2 == 0 && all[j].Executed? && all[j].basis != ""
      ensures all[j].basis != all[i].basis
    {
      assert all[j] == t[j];
    }
    Extend(tools, t + [asked], retried);
  }

  ghost predicate EndsWell(tools: Tools, maxAttempts: int, r: (Outcome, Trace)) {
    && Disciplined(tools, r.1) && Fits(tools, r.0, r.1)
    && (r.0.Exhausted? ==> r.0.attempts == if maxAttempts < 0 then maxAttempts else |r.1| / 2)
    && |r.1| <= 2 * (if maxAttempts < 0 then 0 else maxAttempts) + 1
  }

  lemma {:induction false} AttemptsKeep(
      script: Script, tools: Tools, maxAttempts: int, st: LoopState, attempt: nat, t: Trace)
    requires attempt >= 1 && Disciplined(tools, t) && Describes(tools, st, attempt, t)
    requires attempt == 1 || attempt <= maxAttempts + 1
    ensures EndsWell(tools, maxAttempts, Attempts(script, tools, maxAttempts, st, attempt, t))
    decreases maxAttempts - attempt
  {
    if attempt <= maxAttempts {
      RoundKeeps(script, tools, st, attempt, t);
      var r := OneRound(script, tools, st, attempt);
      if r.Again? {
        AttemptsKeep(script, tools, maxAttempts, r.state, attempt + 1, t + r.events);
      } else {
        assert EndsWell(tools, maxAttempts, (r.outcome, t + r.events));
      }
    } else {
      BudgetSpent(tools, maxAttempts, st, attempt, t);
    }
  }

  lemma BudgetSpent(tools: Tools, maxAttempts: int, st: LoopState, attempt: nat, t: Trace)
    requires attempt >= 1 && Disciplined(tools, t) && Describes(tools, st, attempt, t)
    requires attempt > maxAttempts && (attempt == 1 || attempt <= maxAttempts + 1)
    ensures EndsWell(tools, maxAttempts, (Exhausted(maxAttempts, st.lastDiagnosis, st.lastCategory), t))
  {
  }

  /** Every run is disciplined from its first event to its last, and its outcome can be read off the trace. */
  lemma RunsAreDisciplined(script: Script, tools: Tools, maxAttempts: int, autoFix: bool)
    ensures var (outcome, trace) := Recover(script, tools, maxAttempts, autoFix);
      && Disciplined(tools, trace) && (autoFix ==> Fits(tools, outcome, trace))
      && (outcome.Exhausted? ==> outcome.attempts == if maxAttempts < 0 then maxAttempts else |trace| / 2)
      && |trace| <= 2 * (if maxAttempts < 0 then 0 else maxAttempts) + 1
      && (!autoFix ==> |trace| == 1 && FitsWithoutFixing(outcome, trace[0]))
  {
    var first := script.executions(0);
    var t := [Executed(None, "", first)];
    assert Lawful(tools, t, 0);
    if first.Ran? && !first.success && autoFix && !tools.DoNotFix(first.error) {
      var st := LoopState(first.run, first.error, first.error, tools.classify(first.error), []);
      AttemptsKeep(script, tools, maxAttempts, st, 1, t);
    }
  }

  // ---- what that means ---------------------------------------------------------------------

  function AgentCalls(t: Trace): nat {
    if t == [] then 0 else AgentCalls(t[..|t| - 1]) + (if t[|t| - 1].Asked? then 1 else 0)
  }

  function Executions(t: Trace): nat {
    if t == [] then 0 else Executions(t[..|t| - 1]) + (if t[|t| - 1].Executed? then 1 else 0)
  }

  lemma {:induction false} EventsAlternate(tools: Tools, t: Trace, n: nat)
    requires Disciplined(tools, t) && n <= |t|
    ensures AgentCalls(t[..n]) == n / 2 && Executions(t[..n]) == (n + 1) / 2
  {
    if n > 0 {
      EventsAlternate(tools, t, n - 1);
      assert Lawful(tools, t, n - 1);
      assert t[..n][..n - 1] == t[..n - 1];
    }
  }

  /** `Recovered(k)`: the last execution succeeded, all others failed, k agent calls and k + 1 executions. */
  lemma RecoveredExactly(script: Script, tools: Tools, maxAttempts: int, autoFix: bool)
    ensures var (outcome, trace) := Recover(script, tools, maxAttempts, autoFix);
      && trace != []
      && (outcome.Recovered? <==> trace[|trace| - 1].Succeeded())
      && (forall i :: 0 <= i < |trace| - 1 ==> !trace[i].Succeeded())
      && (outcome.Recovered? ==> AgentCalls(trace) == outcome.attempts && Executions(trace) == outcome.attempts + 1)
  {
    var (outcome, trace) := Recover(script, tools, maxAttempts, autoFix);
    RunsAreDisciplined(script, tools, maxAttempts, autoFix);
    EventsAlternate(tools, trace, |trace|);
    assert trace[..|trace|] == trace;
    forall i | 0 <= i < |trace| - 1 ensures !trace[i].Succeeded() {
      assert Lawful(tools, trace, i) && Lawful(tools, trace, i + 1);
    }
    assert Lawful(tools, trace, |trace| - 1);
  }

  /** The budget bounds the agent calls, whatever happens; a budget of zero or less allows none. */
  lemma BudgetIsKept(script: Script, tools: Tools, maxAttempts: int, autoFix: bool)
    ensures AgentCalls(Recover(script, tools, maxAttempts, autoFix).1) <= if maxAttempts < 0 then 0 else maxAttempts
    ensures !autoFix ==> AgentCalls(Recover(script, tools, maxAttempts, autoFix).1) == 0
  {
    var trace := Recover(script, tools, maxAttempts, autoFix).1;
    RunsAreDisciplined(script, tools, maxAttempts, autoFix);
    EventsAlternate(tools, trace, |trace|);
    assert trace[..|trace|] == trace;
  }

  /**
   `Exhausted(k)` reports the agent calls made, except that a negative budget, which makes none, is itself
   what is reported.
   */
  lemma ExhaustedCountsCalls(script: Script, tools: Tools, maxAttempts: int, autoFix: bool)
    ensures var (outcome, trace) := Recover(script, tools, maxAttempts, autoFix);
      outcome.Exhausted? ==> outcome.attempts == if maxAttempts < 0 then maxAttempts else AgentCalls(trace)
  {
    var trace := Recover(script, tools, maxAttempts, autoFix).1;
    RunsAreDisciplined(script, tools, maxAttempts, autoFix);
    EventsAlternate(tools, trace, |trace|);
    assert trace[..|trace|] == trace;
  }

  /** Each re-execution hangs under the execution just before it, which failed with a fixable error. */
  lemma ParentIsPrecedingFailure(script: Script, tools: Tools, maxAttempts: int, autoFix: bool, i: nat)
    requires var trace := Recover(script, tools, maxAttempts, autoFix).1; 0 < i < |trace| && trace[i].Executed?
    ensures var trace := Recover(script, tools, maxAttempts, autoFix).1;
      && i >= 2 && trace[i - 2].Failed() && trace[i].parent == Some(trace[i - 2].execReply.run)
      && !tools.DoNotFix(trace[i - 2].execReply.error)
  {
    var trace := Recover(script, tools, maxAttempts, autoFix).1;
    RunsAreDisciplined(script, tools, maxAttempts, autoFix);
    assert Lawful(tools, trace, i) && Lawful(tools, trace, i - 1);
  }

  /** No agent call ever follows an error classified do-not-fix, nor a second identical error in a row. */
  lemma AgentSeesOnlyFixableErrors(script: Script, tools: Tools, maxAttempts: int, autoFix: bool, i: nat)
    requires var trace := Recover(script, tools, maxAttempts, autoFix).1; i < |trace| && trace[i].Asked?
    ensures var trace := Recover(script, tools, maxAttempts, autoFix).1;
      && i >= 1 && trace[i - 1].Failed() && trace[i].error == trace[i - 1].execReply.error
      && !tools.DoNotFix(trace[i].error)
      && (i >= 3 && trace[i].error != "" ==> trace[i - 3].Failed() && trace[i - 3].execReply.error != trace[i].error)
  {
    var trace := Recover(script, tools, maxAttempts, autoFix).1;
    RunsAreDisciplined(script, tools, maxAttempts, autoFix);
    assert Lawful(tools, trace, i);
    if i >= 3 {
      assert Lawful(tools, trace, i - 2);
    }
  }

  /** No non-empty diagnosis is re-executed twice; the basis is what the agent said, when it said something. */
  lemma NoDiagnosisTwice(script: Script, tools: Tools, maxAttempts: int, autoFix: bool, i: nat, j: nat)
    requires var trace := Recover(script, tools, maxAttempts, autoFix).1;
      0 < i < j < |trace| && trace[i].Executed? && trace[j].Executed? && trace[i].basis != ""
    ensures var trace := Recover(script, tools, maxAttempts, autoFix).1;
      && trace[i].basis != trace[j].basis
      && trace[i - 1].Asked? && trace[i - 1].agentReply.Diagnosed?
      && (trace[i - 1].agentReply.summary != "" ==> trace[i].basis == tools.strip(trace[i - 1].agentReply.summary))
  {
    var trace := Recover(script, tools, maxAttempts, autoFix).1;
    RunsAreDisciplined(script, tools, maxAttempts, autoFix);
    assert Lawful(tools, trace, i) && Lawful(tools, trace, j);
  }

  /** A refusal is exactly a last event that declines: a do-not-fix failure or a refusing category. */
  lemma RefusesIff(script: Script, tools: Tools, maxAttempts: int)
    ensures var (outcome, trace) := Recover(script, tools, maxAttempts, true);
      && trace != [] && (outcome.Refused? <==> Declines(tools, trace[|trace| - 1]))
      && (outcome.Refused? ==> outcome.attempts == AgentCalls(trace))
  {
    var trace := Recover(script, tools, maxAttempts, true).1;
    RunsAreDisciplined(script, tools, maxAttempts, true);
    EventsAlternate(tools, trace, |trace|);
    assert trace[..|trace|] == trace;
  }

  /** The failing input: an operation that raises at once takes its exception out of the loop. */
  lemma RaisingOperationEscapes(tools: Tools, maxAttempts: int, autoFix: bool)
    ensures var script := Script(k => ExecRaised, k => AgentRaised);
      Recover(script, tools, maxAttempts, autoFix) == (Escaped, [Executed(None, "", ExecRaised)])
  {
  }

  /** The loop lets an exception through exactly when the last call it made raised one. */
  lemma EscapesIff(script: Script, tools: Tools, maxAttempts: int, autoFix: bool)
    ensures var (outcome, trace) := Recover(script, tools, maxAttempts, autoFix);
      trace != [] && (outcome.Escaped? <==> Raises(trace[|trace| - 1]))
      && (outcome.Aborted? <==> Interrupted(trace[|trace| - 1]))
  {
    RunsAreDisciplined(script, tools, maxAttempts, autoFix);
  }
}
