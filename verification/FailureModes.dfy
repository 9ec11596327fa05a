/** How one step's result changes a run, per failure mode, and the status a run ends with. */
module FailureModes {
  import opened Graph
  import opened PipelineSchema
  import opened PipelineDag

  type Outputs = map<string, string>
  datatype StepStatus = Succeeded | Failed | Skipped
  datatype StepResult = StepResult(status: StepStatus, outputs: Outputs, error: string)
  datatype RunStatus = RunSucceeded | RunFailed | RunPartial

  /** The result recorded for a step that `skip_downstream` bypassed. */
  const BYPASSED := StepResult(Skipped, map[], "")

  /** The value of a `RunState`; warnings pair the step with the message recorded for it. */
  datatype RunSnapshot = RunSnapshot(
    completed: set<StepId>, failed: set<StepId>, skipped: set<StepId>,
    halted: bool, tolerated: seq<StepId>, warnings: seq<(StepId, string)>)
  {
    function Resolved(): set<StepId> {
      completed + failed + skipped
    }
  }

  const FRESH := RunSnapshot({}, {}, {}, false, [], [])

  predicate Fatal(mode: Mode) {
    mode == Fail || mode == Retry
  }

  function WarningText(error: string): string {
    if error == "" then "(no error message)" else error
  }

  ghost function Fold(g: Deps, s: RunSnapshot, step: Step, result: StepResult): RunSnapshot {
    match result.status
    case Succeeded => s.(completed := s.completed + {step.id})
    case Skipped => s.(skipped := s.skipped + {step.id})
    case Failed =>
      var t := s.(failed := s.failed + {step.id});
      match step.failureMode.mode
      case Fail => t.(halted := true)
      case Retry => t.(halted := true)
      case Warn => t.(
        tolerated := t.tolerated + [step.id],
        warnings := t.warnings + [(step.id, WarningText(result.error))])
      case Continue => t.(tolerated := t.tolerated + [step.id])
      case SkipDownstream => t.(
        tolerated := t.tolerated + [step.id],
        skipped := t.skipped + Dependents(g, step.id))
  }

  /** The steps that folding a result cuts off. */
  ghost function CutBy(g: Deps, step: Step, result: StepResult): set<StepId> {
    if result.status == Failed && step.failureMode.mode == SkipDownstream then Dependents(g, step.id) else {}
  }

  /** A failed `warn` step is recorded with its message; nothing else warns. */
  function WarningFor(step: Step, result: StepResult): (ws: seq<(StepId, string)>)
    ensures |ws| == (if result.status == Failed && step.failureMode.mode == Warn then 1 else 0)
    ensures ws != [] ==> ws[0].0 == step.id && ws[0].1 != ""
  {
    if result.status == Failed && step.failureMode.mode == Warn then [(step.id, WarningText(result.error))] else []
  }

  /** The failure-mode table read as set changes: which of the sets each result reaches. */
  ghost predicate Folded(g: Deps, s: RunSnapshot, step: Step, result: StepResult, f: RunSnapshot) {
    && f.completed == s.completed + (if result.status == Succeeded then {step.id} else {})
    && f.failed == s.failed + (if result.status == Failed then {step.id} else {})
    && f.skipped == s.skipped + (if result.status == Skipped then {step.id} else CutBy(g, step, result))
    && f.halted == (s.halted || (result.status == Failed && Fatal(step.failureMode.mode)))
    && Elems(f.tolerated) == Elems(s.tolerated) +
         (if result.status == Failed && !Fatal(step.failureMode.mode) then {step.id} else {})
    && f.warnings == s.warnings + WarningFor(step, result)
  }

  lemma FoldFollowsTable(g: Deps, s: RunSnapshot, step: Step, result: StepResult)
    ensures Folded(g, s, step, result, Fold(g, s, step, result))
  {
    ElemsAppend(s.tolerated, step.id);
    assert s.warnings + [] == s.warnings;
  }

  function DeriveRunStatus(s: RunSnapshot): RunStatus {
    if s.halted then RunFailed
    else if s.tolerated != [] || s.skipped != {} then RunPartial
    else RunSucceeded
  }

  class RunState {
    var completed: set<StepId>
    var failed: set<StepId>
    var skipped: set<StepId>
    var halted: bool
    var tolerated: seq<StepId>
    var warnings: seq<(StepId, string)>

    constructor ()
      ensures Snapshot() == FRESH
    {
      completed, failed, skipped := {}, {}, {};
      halted, tolerated, warnings := false, [], [];
    }

    function Snapshot(): RunSnapshot
      reads this
    {
      RunSnapshot(completed, failed, skipped, halted, tolerated, warnings)
    }

    method ApplyFailureMode(step: Step, result: StepResult, dag: PipelineDAG)
      requires dag.Valid() && step.id in dag.deps
      modifies this
      ensures Snapshot() == Fold(dag.deps, old(Snapshot()), step, result)
    {
      if result.status == Succeeded {
        completed := completed + {step.id};
        return;
      }
      if result.status == Skipped {
        skipped := skipped + {step.id};
        return;
      }
      var mode := step.failureMode.mode;
      failed := failed + {step.id};
      if mode == Fail || mode == Retry {
        halted := true;
        return;
      }
      tolerated := tolerated + [step.id];
      if mode == Warn {
        var message := if result.error == "" then "(no error message)" else result.error;
        warnings := warnings + [(step.id, message)];
        return;
      }
      if mode == Continue {
        return;
      }
      var downstream := dag.DownstreamOf(step.id);
      skipped := skipped + downstream;
    }
  }
}
