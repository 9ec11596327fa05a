/** A pipeline definition: its declared steps and their failure modes. */
module PipelineSchema {
  import opened Graph

  datatype Mode = Fail | Warn | Continue | Retry | SkipDownstream
  datatype Backoff = Exponential | Linear | Fixed
  datatype FailureMode = FailureMode(
    mode: Mode, maxAttempts: int, backoff: Backoff, initialDelay: real, maxDelay: real)
  datatype Step = Step(id: StepId, dependsOn: seq<StepId>, failureMode: FailureMode)

  /** Ids are unique; the pipeline loader guarantees this for every loaded pipeline. */
  ghost predicate UniqueIds(steps: seq<Step>) {
    forall i, j :: 0 <= i < j < |steps| ==> steps[i].id != steps[j].id
  }

  function Ids(steps: seq<Step>): (ids: seq<StepId>)
    ensures |ids| == |steps|
    ensures forall i :: 0 <= i < |ids| ==> ids[i] == steps[i].id
  {
    seq(|steps|, i requires 0 <= i < |steps| => steps[i].id)
  }

  ghost predicate DepsOfSteps(steps: seq<Step>, g: Deps) {
    && g.Keys == Elems(Ids(steps))
    && forall i :: 0 <= i < |steps| ==> steps[i].id in g && g[steps[i].id] == Elems(steps[i].dependsOn)
  }

  function IndexOf<T(==)>(q: seq<T>, x: T): (i: nat)
    requires x in q
    ensures i < |q| && q[i] == x && x !in q[..i]
  {
    if q[0] == x then 0
    else
      var i := IndexOf(q[1..], x);
      assert q[..i + 1] == [q[0]] + q[1..][..i];
      i + 1
  }
}
