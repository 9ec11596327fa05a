/**
 The persisting step sink: every attempt that starts opens one `step_runs` row, and the
 matching finish closes that same row, however the steps of a wave interleave, also between
 the two halves of a call.
 */
module StepSink {
  import opened Graph
  import opened PipelineSchema
  import opened FailureModes
  import opened StepRetry

  type Key = (StepId, nat)
  datatype RowStatus = Running | Terminal(result: StepResult)
  datatype StepRow = StepRow(key: Key, status: RowStatus)

  /** The stretches of a sink call between its awaits: two of `step_started`, two of `step_finished`. */
  datatype Event =
    | RowCreated(key: Key)
    | Opened(key: Key)
    | Popped(key: Key)
    | RowFinished(key: Key, result: StepResult)

  /**
   The `_open` dictionary, the `step_runs` table (a row's id is its position), and the row ids in the
   hands of calls suspended at an await.
   */
  datatype SinkState = SinkState(open: map<Key, nat>, rows: seq<StepRow>, inHand: map<Key, nat>)
  {
    ghost predicate Valid() {
      && (forall key :: key in open ==> open[key] < |rows|)
      && (forall key :: key in inHand ==> inHand[key] < |rows|)
    }
  }

  function Apply(s: SinkState, e: Event): (s': SinkState)
    requires s.Valid()
    ensures s'.Valid()
  {
    match e
    case RowCreated(key) => SinkState(s.open, s.rows + [StepRow(key, Running)], s.inHand[key := |s.rows|])
    case Opened(key) =>
      if key in s.inHand then SinkState(s.open[key := s.inHand[key]], s.rows, s.inHand - {key}) else s
    case Popped(key) =>
      if key in s.open then SinkState(s.open - {key}, s.rows, s.inHand[key := s.open[key]])
      else SinkState(s.open, s.rows, s.inHand - {key})
    case RowFinished(key, result) =>
      if key in s.inHand then
        var id := s.inHand[key];
        SinkState(s.open, s.rows[id := StepRow(s.rows[id].key, Terminal(result))], s.inHand - {key})
      else s
  }

  /** Up to the last stretch of `step_finished`: a finish without a start first creates the row it closes. */
  function AboutToFinish(s: SinkState, key: Key): (s': SinkState)
    requires s.Valid()
    ensures s'.Valid()
  {
    if key in s.open then Apply(s, Popped(key)) else Apply(Apply(s, Popped(key)), RowCreated(key))
  }

  class PersistingStepSink {
    var open: map<Key, nat>
    var rows: seq<StepRow>
    ghost var inHand: map<Key, nat>

    constructor ()
      ensures State() == SinkState(map[], [], map[]) && State().Valid()
    {
      open, rows, inHand := map[], [], map[];
    }

    ghost function State(): SinkState
      reads this
    {
      SinkState(open, rows, inHand)
    }

    method StepStarted(step: StepId, attempt: nat)
      requires State().Valid()
      modifies this
      ensures State() == Apply(Apply(old(State()), RowCreated((step, attempt))), Opened((step, attempt)))
      ensures rows == old(rows) + [StepRow((step, attempt), Running)]
      ensures open == old(open)[(step, attempt) := |old(rows)|]
    {
      var stepRunId := CreateStepRun(step, attempt);
      open := open[(step, attempt) := stepRunId];
      inHand := inHand - {(step, attempt)};
    }

    method StepFinished(step: StepId, attempt: nat, result: StepResult)
      requires State().Valid()
      modifies this
      ensures var key := (step, attempt);
        State() == Apply(AboutToFinish(old(State()), key), RowFinished(key, result))
      ensures open == old(open) - {(step, attempt)}
      ensures var key := (step, attempt);
        if key in old(open) then
          var id := old(open)[key];
          rows == old(rows)[id := old(rows)[id].(status := Terminal(result))]
        else rows == old(rows) + [StepRow(key, Terminal(result))]
    {
      var key := (step, attempt);
      var stepRunId;
      if key in open {
        stepRunId := open[key];
        open := open - {key};
        inHand := inHand[key := stepRunId];
      } else {
        inHand := inHand - {key};
        stepRunId := CreateStepRun(step, attempt);
      }
      rows := rows[stepRunId := rows[stepRunId].(status := Terminal(result))];
      inHand := inHand - {key};
    }

    method CreateStepRun(step: StepId, attempt: nat) returns (id: nat)
      requires State().Valid()
      modifies this`rows, this`inHand
      ensures id == |old(rows)| && State() == Apply(old(State()), RowCreated((step, attempt)))
    {
      id := |rows|;
      rows := rows + [StepRow((step, attempt), Running)];
      inHand := inHand[(step, attempt) := id];
    }
  }

  // ---- traces -------------------------------------------------------------------

  function Replay(trace: seq<Event>): (s: SinkState)
    ensures s.Valid()
  {
    if trace == [] then SinkState(map[], [], map[])
    else Apply(Replay(trace[..|trace| - 1]), trace[|trace| - 1])
  }

  function OfStep(trace: seq<Event>, step: StepId): seq<Event> {
    if trace == [] then []
    else
      var e := trace[|trace| - 1];
      OfStep(trace[..|trace| - 1], step) + (if e.key.0 == step then [e] else [])
  }

  function OfKey(trace: seq<Event>, key: Key): seq<Event> {
    if trace == [] then []
    else
      var e := trace[|trace| - 1];
      OfKey(trace[..|trace| - 1], key) + (if e.key == key then [e] else [])
  }

  lemma {:induction false} KeyWithinStep(trace: seq<Event>, key: Key)
    ensures OfKey(trace, key) == OfKey(OfStep(trace, key.0), key)
  {
    if trace != [] {
      var n := |trace| - 1;
      KeyWithinStep(trace[..n], key);
      var kept := OfStep(trace[..n], key.0);
      if trace[n].key.0 == key.0 {
        assert (kept + [trace[n]])[..|kept|] == kept;
      } else {
        assert OfStep(trace, key.0) == kept;
      }
    }
  }

  lemma {:induction false} OfKeyConcat(a: seq<Event>, b: seq<Event>, key: Key)
    ensures OfKey(a + b, key) == OfKey(a, key) + OfKey(b, key)
  {
    if b == [] {
      assert a + b == a;
    } else {
      var n := |b| - 1;
      assert (a + b)[..|a + b| - 1] == a + b[..n];
      OfKeyConcat(a, b[..n], key);
    }
  }

  // ---- one key's life -------------------------------------------------------------

  ghost function RowsOf(s: SinkState, key: Key): set<nat> {
    set i: nat | i < |s.rows| && s.rows[i].key == key
  }

  ghost predicate OneRow(s: SinkState, key: Key, id: nat, status: RowStatus) {
    id < |s.rows| && RowsOf(s, key) == {id} && s.rows[id].status == status
  }

  /** The events of one attempt, in the order its own calls make them. */
  function Life(key: Key, result: StepResult): seq<Event> {
    [RowCreated(key), Opened(key), Popped(key), RowFinished(key, result)]
  }

  /** The key has lived through a beginning of such a life. */
  ghost predicate Paired(seen: seq<Event>, key: Key) {
    && |seen| <= 4
    && (|seen| > 0 ==> seen[0] == RowCreated(key)) && (|seen| > 1 ==> seen[1] == Opened(key))
    && (|seen| > 2 ==> seen[2] == Popped(key)) && (|seen| > 3 ==> seen[3].RowFinished? && seen[3].key == key)
  }

  /** What the sink holds for a key that has seen `seen`. */
  ghost predicate Tracks(s: SinkState, key: Key, seen: seq<Event>) {
    && (key in s.open <==> |seen| == 2)
    && (key in s.inHand <==> |seen| == 1 || |seen| == 3)
    && (|seen| == 0 ==> RowsOf(s, key) == {})
    && (key in s.open ==> OneRow(s, key, s.open[key], Running))
    && (key in s.inHand ==> OneRow(s, key, s.inHand[key], Running))
    && (|seen| == 4 && seen[3].RowFinished? ==> exists id :: OneRow(s, key, id, Terminal(seen[3].result)))
  }

  lemma OtherKeyUntouched(s: SinkState, e: Event, key: Key)
    requires s.Valid() && e.key != key
    requires e.key in s.inHand ==> s.rows[s.inHand[e.key]].key == e.key
    ensures var s' := Apply(s, e);
      && RowsOf(s', key) == RowsOf(s, key)
      && (key in s'.open <==> key in s.open) && (key in s'.inHand <==> key in s.inHand)
      && (key in s.open ==> s'.open[key] == s.open[key]) && (key in s.inHand ==> s'.inHand[key] == s.inHand[key])
      && forall i :: i in RowsOf(s, key) ==> s'.rows[i] == s.rows[i]
  {
  }

  lemma OtherKeyTracked(s: SinkState, e: Event, key: Key, seen: seq<Event>)
    requires s.Valid() && e.key != key && Paired(seen, key) && Tracks(s, key, seen)
    requires e.key in s.inHand ==> s.rows[s.inHand[e.key]].key == e.key
    ensures Tracks(Apply(s, e), key, seen)
  {
    OtherKeyUntouched(s, e, key);
    if key in s.open {
      assert s.open[key] in RowsOf(s, key);
    }
    if key in s.inHand {
      assert s.inHand[key] in RowsOf(s, key);
    }
    if |seen| == 4 {
      var id :| OneRow(s, key, id, Terminal(seen[3].result));
      assert id in RowsOf(s, key);
      assert OneRow(Apply(s, e), key, id, Terminal(seen[3].result));
    }
  }

  lemma OwnKeyTracked(s: SinkState, e: Event, seen: seq<Event>)
    requires s.Valid() && Paired(seen, e.key) && Paired(seen + [e], e.key) && Tracks(s, e.key, seen)
    ensures Tracks(Apply(s, e), e.key, seen + [e])
  {
    var s', n := Apply(s, e), |seen|;
    assert (seen + [e])[n] == e;
    if n == 0 {
      assert RowsOf(s', e.key) == {|s.rows|};
    } else if n == 1 {
      assert RowsOf(s', e.key) == RowsOf(s, e.key);
    } else if n == 2 {
      assert RowsOf(s', e.key) == RowsOf(s, e.key);
    } else {
      var id := s.inHand[e.key];
      assert id in RowsOf(s, e.key);
      assert RowsOf(s', e.key) == RowsOf(s, e.key);
      assert OneRow(s', e.key, id, Terminal(e.result));
    }
  }

  ghost predicate AllPaired(trace: seq<Event>) {
    forall key :: Paired(OfKey(trace, key), key)
  }

  lemma {:induction false} ReplayTracks(trace: seq<Event>)
    requires AllPaired(trace)
    ensures forall key :: Tracks(Replay(trace), key, OfKey(trace, key))
  {
    if trace != [] {
      var n := |trace| - 1;
      var s, e := Replay(trace[..n]), trace[n];
      forall key ensures Paired(OfKey(trace[..n], key), key) {
        assert Paired(OfKey(trace, key), key);
        ShorterIsPaired(OfKey(trace[..n], key), e, key);
      }
      ReplayTracks(trace[..n]);
      assert Tracks(s, e.key, OfKey(trace[..n], e.key)) && Paired(OfKey(trace, e.key), e.key);
      assert e.key in s.inHand ==> s.rows[s.inHand[e.key]].key == e.key by {
        assert e.key in s.inHand ==> s.inHand[e.key] in RowsOf(s, e.key);
      }
      forall key ensures Tracks(Replay(trace), key, OfKey(trace, key)) {
        if key == e.key {
          OwnKeyTracked(s, e, OfKey(trace[..n], key));
        } else {
          OtherKeyTracked(s, e, key, OfKey(trace[..n], key));
        }
      }
    }
  }

  lemma ShorterIsPaired(seen: seq<Event>, e: Event, key: Key)
    requires Paired(seen + [e], key) || Paired(seen, key)
    ensures Paired(seen, key)
  {
    if Paired(seen + [e], key) {
      assert forall k :: 0 <= k < |seen| ==> (seen + [e])[k] == seen[k];
    }
  }

  // ---- what a run does to the sink ----------------------------------------------------

  type Rendering = (Step, Results, nat) -> bool

  /** The stretches one step runs: those of a start and a finish for each attempt whose variables rendered. */
  function Program(step: Step, launch: Launcher, rendered: Rendering, results: Results, attempt: nat): seq<Event>
    requires 1 <= attempt <= Attempts(step.failureMode)
    decreases Attempts(step.failureMode) - attempt
  {
    var r := launch(step, results, attempt);
    var key := (step.id, attempt);
    var calls := if rendered(step, results, attempt) then Life(key, r) else [];
    if r.status == Succeeded || attempt == Attempts(step.failureMode) then calls
    else calls + Program(step, launch, rendered, results, attempt + 1)
  }

  /** The calls a key makes: none, or its own start and finish. */
  function CallsOf(
      step: Step, launch: Launcher, rendered: Rendering, results: Results, made: nat, attempt: nat): seq<Event>
  {
    if 1 <= attempt <= made && rendered(step, results, attempt) then
      Life((step.id, attempt), launch(step, results, attempt))
    else []
  }

  lemma {:induction false} ProgramByKey(
      step: Step, launch: Launcher, rendered: Rendering, results: Results, made: nat, from: nat, k: nat)
    requires StoppedAfter(launch, step, results, made) && 1 <= from <= made
    ensures OfKey(Program(step, launch, rendered, results, from), (step.id, k))
         == if k >= from then CallsOf(step, launch, rendered, results, made, k) else []
    decreases made - from
  {
    var calls := CallsOf(step, launch, rendered, results, made, from);
    CallsOfByKey(step, launch, rendered, results, made, from, k);
    ProgramUnfolds(step, launch, rendered, results, made, from);
    if from < made {
      var rest := Program(step, launch, rendered, results, from + 1);
      ProgramByKey(step, launch, rendered, results, made, from + 1, k);
      JoinByKey(
        calls, rest, (step.id, k), if k == from then calls else [],
        if k >= from + 1 then CallsOf(step, launch, rendered, results, made, k) else []);
    }
  }

  lemma JoinByKey(a: seq<Event>, b: seq<Event>, key: Key, ofA: seq<Event>, ofB: seq<Event>)
    requires OfKey(a, key) == ofA && OfKey(b, key) == ofB
    ensures ofB == [] ==> OfKey(a + b, key) == ofA
    ensures ofA == [] ==> OfKey(a + b, key) == ofB
  {
    OfKeyConcat(a, b, key);
    assert ofA + [] == ofA && [] + ofB == ofB;
  }

  lemma CallsOfByKey(
      step: Step, launch: Launcher, rendered: Rendering, results: Results, made: nat, attempt: nat, k: nat)
    ensures OfKey(CallsOf(step, launch, rendered, results, made, attempt), (step.id, k))
         == if k == attempt then CallsOf(step, launch, rendered, results, made, attempt) else []
  {
    CallsByKey((step.id, attempt), launch(step, results, attempt), (step.id, k));
  }

  lemma ProgramUnfolds(
      step: Step, launch: Launcher, rendered: Rendering, results: Results, made: nat, from: nat)
    requires StoppedAfter(launch, step, results, made) && 1 <= from <= made
    ensures var calls := CallsOf(step, launch, rendered, results, made, from);
      Program(step, launch, rendered, results, from)
        == if from < made then calls + Program(step, launch, rendered, results, from + 1) else calls
  {
  }

  lemma CallsByKey(key: Key, r: StepResult, other: Key)
    ensures OfKey(Life(key, r), other) == if key == other then Life(key, r) else []
  {
    OneByKey(RowCreated(key), other);
    OneByKey(Opened(key), other);
    OneByKey(Popped(key), other);
    OneByKey(RowFinished(key, r), other);
    OfKeyConcat([RowCreated(key)], [Opened(key)], other);
    OfKeyConcat([Popped(key)], [RowFinished(key, r)], other);
    OfKeyConcat([RowCreated(key)] + [Opened(key)], [Popped(key)] + [RowFinished(key, r)], other);
    assert Life(key, r) == ([RowCreated(key)] + [Opened(key)]) + ([Popped(key)] + [RowFinished(key, r)]);
  }

  lemma OneByKey(e: Event, other: Key)
    ensures OfKey([e], other) == if e.key == other then [e] else []
  {
    assert [e][..0] == [];
    assert OfKey([e][..0], other) == [];
  }

  /** One launched step of a run: the results it was launched against, and the attempts it made. */
  datatype Launched = Launched(step: Step, results: Results, made: nat)

  ghost predicate ValidRun(run: map<StepId, Launched>, launch: Launcher) {
    forall s :: s in run ==>
      run[s].step.id == s && StoppedAfter(launch, run[s].step, run[s].results, run[s].made)
  }

  /** `trace` interleaves the launched steps' programs in any way at all. */
  ghost predicate Interleaves(
      trace: seq<Event>, run: map<StepId, Launched>, launch: Launcher, rendered: Rendering)
  {
    forall s :: OfStep(trace, s) ==
      if s in run then Program(run[s].step, launch, rendered, run[s].results, 1) else []
  }

  ghost predicate Attempted(run: map<StepId, Launched>, rendered: Rendering, key: Key) {
    && key.0 in run
    && 1 <= key.1 <= run[key.0].made
    && rendered(run[key.0].step, run[key.0].results, key.1)
  }

  lemma TraceByKey(
      trace: seq<Event>, run: map<StepId, Launched>, launch: Launcher, rendered: Rendering, key: Key)
    requires ValidRun(run, launch) && Interleaves(trace, run, launch, rendered)
    ensures OfKey(trace, key) ==
      if Attempted(run, rendered, key)
      then Life(key, launch(run[key.0].step, run[key.0].results, key.1)) else []
  {
    KeyWithinStep(trace, key);
    assert OfStep(trace, key.0) ==
      if key.0 in run then Program(run[key.0].step, launch, rendered, run[key.0].results, 1) else [];
    if key.0 in run {
      var l := run[key.0];
      ProgramByKey(l.step, launch, rendered, l.results, l.made, 1, key.1);
    }
  }

  /**
   Main result: when the run is over nothing is left open or in hand, and there is exactly one row per attempt
   whose variables rendered, terminal, with that attempt's own result.
   */
  lemma EveryAttemptHasOneTerminalRow(
      trace: seq<Event>, run: map<StepId, Launched>, launch: Launcher, rendered: Rendering)
    requires ValidRun(run, launch) && Interleaves(trace, run, launch, rendered)
    ensures Replay(trace).open == map[] && Replay(trace).inHand == map[]
    ensures forall key :: Attempted(run, rendered, key) ==>
      exists id :: OneRow(
        Replay(trace), key, id, Terminal(launch(run[key.0].step, run[key.0].results, key.1)))
    ensures forall i :: 0 <= i < |Replay(trace).rows| ==>
      Attempted(run, rendered, Replay(trace).rows[i].key) && Replay(trace).rows[i].status.Terminal?
  {
    var s := Replay(trace);
    forall key ensures Paired(OfKey(trace, key), key) {
      TraceByKey(trace, run, launch, rendered, key);
    }
    ReplayTracks(trace);
    forall key
      ensures key !in s.open && key !in s.inHand
      ensures Attempted(run, rendered, key) ==>
        exists id :: OneRow(s, key, id, Terminal(launch(run[key.0].step, run[key.0].results, key.1)))
      ensures !Attempted(run, rendered, key) ==> RowsOf(s, key) == {}
    {
      TraceByKey(trace, run, launch, rendered, key);
      assert Tracks(s, key, OfKey(trace, key));
    }
    forall i | 0 <= i < |s.rows|
      ensures Attempted(run, rendered, s.rows[i].key) && s.rows[i].status.Terminal?
    {
      assert i in RowsOf(s, s.rows[i].key);
    }
  }
}
