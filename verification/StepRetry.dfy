/** The attempt loop around one step, and the delays it sleeps between attempts. */
module StepRetry {
  import opened PipelineSchema
  import opened FailureModes
  import opened Graph

  type Results = map<StepId, StepResult>

  /** One launch of a step: render its variables, run its executor, catch what it raises. */
  type Launcher = (Step, Results, nat) -> StepResult

  function Attempts(fm: FailureMode): (n: nat)
    ensures n >= 1
  {
    if fm.mode == Retry && fm.maxAttempts > 1 then fm.maxAttempts else 1
  }

  /** The first success among the remaining attempts, else the last one's result. */
  function ResultFrom(launch: Launcher, step: Step, results: Results, attempt: nat): StepResult
    requires 1 <= attempt <= Attempts(step.failureMode)
    decreases Attempts(step.failureMode) - attempt
  {
    var r := launch(step, results, attempt);
    if r.status == Succeeded || attempt == Attempts(step.failureMode) then r
    else ResultFrom(launch, step, results, attempt + 1)
  }

  function Execute(launch: Launcher, step: Step, results: Results): StepResult {
    ResultFrom(launch, step, results, 1)
  }

  function Pow2(n: nat): (p: real)
    ensures p >= n as real + 1.0
  {
    if n == 0 then 1.0 else 2.0 * Pow2(n - 1)
  }

  /** The delay before clamping. */
  function RawDelay(fm: FailureMode, attempt: nat): real
    requires attempt >= 1
  {
    match fm.backoff
    case Fixed => fm.initialDelay
    case Linear => fm.initialDelay * attempt as real
    case Exponential => fm.initialDelay * Pow2(attempt - 1)
  }

  function BackoffDelay(fm: FailureMode, attempt: nat): real
    requires attempt >= 1
  {
    var delay := RawDelay(fm, attempt);
    if delay <= fm.maxDelay then delay else fm.maxDelay
  }

  /** The pause after attempt `i + 1`, without a ceiling: the initial delay, `i` times doubled or added once more. */
  function Grown(fm: FailureMode, i: nat): real {
    if i == 0 then fm.initialDelay
    else
      match fm.backoff
      case Fixed => Grown(fm, i - 1)
      case Linear => Grown(fm, i - 1) + fm.initialDelay
      case Exponential => 2.0 * Grown(fm, i - 1)
  }

  lemma OnceMore(a: real, x: real)
    ensures a * (x + 1.0) == a * x + a
  {
  }

  lemma TwiceScaled(a: real, p: real)
    ensures a * (2.0 * p) == 2.0 * (a * p)
  {
  }

  lemma {:induction false} RawIsGrown(fm: FailureMode, i: nat)
    ensures RawDelay(fm, i + 1) == Grown(fm, i)
  {
    if i > 0 {
      RawIsGrown(fm, i - 1);
      match fm.backoff
      case Fixed =>
      case Linear =>
        OnceMore(fm.initialDelay, i as real);
        assert RawDelay(fm, i + 1) == fm.initialDelay * (i as real + 1.0);
      case Exponential =>
        TwiceScaled(fm.initialDelay, Pow2(i - 1));
        assert RawDelay(fm, i + 1) == fm.initialDelay * (2.0 * Pow2(i - 1));
    }
  }

  ghost function Capped(delay: real, ceiling: real): (d: real)
    ensures d <= delay && d <= ceiling && (d == delay || d == ceiling)
  {
    if delay <= ceiling then delay else ceiling
  }

  /** The sleeps made when `n` attempts were made. */
  function Delays(fm: FailureMode, n: nat): (ds: seq<real>)
    ensures |ds| == (if n == 0 then 0 else n - 1)
  {
    seq(if n == 0 then 0 else n - 1, i requires 0 <= i => BackoffDelay(fm, i + 1))
  }

  /** `made` attempts were made: all but the last did not succeed, and the last either did or was the last allowed. */
  ghost predicate StoppedAfter(launch: Launcher, step: Step, results: Results, made: nat) {
    && 1 <= made <= Attempts(step.failureMode)
    && (forall k :: 1 <= k < made ==> launch(step, results, k).status != Succeeded)
    && (launch(step, results, made).status == Succeeded || made == Attempts(step.failureMode))
  }

  method RunStepWithRetry(launch: Launcher, step: Step, results: Results)
    returns (result: StepResult, made: nat, slept: seq<real>)
    ensures result == Execute(launch, step, results)
    ensures StoppedAfter(launch, step, results, made) && result == launch(step, results, made)
    ensures slept == Delays(step.failureMode, made)
    ensures step.failureMode.mode != Retry ==> made == 1
    ensures step.failureMode.mode == Retry && result.status != Succeeded ==>
      made == if step.failureMode.maxAttempts > 1 then step.failureMode.maxAttempts else 1
    ensures |slept| == made - 1 && forall i :: 0 <= i < made - 1 ==>
      slept[i] == Capped(Grown(step.failureMode, i), step.failureMode.maxDelay)
  {
    var fm := step.failureMode;
    var attempts := if fm.mode == Retry then fm.maxAttempts else 1;
    if attempts < 1 {
      attempts := 1;
    }
    slept := [];
    made := 1;
    result := launch(step, results, made);
    while result.status != Succeeded && made < attempts
      invariant 1 <= made <= attempts == Attempts(fm)
      invariant result == launch(step, results, made)
      invariant forall k :: 1 <= k < made ==> launch(step, results, k).status != Succeeded
      invariant Execute(launch, step, results) == ResultFrom(launch, step, results, made)
      invariant slept == Delays(fm, made)
    {
      slept := slept + [BackoffDelay(fm, made)];
      made := made + 1;
      result := launch(step, results, made);
    }
    forall i: nat | i < made - 1 ensures slept[i] == Capped(Grown(fm, i), fm.maxDelay) {
      RawIsGrown(fm, i);
    }
  }

  // ---- delay arithmetic ------------------------------------------------------

  function Sum(ds: seq<real>): real {
    if ds == [] then 0.0 else Sum(ds[..|ds| - 1]) + ds[|ds| - 1]
  }

  ghost predicate Covers(bound: nat -> real, ds: seq<real>, i: nat)
    requires i < |ds|
  {
    bound(i) + ds[i] <= bound(i + 1)
  }

  /** If every delay is at most the growth of `bound`, so is their total. */
  lemma {:induction false} SumBounded(ds: seq<real>, bound: nat -> real)
    requires bound(0) >= 0.0 && forall i: nat :: i < |ds| ==> Covers(bound, ds, i)
    ensures Sum(ds) <= bound(|ds|)
  {
    if ds != [] {
      var n := |ds| - 1;
      forall i: nat | i < n ensures Covers(bound, ds[..n], i) {
        assert Covers(bound, ds, i);
      }
      SumBounded(ds[..n], bound);
      assert Covers(bound, ds, n);
    }
  }

  lemma AddTerm(a: real, b: real, delay: real, c: real)
    requires delay <= a * c
    ensures a * b + delay <= a * (b + c)
  {
  }

  /** What `n` attempts sleep in total: at most the ceiling once per retry. */
  lemma TotalAtMostMax(fm: FailureMode, n: nat)
    requires n >= 1
    ensures Sum(Delays(fm, n)) <= fm.maxDelay * (n - 1) as real
  {
    var bound := (k: nat) => fm.maxDelay * k as real;
    forall i: nat | i < n - 1 ensures Covers(bound, Delays(fm, n), i) {
      AddTerm(fm.maxDelay, i as real, Delays(fm, n)[i], 1.0);
    }
    SumBounded(Delays(fm, n), bound);
  }

  lemma ExponentialTotal(fm: FailureMode, n: nat)
    requires n >= 1 && fm.backoff == Exponential
    ensures Sum(Delays(fm, n)) <= fm.initialDelay * (Pow2(n - 1) - 1.0)
  {
    var bound := (k: nat) => ExponentialBound(fm.initialDelay, k);
    assert bound(0) == 0.0;
    forall i: nat | i < n - 1 ensures Covers(bound, Delays(fm, n), i) {
      ExponentialTerm(fm, Delays(fm, n), i);
    }
    SumBounded(Delays(fm, n), bound);
  }

  function ExponentialBound(initial: real, k: nat): real {
    initial * (Pow2(k) - 1.0)
  }

  lemma ExponentialTerm(fm: FailureMode, ds: seq<real>, i: nat)
    requires fm.backoff == Exponential && i < |ds| && ds[i] == BackoffDelay(fm, i + 1)
    ensures Covers((k: nat) => ExponentialBound(fm.initialDelay, k), ds, i)
  {
    AddTerm(fm.initialDelay, Pow2(i) - 1.0, BackoffDelay(fm, i + 1), Pow2(i));
    assert Pow2(i) - 1.0 + Pow2(i) == Pow2(i + 1) - 1.0;
  }

  lemma LinearTotal(fm: FailureMode, n: nat)
    requires n >= 1 && fm.backoff == Linear
    ensures Sum(Delays(fm, n)) <= fm.initialDelay * ((n - 1) as real * n as real / 2.0)
  {
    var bound := (k: nat) => fm.initialDelay * Triangle(k);
    forall i: nat | i < n - 1 ensures Covers(bound, Delays(fm, n), i) {
      LinearTerm(fm, i);
    }
    SumBounded(Delays(fm, n), bound);
    TriangleIs(n - 1);
  }

  /** 1 + 2 + ... + k. */
  function Triangle(k: nat): real {
    if k == 0 then 0.0 else Triangle(k - 1) + k as real
  }

  lemma {:induction false} TriangleIs(k: nat)
    ensures Triangle(k) == k as real * (k + 1) as real / 2.0
  {
    if k > 0 {
      TriangleIs(k - 1);
    }
  }

  lemma LinearTerm(fm: FailureMode, i: nat)
    requires fm.backoff == Linear
    ensures fm.initialDelay * Triangle(i) + BackoffDelay(fm, i + 1) <= fm.initialDelay * Triangle(i + 1)
  {
    AddTerm(fm.initialDelay, Triangle(i), BackoffDelay(fm, i + 1), (i + 1) as real);
  }

  lemma ScaleNegative(a: real, x: real, y: real)
    requires a < 0.0 && x >= y
    ensures a * x <= a * y
  {
    assert a * (x - y) <= 0.0;
  }

  ghost predicate NeverShrinks(fm: FailureMode) {
    forall n: nat :: n >= 1 ==> BackoffDelay(fm, n) <= BackoffDelay(fm, n + 1)
  }

  /** Delays never decrease exactly when the initial delay is not negative, or the strategy is fixed. */
  lemma DelaysMonotoneIff(fm: FailureMode)
    ensures NeverShrinks(fm) <==> fm.backoff == Fixed || fm.initialDelay >= 0.0
  {
    if fm.backoff == Fixed || fm.initialDelay >= 0.0 {
      forall n: nat | n >= 1 ensures BackoffDelay(fm, n) <= BackoffDelay(fm, n + 1) {
        RawStep(fm, n);
      }
    } else {
      // Far enough out the raw delay is below the ceiling, and from there it falls.
      var n := FarEnough(fm.initialDelay, fm.maxDelay);
      RawBelowLinear(fm, n);
      RawStep(fm, n);
      assert BackoffDelay(fm, n + 1) < BackoffDelay(fm, n);
    }
  }

  lemma FarEnough(a: real, m: real) returns (n: nat)
    requires a < 0.0
    ensures n >= 1 && a * n as real <= m
  {
    var x := Reach(a, m);
    n := x.Floor + 1;
    StaysReached(a, x, n as real, m);
  }

  lemma Reach(a: real, m: real) returns (x: real)
    requires a < 0.0
    ensures x > 0.0 && a * x <= m
  {
    if m >= 0.0 {
      x := 1.0;
    } else {
      x := Quotient(m, a);
    }
  }

  lemma StaysReached(a: real, x: real, y: real, m: real)
    requires a < 0.0 && a * x <= m && y >= x
    ensures a * y <= m
  {
    ScaleNegative(a, y, x);
  }

  lemma Quotient(m: real, a: real) returns (x: real)
    requires a < 0.0 && m < 0.0
    ensures a * x == m && x > 0.0
  {
    x := m / a;
    assert x * a == m;
    NonPositiveTimesNegative(x, a);
  }

  lemma NonPositiveTimesNegative(x: real, a: real)
    requires a < 0.0
    ensures x <= 0.0 ==> x * a >= 0.0
  {
  }

  lemma RawStep(fm: FailureMode, n: nat)
    requires n >= 1
    ensures fm.initialDelay >= 0.0 ==> RawDelay(fm, n) <= RawDelay(fm, n + 1)
    ensures fm.initialDelay < 0.0 && fm.backoff != Fixed ==> RawDelay(fm, n + 1) < RawDelay(fm, n)
  {
    match fm.backoff
    case Fixed =>
    case Linear =>
      assert fm.initialDelay * (n + 1) as real == fm.initialDelay * n as real + fm.initialDelay;
    case Exponential =>
      var p := Pow2(n - 1);
      assert p >= 1.0;
      assert Pow2(n) == 2.0 * p;
      assert fm.initialDelay * (2.0 * p) == fm.initialDelay * p + fm.initialDelay * p;
      if fm.initialDelay < 0.0 {
        assert fm.initialDelay * p < 0.0;
      } else {
        assert fm.initialDelay * p >= 0.0;
      }
  }

  lemma RawBelowLinear(fm: FailureMode, n: nat)
    requires n >= 1 && fm.initialDelay < 0.0 && fm.backoff != Fixed
    ensures RawDelay(fm, n) <= fm.initialDelay * n as real
  {
    if fm.backoff == Exponential {
      assert Pow2(n - 1) >= n as real;
      assert fm.initialDelay * (Pow2(n - 1) - n as real) <= 0.0;
    }
  }
}
