/** The clock seam: sleeping to the next epoch-aligned boundary. Times are integer microseconds. */
module Clock {

  /** Zero for a non-positive interval; otherwise the distance to the next multiple, never zero. */
  function TimeToNextBoundary(now: int, interval: int): int {
    if interval <= 0 then 0 else (now / interval + 1) * interval - now
  }

  function NextBoundary(now: int, interval: int): int {
    now + TimeToNextBoundary(now, interval)
  }

  lemma DivModIdentity(n: int, d: int)
    requires d > 0
    ensures n == d * (n / d) + n % d && 0 <= n % d < d
  {
  }

  /** The boundary slept to is the least multiple of the interval strictly after `now`. */
  lemma NextBoundaryIsLeast(now: int, interval: int)
    requires interval > 0
    ensures now < NextBoundary(now, interval) <= now + interval
    ensures NextBoundary(now, interval) == (now / interval + 1) * interval
    ensures forall k: int :: k * interval > now ==> NextBoundary(now, interval) <= k * interval
  {
    DivModIdentity(now, interval);
    var q := now / interval;
    assert (q + 1) * interval == q * interval + interval;
    forall k: int | k * interval > now ensures (q + 1) * interval <= k * interval {
      ScaleLe(k, q, interval);
      ScaleLe(q + 1, k, interval);
    }
  }

  lemma ScaleLe(a: int, b: int, c: int)
    requires c > 0
    ensures a <= b ==> a * c <= b * c
  {
    if a <= b {
      assert (b - a) * c >= 0;
    }
  }

  /** From one boundary the next is exactly one interval on. */
  lemma BoundariesAreEvenlySpaced(k: int, interval: int)
    requires interval > 0
    ensures NextBoundary(k * interval, interval) == (k + 1) * interval
  {
    NextBoundaryIsLeast(k * interval, interval);
    assert (k + 1) * interval == k * interval + interval;
    assert (k + 1) * interval > k * interval;
    var q := k * interval / interval;
    ScaleLe(q + 1, k, interval);
  }

  /** The test clock: it jumps to the boundary and remembers how long it "slept". */
  class FakeClock {
    var now: int
    var sleptFor: seq<int>

    constructor (start: int)
      ensures now == start && sleptFor == []
    {
      now := start;
      sleptFor := [];
    }

    method SetTo(instant: int)
      modifies this`now
      ensures now == instant
    {
      now := instant;
    }

    method Advance(delta: int)
      modifies this`now
      ensures now == old(now) + delta
    {
      now := now + delta;
    }

    method SleepUntilNextBoundary(interval: int)
      modifies this
      ensures now == NextBoundary(old(now), interval)
      ensures sleptFor == old(sleptFor) + [now - old(now)]
    {
      var delay := TimeToNextBoundary(now, interval);
      sleptFor := sleptFor + [delay];
      Advance(delay);
    }
  }
}
