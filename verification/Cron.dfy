/**
 Cron expressions as unbounded sets of ticks. A tick set is given by its increasing
 enumeration over all integers; times are integer microseconds.
 */
module Cron {

  type Ticks = int -> int

  ghost predicate Increasing(t: Ticks) {
    forall i, j :: Rising(t, i, j)
  }

  ghost predicate Rising(t: Ticks, i: int, j: int) {
    i < j ==> t(i) < t(j)
  }

  lemma Ordered(t: Ticks, i: int, j: int)
    requires Increasing(t)
    ensures i <= j ==> t(i) <= t(j)
    ensures i < j ==> t(i) < t(j)
  {
    assert Rising(t, i, j);
  }

  lemma Injective(t: Ticks, i: int, j: int)
    requires Increasing(t) && t(i) == t(j)
    ensures i == j
  {
    Ordered(t, i, j);
    Ordered(t, j, i);
  }

  lemma Spread(t: Ticks, i: int, n: nat)
    requires Increasing(t)
    ensures t(i) + n <= t(i + n) && t(i - n) <= t(i) - n
    decreases n
  {
    if n > 0 {
      Spread(t, i, n - 1);
      assert Rising(t, i + (n - 1), i + n) && Rising(t, i - n, i - (n - 1));
    }
  }

  /** The index of the last tick at or before `time`. */
  function IndexAt(t: Ticks, time: int): (i: int)
    requires Increasing(t)
    ensures t(i) <= time < t(i + 1)
  {
    var d := if time >= t(0) then time - t(0) else t(0) - time;
    Spread(t, 0, d + 1);
    Search(t, time, -(d + 1), d + 1)
  }

  function Search(t: Ticks, time: int, lo: int, hi: int): (i: int)
    requires lo < hi && t(lo) <= time < t(hi)
    ensures t(i) <= time < t(i + 1)
    decreases hi - lo
  {
    if lo + 1 == hi then lo
    else if t(lo + 1) <= time then Search(t, time, lo + 1, hi)
    else lo
  }

  lemma IndexUnique(t: Ticks, time: int, i: int)
    requires Increasing(t) && t(i) <= time < t(i + 1)
    ensures IndexAt(t, time) == i
  {
    var k := IndexAt(t, time);
    Ordered(t, k + 1, i);
    Ordered(t, i + 1, k);
  }

  lemma IndexMonotone(t: Ticks, a: int, b: int)
    requires Increasing(t) && a <= b
    ensures IndexAt(t, a) <= IndexAt(t, b)
  {
    var i, j := IndexAt(t, a), IndexAt(t, b);
    Ordered(t, j + 1, i);
  }

  /** croniter's `get_next`: from a tick it returns the following one. */
  function GetNext(t: Ticks, from: int): int
    requires Increasing(t)
  {
    t(IndexAt(t, from) + 1)
  }

  /** croniter's `get_prev`: from a tick it returns the preceding one. */
  function GetPrev(t: Ticks, from: int): int
    requires Increasing(t)
  {
    t(IndexAt(t, from - 1))
  }

  function NextTickAfter(t: Ticks, after: int): int
    requires Increasing(t)
  {
    GetNext(t, after)
  }

  /** `next_tick_after` is the least tick strictly after the instant. */
  lemma NextTickIsLeast(t: Ticks, after: int)
    requires Increasing(t)
    ensures after < NextTickAfter(t, after) && exists i :: NextTickAfter(t, after) == t(i)
    ensures forall i :: after < t(i) ==> NextTickAfter(t, after) <= t(i)
  {
    var k := IndexAt(t, after);
    forall i | after < t(i) ensures t(k + 1) <= t(i) {
      Ordered(t, i, k);
      Ordered(t, k + 1, i);
    }
  }

  /** The code steps one microsecond on before asking for the previous tick, so a tick is its own. */
  function ThisTickAt(t: Ticks, now: int): int
    requires Increasing(t)
  {
    GetPrev(t, now + 1)
  }

  /** `this_tick_at` is the greatest tick at or before the instant. */
  lemma ThisTickIsGreatest(t: Ticks, now: int)
    requires Increasing(t)
    ensures ThisTickAt(t, now) <= now && exists i :: ThisTickAt(t, now) == t(i)
    ensures forall i :: t(i) <= now ==> t(i) <= ThisTickAt(t, now)
  {
    var k := IndexAt(t, now);
    forall i | t(i) <= now ensures t(i) <= t(k) {
      Ordered(t, k + 1, i);
      Ordered(t, i, k);
    }
  }

  lemma ThisTickIndex(t: Ticks, now: int)
    requires Increasing(t)
    ensures ThisTickAt(t, now) == t(IndexAt(t, now))
  {
  }

  lemma NextTickIndex(t: Ticks, i: int)
    requires Increasing(t)
    ensures NextTickAfter(t, t(i)) == t(i + 1)
  {
    Ordered(t, i, i + 1);
    IndexUnique(t, t(i), i);
  }

  /** Advancing from `now` and from the canonical tick give the same next fire time. */
  lemma AdvanceFromNowOrTick(t: Ticks, now: int)
    requires Increasing(t)
    ensures NextTickAfter(t, now) == NextTickAfter(t, ThisTickAt(t, now))
  {
    ThisTickIndex(t, now);
    NextTickIndex(t, IndexAt(t, now));
  }
}
