/**
 One schedule over a whole run of scheduler passes: which cron ticks it is fired for, and
 when. A pass that finds the row due fires the canonical tick of the pass time, and moves
 `next_fires_at` one tick on from its OLD value.
 */
module Firing {
  import opened Wrappers
  import opened Cron
  import opened Scheduler
  import Clock

  ghost predicate Ascending(s: seq<int>) {
    forall a, b :: 0 <= a < b < |s| ==> s[a] < s[b]
  }

  /** `next_fires_at` after the passes. */
  function NextFires(t: Ticks, nextFiresAt: int, passes: seq<int>): int
    requires Increasing(t)
    decreases |passes|
  {
    if passes == [] then nextFiresAt
    else
      var before := NextFires(t, nextFiresAt, passes[..|passes| - 1]);
      if before <= passes[|passes| - 1] then NextTickAfter(t, before) else before
  }

  /** The `scheduled_for` values attempted by the passes, in order. */
  function FiredTicks(t: Ticks, nextFiresAt: int, passes: seq<int>): seq<int>
    requires Increasing(t)
    decreases |passes|
  {
    if passes == [] then []
    else
      var front, now := passes[..|passes| - 1], passes[|passes| - 1];
      var fired := FiredTicks(t, nextFiresAt, front);
      if NextFires(t, nextFiresAt, front) <= now then fired + [ThisTickAt(t, now)] else fired
  }

  /** The rows of the table after the passes. */
  ghost function RowsAfterPasses(
      rows: Rows, calendar: Calendar, resolves: string -> bool, passes: seq<int>): Rows
    requires ProperCalendar(calendar)
    decreases |passes|
  {
    if passes == [] then rows
    else
      var before := RowsAfterPasses(rows, calendar, resolves, passes[..|passes| - 1]);
      RowsAfter(before, passes[|passes| - 1], calendar, resolves, before.Keys)
  }

  /** Every live row of the table follows the one-row recurrence, whatever the other rows do. */
  lemma {:induction false} RowFollowsRecurrence(
      rows: Rows, calendar: Calendar, resolves: string -> bool, passes: seq<int>, id: ScheduleId)
    requires ProperCalendar(calendar)
    requires id in rows && !rows[id].paused && rows[id].nextFiresAt.Some? && resolves(rows[id].pipeline)
    ensures var after := RowsAfterPasses(rows, calendar, resolves, passes);
      && after.Keys == rows.Keys
      && after[id].nextFiresAt == Some(NextFires(calendar(rows[id].cron), rows[id].nextFiresAt.value, passes))
      && after[id].cron == rows[id].cron && after[id].pipeline == rows[id].pipeline && !after[id].paused
    decreases |passes|
  {
    if passes != [] {
      RowFollowsRecurrence(rows, calendar, resolves, passes[..|passes| - 1], id);
    }
  }

  /** Each attempt moves the row exactly one tick: attempts and ticks passed over are conserved. */
  lemma {:induction false} AttemptsAdvanceOneTickEach(t: Ticks, i: int, passes: seq<int>)
    requires Increasing(t)
    ensures NextFires(t, t(i), passes) == t(i + |FiredTicks(t, t(i), passes)|)
    decreases |passes|
  {
    if passes != [] {
      var front := passes[..|passes| - 1];
      AttemptsAdvanceOneTickEach(t, i, front);
      NextTickIndex(t, i + |FiredTicks(t, t(i), front)|);
    }
  }

  lemma AtOrBelow(t: Ticks, i: int, time: int)
    requires Increasing(t)
    ensures t(i) <= time <==> i <= IndexAt(t, time)
  {
    var k := IndexAt(t, time);
    Ordered(t, i, k);
    Ordered(t, k + 1, i);
  }

  lemma TickOrder(t: Ticks, a: int, b: int)
    requires Increasing(t) && a <= b
    ensures ThisTickAt(t, a) <= ThisTickAt(t, b) && NextTickAfter(t, a) <= NextTickAfter(t, b)
  {
    IndexMonotone(t, a, b);
    ThisTickIndex(t, a);
    ThisTickIndex(t, b);
    Ordered(t, IndexAt(t, a), IndexAt(t, b));
    Ordered(t, IndexAt(t, a) + 1, IndexAt(t, b) + 1);
  }

  /** A tick is at or before an instant exactly when it is at or before that instant's canonical tick. */
  lemma TickUpTo(t: Ticks, i: int, now: int)
    requires Increasing(t)
    ensures t(i) <= now <==> t(i) <= ThisTickAt(t, now)
  {
    ThisTickIndex(t, now);
    AtOrBelow(t, i, now);
    Ordered(t, i, IndexAt(t, now));
  }

  lemma {:induction false} FiredUpTo(t: Ticks, nextFiresAt: int, passes: seq<int>)
    requires Increasing(t) && Ascending(passes) && passes != []
    ensures var fired := FiredTicks(t, nextFiresAt, passes);
      fired == [] || fired[|fired| - 1] <= ThisTickAt(t, passes[|passes| - 1])
    decreases |passes|
  {
    if |passes| > 1 {
      FiredUpTo(t, nextFiresAt, passes[..|passes| - 1]);
      TickOrder(t, passes[|passes| - 2], passes[|passes| - 1]);
    }
  }

  /** The row is still due right after pass `k`, and no new tick arrives before the next pass. */
  ghost predicate Repeats(t: Ticks, nextFiresAt: int, passes: seq<int>, k: int)
    requires Increasing(t) && 0 <= k < |passes| - 1
  {
    && NextFires(t, nextFiresAt, passes[..k + 1]) <= passes[k]
    && ThisTickAt(t, passes[k + 1]) == ThisTickAt(t, passes[k])
  }

  ghost predicate NeverRepeats(t: Ticks, nextFiresAt: int, passes: seq<int>)
    requires Increasing(t)
  {
    forall k :: 0 <= k < |passes| - 1 ==> !Repeats(t, nextFiresAt, passes, k)
  }

  lemma LastPass(t: Ticks, i: int, passes: seq<int>)
    requires Increasing(t) && Ascending(passes) && |passes| >= 2
    ensures var front, now := passes[..|passes| - 1], passes[|passes| - 1];
      var fired := FiredTicks(t, t(i), front);
      Repeats(t, t(i), passes, |passes| - 2) <==>
        && NextFires(t, t(i), front) <= now
        && fired != [] && fired[|fired| - 1] >= ThisTickAt(t, now)
  {
    var n := |passes| - 2;
    var front, last, now := passes[..n + 1], passes[n], passes[n + 1];
    var fired := FiredTicks(t, t(i), front);
    AttemptsAdvanceOneTickEach(t, i, front);
    TickUpTo(t, i + |fired|, last);
    TickUpTo(t, i + |fired|, now);
    TickOrder(t, last, now);
    FiredUpTo(t, t(i), front);
    assert front[..n] == passes[..n];
    if NextFires(t, t(i), front[..n]) > last {
      assert NextFires(t, t(i), front) > last;
    } else {
      assert fired[|fired| - 1] == ThisTickAt(t, last);
    }
  }

  /**
   At most one firing per tick, in order: exactly when no pass leaves the row due and the next
   pass comes before a new tick.
   */
  lemma {:induction false} EachTickOnceIff(t: Ticks, i: int, passes: seq<int>)
    requires Increasing(t) && Ascending(passes)
    ensures Ascending(FiredTicks(t, t(i), passes)) <==> NeverRepeats(t, t(i), passes)
    decreases |passes|
  {
    if |passes| >= 2 {
      var front := passes[..|passes| - 1];
      EachTickOnceIff(t, i, front);
      LastPass(t, i, passes);
      RepeatsInFront(t, t(i), passes);
      AppendAscending(
        FiredTicks(t, t(i), front), ThisTickAt(t, passes[|passes| - 1]));
    }
  }

  lemma RepeatsInFront(t: Ticks, nextFiresAt: int, passes: seq<int>)
    requires Increasing(t) && |passes| >= 2
    ensures NeverRepeats(t, nextFiresAt, passes) <==>
      && NeverRepeats(t, nextFiresAt, passes[..|passes| - 1])
      && !Repeats(t, nextFiresAt, passes, |passes| - 2)
  {
    var front := passes[..|passes| - 1];
    forall k | 0 <= k < |front| - 1
      ensures Repeats(t, nextFiresAt, front, k) <==> Repeats(t, nextFiresAt, passes, k)
    {
      assert front[..k + 1] == passes[..k + 1];
    }
  }

  lemma AppendAscending(s: seq<int>, x: int)
    ensures Ascending(s + [x]) <==> Ascending(s) && (s == [] || s[|s| - 1] < x)
  {
    var e := s + [x];
    if Ascending(e) {
      assert forall a :: 0 <= a < |s| ==> s[a] == e[a];
      assert s != [] ==> e[|s| - 1] < e[|s|];
    }
  }

  /** Pass `k` finds the row due. */
  ghost predicate DueAt(t: Ticks, nextFiresAt: int, passes: seq<int>, k: int)
    requires Increasing(t) && 0 <= k < |passes|
  {
    NextFires(t, nextFiresAt, passes[..k]) <= passes[k]
  }

  ghost predicate AllRepeat(t: Ticks, nextFiresAt: int, passes: seq<int>, j: int, k: int)
    requires Increasing(t) && 0 <= j && k < |passes|
  {
    forall m :: j <= m < k ==> Repeats(t, nextFiresAt, passes, m)
  }

  lemma {:induction false} NextFiresGrows(t: Ticks, i: int, passes: seq<int>, a: nat, b: nat)
    requires Increasing(t) && a <= b <= |passes|
    ensures NextFires(t, t(i), passes[..a]) <= NextFires(t, t(i), passes[..b])
    decreases b
  {
    if a < b {
      NextFiresGrows(t, i, passes, a, b - 1);
      assert passes[..b][..b - 1] == passes[..b - 1];
      NextTickIsLeast(t, NextFires(t, t(i), passes[..b - 1]));
    }
  }

  /** Two passes attempt the same tick exactly when every pass from the one up to the other repeats. */
  lemma SameTickIff(t: Ticks, i: int, passes: seq<int>, j: nat, k: nat)
    requires Increasing(t) && Ascending(passes) && j < k < |passes|
    ensures AllRepeat(t, t(i), passes, j, k) <==>
      && DueAt(t, t(i), passes, j) && DueAt(t, t(i), passes, k)
      && ThisTickAt(t, passes[j]) == ThisTickAt(t, passes[k])
  {
    if AllRepeat(t, t(i), passes, j, k) {
      assert Repeats(t, t(i), passes, j) && Repeats(t, t(i), passes, k - 1);
      NextFiresGrows(t, i, passes, j, j + 1);
      SharedTick(t, t(i), passes, j, k);
    }
    if DueAt(t, t(i), passes, k) && ThisTickAt(t, passes[j]) == ThisTickAt(t, passes[k]) {
      forall m | j <= m < k ensures Repeats(t, t(i), passes, m) {
        StillDueBetween(t, i, passes, j, k, m);
      }
    }
  }

  lemma {:induction false} SharedTick(t: Ticks, nextFiresAt: int, passes: seq<int>, j: nat, k: nat)
    requires Increasing(t) && j <= k < |passes| && AllRepeat(t, nextFiresAt, passes, j, k)
    ensures ThisTickAt(t, passes[j]) == ThisTickAt(t, passes[k])
    decreases k
  {
    if j < k {
      SharedTick(t, nextFiresAt, passes, j, k - 1);
      assert Repeats(t, nextFiresAt, passes, k - 1);
    }
  }

  lemma TicksBetween(t: Ticks, passes: seq<int>, j: nat, k: nat, m: nat)
    requires Increasing(t) && Ascending(passes) && j <= m < k < |passes|
    requires ThisTickAt(t, passes[j]) == ThisTickAt(t, passes[k])
    ensures ThisTickAt(t, passes[m]) == ThisTickAt(t, passes[m + 1]) == ThisTickAt(t, passes[k])
  {
    TickOrder(t, passes[j], passes[m]);
    TickOrder(t, passes[m], passes[m + 1]);
    TickOrder(t, passes[m + 1], passes[k]);
  }

  lemma StillDueBetween(t: Ticks, i: int, passes: seq<int>, j: nat, k: nat, m: nat)
    requires Increasing(t) && Ascending(passes) && j <= m < k < |passes|
    requires DueAt(t, t(i), passes, k) && ThisTickAt(t, passes[j]) == ThisTickAt(t, passes[k])
    ensures Repeats(t, t(i), passes, m)
  {
    TicksBetween(t, passes, j, k, m);
    NextFiresGrows(t, i, passes, m + 1, k);
    AttemptsAdvanceOneTickEach(t, i, passes[..m + 1]);
    var x := i + |FiredTicks(t, t(i), passes[..m + 1])|;
    TickUpTo(t, x, passes[k]);
    TickUpTo(t, x, passes[m]);
  }

  /** The ticks with indexes from `from` up to, not including, `to`. */
  function TickRange(t: Ticks, from: int, to: int): seq<int>
    requires from <= to
  {
    seq(to - from, j => t(from + j))
  }

  /**
   A run that ends with the row caught up makes as many attempts as there were ticks, so it
   fires every tick exactly once or else repeats one and loses another.
   */
  lemma CaughtUpFiresAllOrRepeats(t: Ticks, i: int, passes: seq<int>)
    requires Increasing(t) && Ascending(passes) && passes != []
    requires NextFires(t, t(i), passes) == NextTickAfter(t, passes[|passes| - 1])
    ensures var end := IndexAt(t, passes[|passes| - 1]) + 1;
      && |FiredTicks(t, t(i), passes)| == end - i
      && (NeverRepeats(t, t(i), passes) <==> FiredTicks(t, t(i), passes) == TickRange(t, i, end))
  {
    var fired := FiredTicks(t, t(i), passes);
    var end := IndexAt(t, passes[|passes| - 1]) + 1;
    AttemptsAdvanceOneTickEach(t, i, passes);
    Injective(t, i + |fired|, end);
    EachTickOnceIff(t, i, passes);
    FiredWithin(t, i, passes);
    if Ascending(fired) {
      AscendingFillsRange(t, i, fired);
    }
    if fired == TickRange(t, i, end) {
      RangeAscends(t, i, end);
    }
  }

  lemma RangeAscends(t: Ticks, from: int, to: int)
    requires Increasing(t) && from <= to
    ensures Ascending(TickRange(t, from, to))
  {
    forall a, b | 0 <= a < b < to - from ensures TickRange(t, from, to)[a] < TickRange(t, from, to)[b] {
      Ordered(t, from + a, from + b);
    }
  }

  /** Everything fired is a tick between the first due one and the last pass. */
  lemma {:induction false} FiredWithin(t: Ticks, i: int, passes: seq<int>)
    requires Increasing(t) && Ascending(passes)
    ensures forall x :: x in FiredTicks(t, t(i), passes) ==>
        passes != [] && TickWithin(t, x, i, IndexAt(t, passes[|passes| - 1]))
    decreases |passes|
  {
    if passes != [] {
      var front, now := passes[..|passes| - 1], passes[|passes| - 1];
      FiredWithin(t, i, front);
      AttemptsAdvanceOneTickEach(t, i, front);
      var j := i + |FiredTicks(t, t(i), front)|;
      AtOrBelow(t, j, now);
      ThisTickIndex(t, now);
      if front != [] {
        IndexMonotone(t, front[|front| - 1], now);
      }
    }
  }

  ghost predicate TickWithin(t: Ticks, x: int, from: int, to: int) {
    exists k :: x == t(k) && from <= k <= to
  }

  lemma AscendingFillsRange(t: Ticks, i: int, s: seq<int>)
    requires Increasing(t) && Ascending(s)
    requires forall x :: x in s ==> TickWithin(t, x, i, i + |s| - 1)
    ensures s == TickRange(t, i, i + |s|)
  {
    forall j | 0 <= j < |s| ensures s[j] == t(i + j) {
      AtLeast(t, i, s, j);
      AtMost(t, i, s, j);
    }
  }

  lemma {:induction false} AtLeast(t: Ticks, i: int, s: seq<int>, j: nat)
    requires Increasing(t) && Ascending(s) && j < |s|
    requires forall x :: x in s ==> TickWithin(t, x, i, i + |s| - 1)
    ensures s[j] >= t(i + j)
  {
    assert s[j] in s && TickWithin(t, s[j], i, i + |s| - 1);
    var k :| s[j] == t(k) && i <= k <= i + |s| - 1;
    if j > 0 {
      AtLeast(t, i, s, j - 1);
      Ordered(t, k, i + j - 1);
      Ordered(t, i + j, k);
    } else {
      Ordered(t, i, k);
    }
  }

  lemma {:induction false} AtMost(t: Ticks, i: int, s: seq<int>, j: nat)
    requires Increasing(t) && Ascending(s) && j < |s|
    requires forall x :: x in s ==> TickWithin(t, x, i, i + |s| - 1)
    ensures s[j] <= t(i + j)
    decreases |s| - j
  {
    assert s[j] in s && TickWithin(t, s[j], i, i + |s| - 1);
    var k :| s[j] == t(k) && i <= k <= i + |s| - 1;
    if j < |s| - 1 {
      AtMost(t, i, s, j + 1);
      Ordered(t, i + j + 1, k);
      Ordered(t, k, i + j);
    } else {
      Ordered(t, k, i + j);
    }
  }

  /** The instant before pass `k`: the previous pass, or the seeding of the row. */
  function Before(start: int, passes: seq<int>, k: nat): int
    requires k <= |passes|
  {
    if k == 0 then start else passes[k - 1]
  }

  /** Pass `k` comes after the instant before it. */
  ghost predicate Follows(start: int, passes: seq<int>, k: nat)
    requires k < |passes|
  {
    Before(start, passes, k) < passes[k]
  }

  /** The passes follow the seeding, and each other, in time. */
  ghost predicate Paced(start: int, passes: seq<int>) {
    forall k :: 0 <= k < |passes| ==> Follows(start, passes, k)
  }

  lemma PacedFront(start: int, passes: seq<int>, n: nat)
    requires Paced(start, passes) && n <= |passes|
    ensures Paced(start, passes[..n]) && Before(start, passes[..n], n) == Before(start, passes, n)
    ensures n < |passes| ==> Before(start, passes, n) < passes[n]
  {
    forall k | 0 <= k < n ensures Follows(start, passes[..n], k) {
      assert Follows(start, passes, k);
    }
    assert n < |passes| ==> Follows(start, passes, n);
  }

  /** A row seeded at `start` never runs ahead: its next fire is at most the next tick after the last pass. */
  lemma {:induction false} NeverAhead(t: Ticks, i: int, start: int, passes: seq<int>)
    requires Increasing(t) && Paced(start, passes)
    requires t(i) <= NextTickAfter(t, start)
    ensures NextFires(t, t(i), passes) <= NextTickAfter(t, Before(start, passes, |passes|))
    decreases |passes|
  {
    if passes != [] {
      var n := |passes| - 1;
      var front, now := passes[..n], passes[n];
      PacedFront(start, passes, n);
      NeverAhead(t, i, start, front);
      TickOrder(t, Before(start, passes, n), now);
      if NextFires(t, t(i), front) <= now {
        TickOrder(t, NextFires(t, t(i), front), now);
      }
    }
  }

  /** The pass comes at the clock's next boundary after the instant before it. */
  ghost predicate OnBoundary(start: int, passes: seq<int>, interval: int, k: nat)
    requires k < |passes|
  {
    passes[k] == Clock.NextBoundary(Before(start, passes, k), interval)
  }

  /**
   The latest tick of a poll interval is attempted by the pass that ends the interval and, when that
   pass comes exactly on its boundary, less than one interval late.
   */
  lemma LatestTickIsOnTime(t: Ticks, i: int, start: int, passes: seq<int>, interval: int, k: nat)
    requires Increasing(t) && interval > 0 && k < |passes| && Paced(start, passes)
    requires OnBoundary(start, passes, interval, k)
    requires t(i) <= NextTickAfter(t, start)
    requires ThisTickAt(t, passes[k]) > Before(start, passes, k)
    ensures NextFires(t, t(i), passes[..k]) <= passes[k]
    ensures FiredTicks(t, t(i), passes[..k + 1])
      == FiredTicks(t, t(i), passes[..k]) + [ThisTickAt(t, passes[k])]
    ensures 0 <= passes[k] - ThisTickAt(t, passes[k]) < interval
  {
    PacedFront(start, passes, k);
    NeverAhead(t, i, start, passes[..k]);
    Lateness(t, Before(start, passes, k), passes[k], interval);
    assert passes[..k + 1][..k] == passes[..k];
  }

  /** A tick after `before` is due by the boundary that follows, and less than an interval old there. */
  lemma Lateness(t: Ticks, before: int, now: int, interval: int)
    requires Increasing(t) && interval > 0 && now == Clock.NextBoundary(before, interval)
    requires ThisTickAt(t, now) > before
    ensures NextTickAfter(t, before) <= now && 0 <= now - ThisTickAt(t, now) < interval
  {
    Clock.NextBoundaryIsLeast(before, interval);
    ThisTickIsGreatest(t, now);
    NextTickIsLeast(t, before);
  }

  /** No two ticks fall between one pass and the next. */
  ghost predicate OneTickPerInterval(t: Ticks, start: int, passes: seq<int>)
    requires Increasing(t)
  {
    forall k :: 0 <= k < |passes| ==> AtMostOneTick(t, start, passes, k)
  }

  ghost predicate AtMostOneTick(t: Ticks, start: int, passes: seq<int>, k: nat)
    requires Increasing(t) && k < |passes|
  {
    IndexAt(t, passes[k]) <= IndexAt(t, Before(start, passes, k)) + 1
  }

  lemma OneTickFront(t: Ticks, start: int, passes: seq<int>, n: nat)
    requires Increasing(t) && OneTickPerInterval(t, start, passes) && n < |passes|
    ensures OneTickPerInterval(t, start, passes[..n])
    ensures IndexAt(t, passes[n]) <= IndexAt(t, Before(start, passes, n)) + 1
  {
    forall k | 0 <= k < n ensures AtMostOneTick(t, start, passes[..n], k) {
      assert AtMostOneTick(t, start, passes, k);
    }
    assert AtMostOneTick(t, start, passes, n);
  }

  /**
   With at most one new tick per poll interval, a freshly seeded row fires every tick after the
   seeding exactly once and in order.
   */
  lemma {:induction false} FreshRowFiresEveryTickOnce(t: Ticks, start: int, passes: seq<int>)
    requires Increasing(t) && Paced(start, passes) && OneTickPerInterval(t, start, passes)
    ensures FiresEveryTickUpTo(t, start, passes, Before(start, passes, |passes|))
    decreases |passes|
  {
    if passes == [] {
      assert TickRange(t, IndexAt(t, start) + 1, IndexAt(t, start) + 1) == [];
    } else {
      var n := |passes| - 1;
      PacedFront(start, passes, n);
      OneTickFront(t, start, passes, n);
      FreshRowFiresEveryTickOnce(t, start, passes[..n]);
      OneMorePass(t, start, passes, Before(start, passes, n));
    }
  }

  /** The row has caught up with `end`, having fired every tick from the seeding to there, in order. */
  ghost predicate FiresEveryTickUpTo(t: Ticks, start: int, passes: seq<int>, end: int)
    requires Increasing(t)
  {
    && IndexAt(t, start) <= IndexAt(t, end)
    && NextFires(t, NextTickAfter(t, start), passes) == NextTickAfter(t, end)
    && FiredTicks(t, NextTickAfter(t, start), passes) == TickRange(t, IndexAt(t, start) + 1, IndexAt(t, end) + 1)
  }

  lemma OneMorePass(t: Ticks, start: int, passes: seq<int>, before: int)
    requires Increasing(t) && passes != []
    requires var now := passes[|passes| - 1]; before < now && IndexAt(t, now) <= IndexAt(t, before) + 1
    requires FiresEveryTickUpTo(t, start, passes[..|passes| - 1], before)
    ensures FiresEveryTickUpTo(t, start, passes, passes[|passes| - 1])
  {
    OneMoreTick(t, IndexAt(t, start) + 1, before, passes[|passes| - 1]);
  }

  lemma OneMoreTick(t: Ticks, from: int, before: int, now: int)
    requires Increasing(t) && before < now && from <= IndexAt(t, before) + 1
    requires IndexAt(t, now) <= IndexAt(t, before) + 1
    ensures NextTickAfter(t, before) <= now <==> IndexAt(t, now) == IndexAt(t, before) + 1
    ensures NextTickAfter(t, before) <= now ==>
        && NextTickAfter(t, NextTickAfter(t, before)) == NextTickAfter(t, now)
        && TickRange(t, from, IndexAt(t, now) + 1)
          == TickRange(t, from, IndexAt(t, before) + 1) + [ThisTickAt(t, now)]
    ensures NextTickAfter(t, before) > now ==> IndexAt(t, now) == IndexAt(t, before)
  {
    var k := IndexAt(t, before);
    IndexMonotone(t, before, now);
    AtOrBelow(t, k + 1, now);
    NextTickIndex(t, k + 1);
    ThisTickIndex(t, now);
  }

  /** The code's advance agrees with an advance from `now` exactly when a single tick was pending. */
  lemma AdvanceAgreesIff(t: Ticks, i: int, now: int)
    requires Increasing(t) && t(i) <= now
    ensures NextTickAfter(t, t(i)) == NextTickAfter(t, now) <==> t(i) == ThisTickAt(t, now)
  {
    var k := IndexAt(t, now);
    NextTickIndex(t, i);
    ThisTickIndex(t, now);
    AtOrBelow(t, i, now);
    if t(i + 1) == t(k + 1) {
      Injective(t, i + 1, k + 1);
    }
    if t(i) == t(k) {
      Injective(t, i, k);
    }
  }

  function EveryFive(i: int): int { 5 * i }

  lemma EveryFiveIncreases()
    ensures Increasing(EveryFive)
  {
    forall i, j ensures Rising(EveryFive, i, j) {
    }
  }

  /** A row several ticks behind fires tick 20 at both of two passes that share it. */
  lemma LaggingRowRepeatsATick()
    ensures Increasing(EveryFive)
    ensures FiredTicks(EveryFive, 0, [20, 21]) == [20, 20]
  {
    EveryFiveIncreases();
    FiresWhenDue(EveryFive, 0, 0, 20, 4, []);
    FiresWhenDue(EveryFive, 0, 1, 21, 4, [20]);
    assert [] + [20] == [20] && [20] + [21] == [20, 21];
  }

  lemma FiresWhenDue(t: Ticks, nextFiresAt: int, i: int, now: int, k: int, passes: seq<int>)
    requires Increasing(t) && NextFires(t, nextFiresAt, passes) == t(i) && t(i) <= now
    requires t(k) <= now < t(k + 1)
    ensures FiredTicks(t, nextFiresAt, passes + [now]) == FiredTicks(t, nextFiresAt, passes) + [t(k)]
    ensures NextFires(t, nextFiresAt, passes + [now]) == t(i + 1)
  {
    assert (passes + [now])[..|passes|] == passes;
    IndexUnique(t, now, k);
    ThisTickIndex(t, now);
    NextTickIndex(t, i);
  }
}
