/** Blockout windows: a named recurrence whose every occurrence k forbids
    firing during [Fire(k), Fire(k) + blockDuration). Occurrences may overlap;
    an instant is blocked when any of them covers it. */
module Blockout {
  import opened Wrappers
  import opened Recurrence
  import Arith

  /** SimpleBlockoutTrigger(name, start, end, repeatCount, repeatInterval, blockDuration). */
  datatype BlockoutWindow = BlockoutWindow(name: string, series: Series, blockDuration: int)

  /** A definition the registry accepts: the repeat count is a count or the
      "forever" sentinel -1, the interval and the duration are not negative,
      and a window that repeats (a positive count or the sentinel -1) has a
      positive interval. */
  predicate WellFormed(b: BlockoutWindow)
  {
    && b.series.repeatCount >= -1
    && b.series.repeatInterval >= 0
    && b.blockDuration >= 0
    && !(b.series.repeatCount != 0 && b.series.repeatInterval == 0)
  }

  /** Occurrence k of b exists and t lies in its half-open interval. */
  ghost predicate Covers(b: BlockoutWindow, k: nat, t: int)
  {
    ValidIndex(b.series, k) && Fire(b.series, k) <= t < Fire(b.series, k) + b.blockDuration
  }

  /** Some occurrence of b covers instant t. */
  ghost predicate Blocked(b: BlockoutWindow, t: int)
  {
    exists k: nat :: Covers(b, k, t)
  }

  /** Decides Blocked by looking only at the last occurrence that starts at or
      before t: occurrences end in the order they start, so if any covers t,
      that one does. */
  function BlockedAt(b: BlockoutWindow, t: int): (r: bool)
    ensures r <==> Blocked(b, t)
  {
    match LatestIndexUpTo(b.series, t)
    case None => NotBlockedWithoutStart(b, t); false
    case Some(k) =>
      LatestCoversAll(b, t, k);
      t < Fire(b.series, k) + b.blockDuration
  }

  lemma NotBlockedWithoutStart(b: BlockoutWindow, t: int)
    requires LatestIndexUpTo(b.series, t).None?
    ensures !Blocked(b, t)
  {
  }

  lemma LatestCoversAll(b: BlockoutWindow, t: int, k: nat)
    requires LatestIndexUpTo(b.series, t) == Some(k)
    ensures Blocked(b, t) <==> t < Fire(b.series, k) + b.blockDuration
  {
    if t < Fire(b.series, k) + b.blockDuration {
      assert Covers(b, k, t);
    }
    if m: nat :| Covers(b, m, t) {
      assert m <= k;
      if m < k {
        FireIncreasing(b.series, m, k);
      }
      assert Covers(b, k, t);
    }
  }

  /** The first instant from which a window is never active again
      (meaningful for a window that does not repeat forever). */
  function QuietAfter(b: BlockoutWindow): (q: int)
    requires !Unbounded(b.series)
    ensures forall t :: t >= q ==> !Blocked(b, t)
  {
    var s := b.series;
    var q :=
      if s.repeatInterval <= 0 then s.start + b.blockDuration
      else if s.repeatCount >= 0 then s.start + s.repeatCount * s.repeatInterval + b.blockDuration
      else s.end.value + b.blockDuration;
    assert forall t :: t >= q ==> !Blocked(b, t) by {
      forall t, k: nat | t >= q && Covers(b, k, t) ensures false {
        if s.repeatInterval > 0 && s.repeatCount >= 0 {
          Arith.MulMonotone(k, s.repeatCount, s.repeatInterval);
        }
      }
    }
    q
  }

  /** A window that repeats forever looks the same one interval later. */
  lemma {:induction false} BlockedShift(b: BlockoutWindow, t: int)
    requires Unbounded(b.series) && t >= b.series.start
    ensures Blocked(b, t + b.series.repeatInterval) == Blocked(b, t)
  {
    var d := b.series.repeatInterval;
    if k: nat :| Covers(b, k, t) {
      assert Fire(b.series, k + 1) == Fire(b.series, k) + d;
      assert Covers(b, k + 1, t + d);
    }
    var later := t + d;
    if k: nat :| Covers(b, k, later) {
      if k == 0 {
        assert Covers(b, 0, t);
      } else {
        assert Fire(b.series, k - 1) + d == Fire(b.series, k);
        assert Covers(b, k - 1, t);
      }
    }
  }

  /** ... and the same after any whole number of intervals. */
  lemma {:induction false} BlockedShiftMany(b: BlockoutWindow, t: int, c: nat)
    requires Unbounded(b.series) && t >= b.series.start
    ensures Blocked(b, t + c * b.series.repeatInterval) == Blocked(b, t)
  {
    if c > 0 {
      var d := b.series.repeatInterval;
      BlockedShiftMany(b, t, c - 1);
      assert t + c * d == (t + (c - 1) * d) + d;
      Arith.MulMonotone(0, c - 1, d);
      BlockedShift(b, t + (c - 1) * d);
    }
  }

  /** A window that repeats forever has every multiple of its interval as a period
      from its first instant on. */
  lemma BlockedPeriodic(b: BlockoutWindow, t: int, period: int)
    requires Unbounded(b.series) && t >= b.series.start
    requires period >= 0 && period % b.series.repeatInterval == 0
    ensures Blocked(b, t + period) == Blocked(b, t)
  {
    var d := b.series.repeatInterval;
    Arith.ModZero(period, d);
    BlockedShiftMany(b, t, period / d);
  }

  /** No window blocks before its first instant. */
  lemma NotBlockedBeforeStart(b: BlockoutWindow, t: int)
    requires t < b.series.start
    ensures !Blocked(b, t)
  {
    if k: nat :| Covers(b, k, t) {
      NoneBeforeStart(b.series, k);
    }
  }

  /** The first instant of a window with a positive duration is blocked (the start is inclusive). */
  lemma {:induction false} BlockedAtStart(b: BlockoutWindow)
    requires ValidIndex(b.series, 0) && b.blockDuration > 0
    ensures Blocked(b, b.series.start)
  {
    assert Covers(b, 0, b.series.start);
  }

  /** For a window that repeats forever, the closed form: t is blocked exactly
      when it is at or after the first instant and its offset into the current
      cycle is below the block duration. */
  lemma UnboundedPhase(b: BlockoutWindow, t: int)
    requires Unbounded(b.series)
    ensures Blocked(b, t) <==>
      t >= b.series.start && (t - b.series.start) % b.series.repeatInterval < b.blockDuration
  {
    if t < b.series.start {
      NotBlockedBeforeStart(b, t);
    } else {
      var d := b.series.repeatInterval;
      var k := LatestIndexUpTo(b.series, t).value;
      LatestCoversAll(b, t, k);
      Arith.DivBounds(t - b.series.start, d);
      var q := (t - b.series.start) / d;
      assert Fire(b.series, q) <= t;
      Arith.BelowQuotient(t - b.series.start, d, k);
      assert q == k;
    }
  }
}
