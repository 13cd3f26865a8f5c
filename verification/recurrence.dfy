/** A fixed-period series of instants, the shape shared by a simple job
    trigger and a blockout window: a first instant, an optional end, a repeat
    count (negative meaning "repeat forever", the source's -1) and a repeat
    interval in milliseconds (zero or less meaning a single occurrence). */
module Recurrence {
  import opened Wrappers
  import Arith

  datatype Series = Series(start: int, end: Option<int>, repeatCount: int, repeatInterval: int)

  /** Instant of occurrence k: the first instant plus k intervals. */
  function Fire(s: Series, k: nat): int
  {
    s.start + k * s.repeatInterval
  }

  /** Occurrence k exists: it is the only one when the interval is not positive,
      it is within the repeat count when that is finite, and it is not after
      the end when there is one. */
  predicate ValidIndex(s: Series, k: nat)
  {
    && (s.repeatInterval <= 0 ==> k == 0)
    && (s.repeatCount >= 0 ==> k <= s.repeatCount)
    && (s.end.Some? ==> Fire(s, k) <= s.end.value)
  }

  /** A series with a positive interval that neither ends nor stops counting. */
  predicate Unbounded(s: Series)
  {
    s.repeatInterval > 0 && s.repeatCount < 0 && s.end.None?
  }

  /** Occurrences are strictly increasing in their index when the interval is positive. */
  lemma FireIncreasing(s: Series, k: nat, m: nat)
    requires s.repeatInterval > 0 && k < m
    ensures Fire(s, k) + s.repeatInterval <= Fire(s, m)
  {
    Arith.MulMonotone(k + 1, m, s.repeatInterval);
  }

  /** A bound on the occurrence indices of a series that is not unbounded. */
  function IndexBound(s: Series): (n: nat)
    requires !Unbounded(s)
    ensures forall k: nat :: ValidIndex(s, k) ==> k < n
  {
    if s.repeatInterval <= 0 then 1
    else if s.repeatCount >= 0 then s.repeatCount + 1
    else if s.end.value < s.start then 0
    else
      var n := (s.end.value - s.start) / s.repeatInterval + 1;
      assert forall k: nat :: ValidIndex(s, k) ==> k < n by {
        forall k: nat | ValidIndex(s, k) ensures k < n {
          Arith.BelowQuotient(s.end.value - s.start, s.repeatInterval, k);
        }
      }
      n
  }

  /** The first index whose occurrence is at or after instant t, for a positive interval. */
  function FirstIndexFrom(s: Series, t: int): (j: nat)
    requires s.repeatInterval > 0
    ensures Fire(s, j) >= t
    ensures forall k: nat :: k < j ==> Fire(s, k) < t
  {
    if t <= s.start then 0
    else
      var d := s.repeatInterval;
      var j := (t - s.start - 1) / d + 1;
      Arith.DivBounds(t - s.start - 1, d);
      assert forall k: nat :: k < j ==> Fire(s, k) < t by {
        forall k: nat | k < j ensures Fire(s, k) < t {
          Arith.MulMonotone(k, j - 1, d);
        }
      }
      j
  }

  /** No occurrence starts before the first instant. */
  lemma NoneBeforeStart(s: Series, k: nat)
    requires ValidIndex(s, k)
    ensures Fire(s, k) >= s.start
  {
    if s.repeatInterval > 0 { Arith.MulMonotone(0, k, s.repeatInterval); }
  }

  /** The last occurrence that starts at or before instant t, if any. */
  function LatestIndexUpTo(s: Series, t: int): (r: Option<nat>)
    ensures r.Some? ==> ValidIndex(s, r.value) && Fire(s, r.value) <= t
    ensures forall k: nat :: ValidIndex(s, k) && Fire(s, k) <= t ==> r.Some? && k <= r.value
  {
    if t < s.start || (s.end.Some? && s.end.value < s.start) then
      assert forall k: nat :: ValidIndex(s, k) ==> Fire(s, k) >= s.start by {
        forall k: nat | ValidIndex(s, k) ensures Fire(s, k) >= s.start {
          NoneBeforeStart(s, k);
        }
      }
      None
    else if s.repeatInterval <= 0 then
      Some(0)
    else
      Some(LatestPeriodic(s, t))
  }

  /** LatestIndexUpTo for a positive interval, once some occurrence is known to exist:
      the index reached by time, capped by the repeat count and by the end. */
  function LatestPeriodic(s: Series, t: int): (k: nat)
    requires s.repeatInterval > 0 && t >= s.start
    requires s.end.Some? ==> s.end.value >= s.start
    ensures ValidIndex(s, k) && Fire(s, k) <= t
    ensures forall m: nat :: ValidIndex(s, m) && Fire(s, m) <= t ==> m <= k
  {
    var d := s.repeatInterval;
    var byTime := (t - s.start) / d;
    var byCount := if s.repeatCount >= 0 && s.repeatCount < byTime then s.repeatCount else byTime;
    var k := if s.end.Some? && (s.end.value - s.start) / d < byCount then (s.end.value - s.start) / d else byCount;
    CappedFire(s.start, d, t, k, byTime);
    assert s.end.Some? ==> Fire(s, k) <= s.end.value by {
      if s.end.Some? {
        CappedFire(s.start, d, s.end.value, k, (s.end.value - s.start) / d);
      }
    }
    assert forall m: nat :: ValidIndex(s, m) && Fire(s, m) <= t ==> m <= k by {
      forall m: nat | ValidIndex(s, m) && Fire(s, m) <= t ensures m <= k {
        Arith.BelowQuotient(t - s.start, d, m);
        if s.end.Some? {
          Arith.BelowQuotient(s.end.value - s.start, d, m);
        }
      }
    }
    k
  }

  /** An index at or below the quotient (t - start) / d starts at or before t. */
  lemma CappedFire(start: int, d: int, t: int, k: nat, q: int)
    requires d > 0 && t >= start && q == (t - start) / d && k <= q
    ensures start + k * d <= t
  {
    Arith.DivBounds(t - start, d);
    Arith.MulMonotone(k, q, d);
  }
}
