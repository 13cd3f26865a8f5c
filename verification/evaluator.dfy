/** The blockout decision queries: shouldFireNow, isPartiallyBlocked,
    willFire and willBlockSchedules, over a snapshot of blockout windows.

    A schedule is either a simple fixed-period trigger, or the instants a
    cron-driven trigger produces, as the cron evaluator lists them for the
    queried range. For two fixed periods the question "does some future firing
    collide (or escape)" is decided over one cycle of the collision pattern,
    whose length is a common multiple of all the periods involved. */
module Evaluator {
  import opened Wrappers
  import opened Recurrence
  import opened Blockout
  import Arith

  datatype Schedule =
    | SimpleSchedule(name: string, series: Series)
    | FireList(name: string, fires: seq<int>)

  /** The windows of a snapshot, as a set. */
  function Windows(bs: seq<BlockoutWindow>): set<BlockoutWindow>
  {
    set b | b in bs
  }

  /** Some window of ws blocks instant t (the union of all their intervals). */
  ghost predicate BlockedBySome(ws: set<BlockoutWindow>, t: int)
  {
    exists w :: w in ws && Blocked(w, t)
  }

  /** The schedule fires at instant t. */
  ghost predicate FiresAt(s: Schedule, t: int)
  {
    match s
    case SimpleSchedule(_, ser) => exists j: nat :: ValidIndex(ser, j) && Fire(ser, j) == t
    case FireList(_, fires) => t in fires
  }

  /** isPartiallyBlocked, as meant: some firing lands inside some window. */
  ghost predicate PartiallyBlockedSpec(ws: set<BlockoutWindow>, s: Schedule)
  {
    exists t :: FiresAt(s, t) && BlockedBySome(ws, t)
  }

  /** willFire, as meant: some firing escapes every window. */
  ghost predicate WillFireSpec(ws: set<BlockoutWindow>, s: Schedule)
  {
    exists t :: FiresAt(s, t) && !BlockedBySome(ws, t)
  }

  /** Decides whether any window of the snapshot blocks instant t. */
  function AnyBlocks(bs: seq<BlockoutWindow>, t: int): (r: bool)
    ensures r <==> BlockedBySome(Windows(bs), t)
  {
    if exists i :: 0 <= i < |bs| && BlockedAt(bs[i], t) then
      true
    else
      assert forall w :: w in Windows(bs) ==> !Blocked(w, t) by {
        forall w | w in Windows(bs) ensures !Blocked(w, t) {
          var i :| 0 <= i < |bs| && bs[i] == w;
        }
      }
      false
  }

  /** shouldFireNow: the instant lies outside every window of the snapshot. */
  function ShouldFireNow(bs: seq<BlockoutWindow>, now: int): (r: bool)
    ensures r <==> forall w :: w in bs ==> !Blocked(w, now)
  {
    !AnyBlocks(bs, now)
  }

  // ---------------------------------------------------------------------
  // The collision cycle

  /** From this instant on a window either repeats forever (its first instant)
      or is never active again. */
  function SettledFrom(b: BlockoutWindow): int
  {
    if Unbounded(b.series) then b.series.start else QuietAfter(b)
  }

  /** An instant from which every window of the snapshot is settled. */
  function Threshold(bs: seq<BlockoutWindow>): (t: int)
    ensures forall i :: 0 <= i < |bs| ==> SettledFrom(bs[i]) <= t
  {
    if bs == [] then 0
    else
      var rest := Threshold(bs[1..]);
      assert forall i :: 1 <= i < |bs| ==> SettledFrom(bs[i]) <= rest by {
        forall i | 1 <= i < |bs| ensures SettledFrom(bs[i]) <= rest {
          assert bs[i] == bs[1..][i - 1];
        }
      }
      if SettledFrom(bs[0]) > rest then SettledFrom(bs[0]) else rest
  }

  /** A positive common multiple of p and of the interval of every window
      of the snapshot that repeats forever: lcm folded over the snapshot. */
  function CommonPeriod(bs: seq<BlockoutWindow>, p: nat): (l: nat)
    requires p > 0
    ensures l > 0 && l % p == 0
    ensures forall i :: 0 <= i < |bs| && Unbounded(bs[i].series) ==> l % bs[i].series.repeatInterval == 0
  {
    if bs == [] then
      Arith.MultipleMod(p, 1);
      p
    else
      var rest := CommonPeriod(bs[1..], p);
      var l := if Unbounded(bs[0].series) then Arith.Lcm(rest, bs[0].series.repeatInterval) else rest;
      assert l % rest == 0 by {
        Arith.MultipleMod(rest, 1);
      }
      Arith.ModTransitive(l, rest, p);
      assert forall i :: 0 <= i < |bs| && Unbounded(bs[i].series) ==> l % bs[i].series.repeatInterval == 0 by {
        forall i | 0 <= i < |bs| && Unbounded(bs[i].series) ensures l % bs[i].series.repeatInterval == 0 {
          if i > 0 {
            assert bs[i] == bs[1..][i - 1];
            Arith.ModTransitive(l, rest, bs[i].series.repeatInterval);
          }
        }
      }
      l
  }

  /** Past the threshold, shifting an instant by the common period does not
      change whether the snapshot blocks it. */
  lemma SnapshotPeriodic(bs: seq<BlockoutWindow>, t: int, period: nat)
    requires t >= Threshold(bs) && period > 0
    requires forall i :: 0 <= i < |bs| && Unbounded(bs[i].series) ==> period % bs[i].series.repeatInterval == 0
    ensures AnyBlocks(bs, t + period) == AnyBlocks(bs, t)
  {
    forall i | 0 <= i < |bs| ensures Blocked(bs[i], t + period) == Blocked(bs[i], t) {
      if Unbounded(bs[i].series) {
        BlockedPeriodic(bs[i], t, period);
      }
    }
    forall w | w in Windows(bs) ensures Blocked(w, t + period) == Blocked(w, t) {
      var i :| 0 <= i < |bs| && bs[i] == w;
    }
  }

  /** Index of the first firing of an unbounded schedule at or after the threshold. */
  function CycleStart(bs: seq<BlockoutWindow>, ser: Series): (n: nat)
    requires Unbounded(ser)
    ensures forall j: nat :: j >= n ==> Fire(ser, j) >= Threshold(bs)
  {
    var n := FirstIndexFrom(ser, Threshold(bs));
    assert forall j: nat :: j >= n ==> Fire(ser, j) >= Threshold(bs) by {
      forall j: nat | j > n ensures Fire(ser, j) >= Threshold(bs) {
        FireIncreasing(ser, n, j);
      }
    }
    n
  }

  /** Number of firings of an unbounded schedule in one cycle of the collision
      pattern: the common period divided by the schedule's interval. */
  function CycleLength(bs: seq<BlockoutWindow>, ser: Series): (p: nat)
    requires Unbounded(ser)
    ensures p > 0 && p * ser.repeatInterval == CommonPeriod(bs, ser.repeatInterval)
  {
    var l := CommonPeriod(bs, ser.repeatInterval);
    Arith.ModZero(l, ser.repeatInterval);
    l / ser.repeatInterval
  }

  /** Past the threshold, a firing one cycle later gets the same verdict. */
  lemma ShiftBackOneCycle(bs: seq<BlockoutWindow>, ser: Series, j: nat)
    requires Unbounded(ser) && j >= CycleStart(bs, ser) + CycleLength(bs, ser)
    ensures AnyBlocks(bs, Fire(ser, j - CycleLength(bs, ser))) == AnyBlocks(bs, Fire(ser, j))
  {
    var d := ser.repeatInterval;
    var p := CycleLength(bs, ser);
    var l := CommonPeriod(bs, d);
    var i := j - p;
    assert Fire(ser, j) == Fire(ser, i) + l by {
      assert j * d == i * d + p * d;
    }
    SnapshotPeriodic(bs, Fire(ser, i), l);
  }

  /** Number of firing indices that decide a question about a simple schedule:
      all of them for a schedule that stops, otherwise every firing up to the
      threshold plus one full cycle. */
  function Horizon(bs: seq<BlockoutWindow>, ser: Series): nat
  {
    if !Unbounded(ser) then IndexBound(ser)
    else CycleStart(bs, ser) + CycleLength(bs, ser)
  }

  /** Decides whether some firing index in [lo, hi) has the wanted verdict. */
  function SearchFirings(bs: seq<BlockoutWindow>, ser: Series, want: bool, lo: nat, hi: nat): (r: bool)
    ensures r <==> exists j: nat :: lo <= j < hi && ValidIndex(ser, j) && AnyBlocks(bs, Fire(ser, j)) == want
    decreases hi - lo
  {
    if lo >= hi then false
    else if ValidIndex(ser, lo) && AnyBlocks(bs, Fire(ser, lo)) == want then true
    else SearchFirings(bs, ser, want, lo + 1, hi)
  }

  /** Any firing with the wanted verdict has a counterpart below the horizon:
      past the threshold, firing j and firing j - L / Rs get the same verdict. */
  lemma {:induction false} HorizonSuffices(bs: seq<BlockoutWindow>, ser: Series, want: bool, j: nat)
    requires ValidIndex(ser, j) && AnyBlocks(bs, Fire(ser, j)) == want
    ensures exists i: nat :: i < Horizon(bs, ser) && ValidIndex(ser, i) && AnyBlocks(bs, Fire(ser, i)) == want
    decreases j
  {
    if Unbounded(ser) && j >= Horizon(bs, ser) {
      ShiftBackOneCycle(bs, ser, j);
      HorizonSuffices(bs, ser, want, j - CycleLength(bs, ser));
    }
  }

  /** Some firing of a simple schedule has the wanted verdict. */
  function SomeSimpleFiring(bs: seq<BlockoutWindow>, ser: Series, want: bool): (r: bool)
    ensures r <==> exists j: nat :: ValidIndex(ser, j) && AnyBlocks(bs, Fire(ser, j)) == want
  {
    var h := Horizon(bs, ser);
    var r := SearchFirings(bs, ser, want, 0, h);
    assert r <== exists j: nat :: ValidIndex(ser, j) && AnyBlocks(bs, Fire(ser, j)) == want by {
      if j: nat :| ValidIndex(ser, j) && AnyBlocks(bs, Fire(ser, j)) == want {
        HorizonSuffices(bs, ser, want, j);
      }
    }
    r
  }

  /** Some firing of the schedule has the wanted verdict (blocked or free). */
  function SomeFiring(bs: seq<BlockoutWindow>, s: Schedule, want: bool): (r: bool)
    ensures r <==> exists t :: FiresAt(s, t) && BlockedBySome(Windows(bs), t) == want
  {
    match s
    case SimpleSchedule(_, ser) =>
      var r := SomeSimpleFiring(bs, ser, want);
      assert r ==> exists t :: FiresAt(s, t) && BlockedBySome(Windows(bs), t) == want by {
        if r {
          var j: nat :| ValidIndex(ser, j) && AnyBlocks(bs, Fire(ser, j)) == want;
          assert FiresAt(s, Fire(ser, j));
        }
      }
      r
    case FireList(_, fires) =>
      var r := exists i :: 0 <= i < |fires| && AnyBlocks(bs, fires[i]) == want;
      assert r <== exists t :: FiresAt(s, t) && BlockedBySome(Windows(bs), t) == want by {
        if t :| FiresAt(s, t) && BlockedBySome(Windows(bs), t) == want {
          var i :| 0 <= i < |fires| && fires[i] == t;
          assert AnyBlocks(bs, fires[i]) == want;
        }
      }
      r
  }

  /** isPartiallyBlocked: some firing of the schedule lands inside some window. */
  function IsPartiallyBlocked(bs: seq<BlockoutWindow>, s: Schedule): (r: bool)
    ensures r <==> PartiallyBlockedSpec(Windows(bs), s)
  {
    SomeFiring(bs, s, true)
  }

  /** willFire: some firing of the schedule escapes every window. */
  function WillFire(bs: seq<BlockoutWindow>, s: Schedule): (r: bool)
    ensures r <==> WillFireSpec(Windows(bs), s)
  {
    SomeFiring(bs, s, false)
  }

  /** willBlockSchedules: the active triggers that the candidate window alone
      would partially block, in their original order, each as often as it is
      active. */
  function WillBlockSchedules(candidate: BlockoutWindow, triggers: seq<Schedule>): (r: seq<Schedule>)
    ensures |r| <= |triggers|
    ensures forall s :: s in r <==> s in triggers && PartiallyBlockedSpec({candidate}, s)
    ensures forall s :: multiset(r)[s] == if PartiallyBlockedSpec({candidate}, s) then multiset(triggers)[s] else 0
  {
    if triggers == [] then []
    else
      assert Windows([candidate]) == {candidate};
      var rest := WillBlockSchedules(candidate, triggers[1..]);
      assert forall s :: s in triggers <==> s == triggers[0] || s in triggers[1..];
      assert triggers == [triggers[0]] + triggers[1..];
      assert multiset(triggers) == multiset{triggers[0]} + multiset(triggers[1..]);
      if IsPartiallyBlocked([candidate], triggers[0]) then [triggers[0]] + rest else rest
  }

  // ---------------------------------------------------------------------
  // Properties

  /** The collision pattern of two fixed periods repeats with period
      lcm(blockout interval, schedule interval): once the schedule has reached
      the window's first instant, firing j and firing j + lcm / Rs are blocked
      alike. */
  lemma CollisionCycle(b: BlockoutWindow, ser: Series, j: nat)
    requires Unbounded(b.series) && Unbounded(ser)
    requires Fire(ser, j) >= b.series.start
    ensures
      var l := Arith.Lcm(b.series.repeatInterval, ser.repeatInterval);
      Blocked(b, Fire(ser, j + l / ser.repeatInterval)) == Blocked(b, Fire(ser, j))
  {
    var d := ser.repeatInterval;
    var l := Arith.Lcm(b.series.repeatInterval, d);
    Arith.ModZero(l, d);
    assert Fire(ser, j + l / d) == Fire(ser, j) + l by {
      assert (j + l / d) * d == j * d + (l / d) * d;
    }
    BlockedPeriodic(b, Fire(ser, j), l);
  }

  /** Searching beyond the horizon changes no verdict: a longer bounded
      simulation agrees with the one-cycle answer. */
  lemma LongerSearchAgrees(bs: seq<BlockoutWindow>, ser: Series, want: bool, h: nat)
    requires h >= Horizon(bs, ser)
    ensures SearchFirings(bs, ser, want, 0, h) == SomeSimpleFiring(bs, ser, want)
  {
    if SomeSimpleFiring(bs, ser, want) {
      var j: nat :| ValidIndex(ser, j) && AnyBlocks(bs, Fire(ser, j)) == want;
      HorizonSuffices(bs, ser, want, j);
    }
  }

  /** With no windows registered every firing escapes: willFire holds exactly
      when the schedule fires at all, and nothing is partially blocked. */
  lemma {:induction false} NoWindowsNoBlock(s: Schedule)
    ensures WillFire([], s) <==> exists t :: FiresAt(s, t)
    ensures !IsPartiallyBlocked([], s)
  {
    assert Windows([]) == {};
  }

  /** The preview's size from its contract alone: when the candidate
      partially blocks every active trigger, each is reported; when it blocks
      none, the preview is empty. */
  lemma WillBlockSchedulesSize(candidate: BlockoutWindow, triggers: seq<Schedule>)
    ensures (forall s :: s in triggers ==> PartiallyBlockedSpec({candidate}, s)) ==>
      |WillBlockSchedules(candidate, triggers)| == |triggers|
    ensures (forall s :: s in triggers ==> !PartiallyBlockedSpec({candidate}, s)) ==>
      |WillBlockSchedules(candidate, triggers)| == 0
  {
    var r := WillBlockSchedules(candidate, triggers);
    if forall s :: s in triggers ==> PartiallyBlockedSpec({candidate}, s) {
      assert multiset(r) == multiset(triggers) by {
        forall s ensures multiset(r)[s] == multiset(triggers)[s] {
          if s !in triggers {
            assert multiset(triggers)[s] == 0;
          }
        }
      }
      assert |multiset(r)| == |multiset(triggers)|;
    }
    if forall s :: s in triggers ==> !PartiallyBlockedSpec({candidate}, s) {
      assert multiset(r) == multiset{} by {
        forall s ensures multiset(r)[s] == 0 {
          if s !in triggers {
            assert multiset(triggers)[s] == 0;
          }
        }
      }
    }
  }

  /** Adding a window can only turn a free firing into a blocked one:
      isPartiallyBlocked is monotone and willFire antitone in the snapshot. */
  lemma MoreWindowsBlockMore(bs: seq<BlockoutWindow>, extra: BlockoutWindow, s: Schedule)
    ensures IsPartiallyBlocked(bs, s) ==> IsPartiallyBlocked(bs + [extra], s)
    ensures WillFire(bs + [extra], s) ==> WillFire(bs, s)
  {
    assert Windows(bs) <= Windows(bs + [extra]);
    if IsPartiallyBlocked(bs, s) {
      var t :| FiresAt(s, t) && BlockedBySome(Windows(bs), t);
      var w :| w in Windows(bs) && Blocked(w, t);
      assert w in Windows(bs + [extra]);
    }
    if WillFire(bs + [extra], s) {
      var t :| FiresAt(s, t) && !BlockedBySome(Windows(bs + [extra]), t);
      assert !BlockedBySome(Windows(bs), t);
    }
  }
}
