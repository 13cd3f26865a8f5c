/** The test suite's scenarios, stated over the model. Instants are
    milliseconds since 1970-01-01T00:00Z; the test's calendar dates are read
    in UTC. */
module Scenarios {
  import opened Wrappers
  import opened TimeUnits
  import opened Recurrence
  import opened Blockout
  import opened Evaluator
  import opened Manager
  import Arith

  /** 2013-01-01T00:00Z. */
  const Jan1st2013: int := 1356998400000

  /** Day `day` of January 2013 at `hour`:00 UTC. */
  function January2013(day: int, hour: int): int
  {
    Jan1st2013 + (day - 1) * Millis(Day) + hour * Millis(Hour)
  }

  /** A window repeating forever every two weeks, blocking two hours each time. */
  function Biweekly(name: string, start: int): BlockoutWindow
  {
    BlockoutWindow(name, Series(start, None, -1, 2 * Millis(Week)), 2 * Millis(Hour))
  }

  /** A simple trigger repeating forever every `weeks` weeks. */
  function EveryWeeks(name: string, start: int, weeks: nat): Schedule
  {
    SimpleSchedule(name, Series(start, None, -1, weeks * Millis(Week)))
  }

  // ---------------------------------------------------------------------
  // Registry scenarios

  /** testAddBlockout: a window added to an empty registry is got back by its name. */
  method AddThenGet(b: BlockoutWindow) returns (got: Result<BlockoutWindow, BlockoutError>)
    requires WellFormed(b)
    ensures got == Success(b)
  {
    var manager := new BlockoutManager();
    var added := manager.AddBlockout(b);
    got := manager.GetBlockout(b.name);
  }

  /** testGetBlockout: with two names registered, each get returns its own window. */
  method GetEachByName(b1: BlockoutWindow, b2: BlockoutWindow)
    returns (got1: Result<BlockoutWindow, BlockoutError>, got2: Result<BlockoutWindow, BlockoutError>)
    requires WellFormed(b1) && WellFormed(b2) && b1.name != b2.name
    ensures got1 == Success(b1) && got2 == Success(b2)
    ensures got2 != Success(b1)
  {
    var manager := new BlockoutManager();
    var added1 := manager.AddBlockout(b1);
    var added2 := manager.AddBlockout(b2);
    got1 := manager.GetBlockout(b1.name);
    got2 := manager.GetBlockout(b2.name);
  }

  /** testGetBlockouts: two differently named windows are listed as exactly two entries. */
  method ListTwo(b1: BlockoutWindow, b2: BlockoutWindow) returns (count: nat)
    requires WellFormed(b1) && WellFormed(b2) && b1.name != b2.name
    ensures count == 2
  {
    var manager := new BlockoutManager();
    manager.DeleteAll();
    var added1 := manager.AddBlockout(b1);
    var added2 := manager.AddBlockout(b2);
    var listed := manager.GetBlockouts();
    assert manager.blockouts.Keys == {b1.name, b2.name};
    count := |listed|;
  }

  /** testUpdateBlockout: after an update under the same name, get returns
      the new block duration. */
  method UpdateThenGet(b: BlockoutWindow, updatedDuration: int) returns (got: Result<BlockoutWindow, BlockoutError>)
    requires WellFormed(b) && updatedDuration >= 0
    ensures got.Success? && got.value.blockDuration == updatedDuration
    ensures got == Success(b.(blockDuration := updatedDuration))
  {
    var manager := new BlockoutManager();
    var added := manager.AddBlockout(b);
    var updated := b.(blockDuration := updatedDuration);
    var res := manager.UpdateBlockout(updated.name, updated);
    got := manager.GetBlockout(updated.name);
  }

  /** testDeleteBlockout: deleting a registered name reports success and
      leaves the registry empty; deleting it again reports failure. */
  method DeleteRegistered(b: BlockoutWindow) returns (first: bool, second: bool, remaining: nat)
    requires WellFormed(b)
    ensures first && !second && remaining == 0
  {
    var manager := new BlockoutManager();
    var added := manager.AddBlockout(b);
    first := manager.DeleteBlockout(b.name);
    second := manager.DeleteBlockout(b.name);
    remaining := |manager.blockouts|;
  }

  /** Updating or getting a name that was never registered is NotFound. */
  method UnknownName(name: string, b: BlockoutWindow)
    returns (update: Outcome<BlockoutError>, got: Result<BlockoutWindow, BlockoutError>)
    ensures update == Fail(NotFound(name)) && got == Failure(NotFound(name))
  {
    var manager := new BlockoutManager();
    update := manager.UpdateBlockout(name, b);
    got := manager.GetBlockout(name);
  }

  // ---------------------------------------------------------------------
  // Time scenarios

  lemma SingletonWindows(b: BlockoutWindow)
    ensures Windows([b]) == {b}
  {
  }

  /** testShouldFireNow: a window starting now blocks now (the start is
      inclusive); one starting an hour from now does not. The first window
      also stops blocking once its two hours are over (the end is exclusive). */
  lemma {:induction false} ShouldFireNowScenario(now: int)
    ensures !ShouldFireNow([Biweekly("blockOut1", now)], now)
    ensures ShouldFireNow([Biweekly("blockOut1", now + Millis(Hour))], now)
    ensures ShouldFireNow([Biweekly("blockOut1", now)], now + 2 * Millis(Hour))
  {
    UnitValues();
    BlockedAtStart(Biweekly("blockOut1", now));
    NotBlockedBeforeStart(Biweekly("blockOut1", now + Millis(Hour)), now);
    FixedPhase(Biweekly("blockOut1", now), now + 2 * Millis(Hour), 0, 2 * Millis(Hour));
  }

  /** Every firing of a schedule whose offset into a biweekly window's cycle
      is a fixed `phase` is blocked exactly when phase < 2 hours. */
  lemma {:induction false} FixedPhase(b: BlockoutWindow, t: int, m: int, phase: int)
    requires b == Biweekly(b.name, b.series.start)
    requires t == b.series.start + phase + m * (2 * Millis(Week)) && m >= 0 && 0 <= phase < 2 * Millis(Week)
    ensures Blocked(b, t) <==> phase < 2 * Millis(Hour)
  {
    UnboundedPhase(b, t);
    Arith.ModShift(phase, 2 * Millis(Week), m);
    Arith.MulMonotone(0, m, 2 * Millis(Week));
  }

  /** testWillFire, weekly half: a weekly trigger from Jan 7 01:00 escapes a
      biweekly two-hour window from Jan 7 00:00 (its second firing, Jan 14 01:00, is free). */
  lemma {:induction false} WeeklyWillFire()
    ensures WillFire([Biweekly("blockOut", January2013(7, 0))], EveryWeeks("trueSchedule", January2013(7, 1), 1))
  {
    UnitValues();
    var b := Biweekly("blockOut", January2013(7, 0));
    var s := EveryWeeks("trueSchedule", January2013(7, 1), 1);
    var t := Fire(s.series, 1);
    assert FiresAt(s, t);
    FixedPhase(b, t, 0, Millis(Week) + Millis(Hour));
    SingletonWindows(b);
    assert !BlockedBySome(Windows([b]), t);
  }

  /** testWillFire, biweekly half: a biweekly trigger from Jan 7 01:00 never
      fires, because every firing is one hour into a window. */
  lemma {:induction false} BiweeklyNeverFires()
    ensures !WillFire([Biweekly("blockOut", January2013(7, 0))], EveryWeeks("falseSchedule", January2013(7, 1), 2))
  {
    UnitValues();
    var b := Biweekly("blockOut", January2013(7, 0));
    var s := EveryWeeks("falseSchedule", January2013(7, 1), 2);
    SingletonWindows(b);
    forall t | FiresAt(s, t) ensures BlockedBySome(Windows([b]), t) {
      var j: nat :| Fire(s.series, j) == t;
      FixedPhase(b, t, j, Millis(Hour));
    }
  }

  /** testIsPartiallyBlocked, true half: against a biweekly window from
      Jan 1 00:00, biweekly and weekly triggers from Jan 15 00:00 are
      partially blocked (a firing exactly at a window's start counts). */
  lemma {:induction false} PartiallyBlockedAtWindowStart()
    ensures IsPartiallyBlocked([Biweekly("blockOut", January2013(1, 0))], EveryWeeks("trueSchedule1", January2013(15, 0), 2))
    ensures IsPartiallyBlocked([Biweekly("blockOut", January2013(1, 0))], EveryWeeks("trueSchedule2", January2013(15, 0), 1))
  {
    UnitValues();
    var b := Biweekly("blockOut", January2013(1, 0));
    SingletonWindows(b);
    var t := January2013(15, 0);
    FixedPhase(b, t, 1, 0);
    assert FiresAt(EveryWeeks("trueSchedule1", t, 2), Fire(EveryWeeks("trueSchedule1", t, 2).series, 0));
    assert FiresAt(EveryWeeks("trueSchedule2", t, 1), Fire(EveryWeeks("trueSchedule2", t, 1).series, 0));
    assert BlockedBySome(Windows([b]), t);
  }

  /** testIsPartiallyBlocked, false half: a weekly trigger from Jan 1 03:00
      always lands 3 hours or a week and 3 hours into the window's cycle. */
  lemma {:induction false} NeverPartiallyBlocked()
    ensures !IsPartiallyBlocked([Biweekly("blockOut", January2013(1, 0))], EveryWeeks("falseSchedule1", January2013(1, 3), 1))
  {
    UnitValues();
    var b := Biweekly("blockOut", January2013(1, 0));
    SingletonWindows(b);
    var s := EveryWeeks("falseSchedule1", January2013(1, 3), 1);
    forall t | FiresAt(s, t) ensures !BlockedBySome(Windows([b]), t) {
      var j: nat :| Fire(s.series, j) == t;
      if j % 2 == 0 {
        FixedPhase(b, t, j / 2, 3 * Millis(Hour));
      } else {
        FixedPhase(b, t, j / 2, Millis(Week) + 3 * Millis(Hour));
      }
    }
  }

  /** The cron trigger "0 0 1 ? * MON-TUE" from Jan 7 01:00, as the cron
      evaluator lists it over the four weeks from Jan 7 2013 (a Monday). */
  function MondayTuesdayCron(): Schedule
  {
    FireList("cronTrigger", [January2013(7, 1), January2013(8, 1), January2013(14, 1), January2013(15, 1),
                             January2013(21, 1), January2013(22, 1), January2013(28, 1), January2013(29, 1)])
  }

  /** A weekly trigger from Jan 7 01:00 is hit by the Jan 7 window. */
  lemma {:induction false} WeeklyHitByJan7()
    ensures IsPartiallyBlocked([Biweekly("blockOut", January2013(7, 0))], EveryWeeks("schedule", January2013(7, 1), 1))
    ensures IsPartiallyBlocked([Biweekly("blockOut", January2013(7, 0))], EveryWeeks("dateIntervalTrigger1", January2013(7, 1), 2))
    ensures IsPartiallyBlocked([Biweekly("blockOut", January2013(7, 0))], MondayTuesdayCron())
  {
    UnitValues();
    var b := Biweekly("blockOut", January2013(7, 0));
    SingletonWindows(b);
    var t := January2013(7, 1);
    FixedPhase(b, t, 0, Millis(Hour));
    assert FiresAt(EveryWeeks("schedule", t, 1), Fire(EveryWeeks("schedule", t, 1).series, 0));
    assert FiresAt(EveryWeeks("dateIntervalTrigger1", t, 2), Fire(EveryWeeks("dateIntervalTrigger1", t, 2).series, 0));
    assert FiresAt(MondayTuesdayCron(), t);
    assert BlockedBySome(Windows([b]), t);
  }

  /** ... and missed by the Jan 9 window (two days later in the cycle). */
  lemma {:induction false} MissedByJan9()
    ensures !IsPartiallyBlocked([Biweekly("blockOut", January2013(9, 0))], EveryWeeks("schedule", January2013(7, 1), 1))
    ensures !IsPartiallyBlocked([Biweekly("blockOut", January2013(9, 0))], EveryWeeks("dateIntervalTrigger1", January2013(7, 1), 2))
    ensures !IsPartiallyBlocked([Biweekly("blockOut", January2013(9, 0))], MondayTuesdayCron())
  {
    UnitValues();
    var b := Biweekly("blockOut", January2013(9, 0));
    SingletonWindows(b);
    var day := Millis(Day);
    forall j: nat ensures !Blocked(b, January2013(7, 1) + j * Millis(Week)) {
      var t := January2013(7, 1) + j * Millis(Week);
      if j == 0 {
        NotBlockedBeforeStart(b, t);
      } else if (j - 1) % 2 == 0 {
        FixedPhase(b, t, (j - 1) / 2, 5 * day + Millis(Hour));
      } else {
        FixedPhase(b, t, (j - 1) / 2, 12 * day + Millis(Hour));
      }
    }
    var s1 := EveryWeeks("schedule", January2013(7, 1), 1);
    forall t | FiresAt(s1, t) ensures !BlockedBySome(Windows([b]), t) {
      var j: nat :| Fire(s1.series, j) == t;
    }
    var s2 := EveryWeeks("dateIntervalTrigger1", January2013(7, 1), 2);
    forall t | FiresAt(s2, t) ensures !BlockedBySome(Windows([b]), t) {
      var j: nat :| Fire(s2.series, j) == t;
      assert t == January2013(7, 1) + (2 * j) * Millis(Week);
    }
    var fires := MondayTuesdayCron().fires;
    forall t | t in fires ensures !Blocked(b, t) {
      if t < b.series.start {
        NotBlockedBeforeStart(b, t);
      } else if t == January2013(14, 1) {
        FixedPhase(b, t, 0, 5 * day + Millis(Hour));
      } else if t == January2013(15, 1) {
        FixedPhase(b, t, 0, 6 * day + Millis(Hour));
      } else if t == January2013(21, 1) {
        FixedPhase(b, t, 0, 12 * day + Millis(Hour));
      } else if t == January2013(22, 1) {
        FixedPhase(b, t, 0, 13 * day + Millis(Hour));
      } else if t == January2013(28, 1) {
        FixedPhase(b, t, 1, 5 * day + Millis(Hour));
      } else {
        FixedPhase(b, t, 1, 6 * day + Millis(Hour));
      }
    }
  }

  /** testWillBlockSchedules: previewing the Jan 7 window reports each
      trigger scheduled so far (1, then 2 with the cron trigger, then 3 with
      the two-week date-interval trigger); previewing the Jan 9 window
      reports none. The candidate is never registered. */
  lemma {:induction false} WillBlockSchedulesScenario()
    ensures |WillBlockSchedules(Biweekly("blockOut", January2013(7, 0)),
              [EveryWeeks("schedule", January2013(7, 1), 1)])| == 1
    ensures |WillBlockSchedules(Biweekly("blockOut", January2013(9, 0)),
              [EveryWeeks("schedule", January2013(7, 1), 1)])| == 0
    ensures |WillBlockSchedules(Biweekly("blockOut", January2013(7, 0)),
              [EveryWeeks("schedule", January2013(7, 1), 1), MondayTuesdayCron()])| == 2
    ensures |WillBlockSchedules(Biweekly("blockOut", January2013(9, 0)),
              [EveryWeeks("schedule", January2013(7, 1), 1), MondayTuesdayCron()])| == 0
    ensures |WillBlockSchedules(Biweekly("blockOut", January2013(7, 0)),
              [EveryWeeks("schedule", January2013(7, 1), 1), MondayTuesdayCron(),
               EveryWeeks("dateIntervalTrigger1", January2013(7, 1), 2)])| == 3
    ensures |WillBlockSchedules(Biweekly("blockOut", January2013(9, 0)),
              [EveryWeeks("schedule", January2013(7, 1), 1), MondayTuesdayCron(),
               EveryWeeks("dateIntervalTrigger1", January2013(7, 1), 2)])| == 0
  {
    WeeklyHitByJan7();
    MissedByJan9();
    var hit := Biweekly("blockOut", January2013(7, 0));
    var miss := Biweekly("blockOut", January2013(9, 0));
    SingletonWindows(hit);
    SingletonWindows(miss);
    var weekly := EveryWeeks("schedule", January2013(7, 1), 1);
    var twoWeek := EveryWeeks("dateIntervalTrigger1", January2013(7, 1), 2);
    var triggers := [weekly, MondayTuesdayCron(), twoWeek];
    WillBlockSchedulesSize(hit, triggers[..1]);
    WillBlockSchedulesSize(miss, triggers[..1]);
    WillBlockSchedulesSize(hit, triggers[..2]);
    WillBlockSchedulesSize(miss, triggers[..2]);
    WillBlockSchedulesSize(hit, triggers);
    WillBlockSchedulesSize(miss, triggers);
  }
}
