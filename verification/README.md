# Blockout manager model

This project models the blockout manager of the Pentaho platform's scheduler.
A blockout is a named, recurring time window during which scheduled jobs must
not fire. The manager keeps a registry of blockouts keyed by name, with add,
get, list, update and delete. It also answers four questions:

- `shouldFireNow`: is the current instant outside every window?
- `isPartiallyBlocked`: does some firing of a trigger land inside a window?
- `willFire`: does some firing of a trigger escape every window?
- `willBlockSchedules`: which active triggers would a candidate window block?

The production class is not part of this model. Its behaviour is rebuilt from
what `DefaultBlockoutManagerTest.java` asserts about it, and every assertion
of that test that does not depend on calendar months appears here as a proved
scenario.

Files:

- `time_units.dfy`: the test's `TIME` table of units in milliseconds.
- `recurrence.dfy`: the fixed-period series that a `SimpleTrigger` and a
  `SimpleBlockoutTrigger` share. It has a first instant, an optional end, a
  repeat count (`-1` means forever) and a repeat interval. Occurrence `k` is at
  `start + k*interval`.
- `blockout.dfy`: blockout windows. Occurrence `k` blocks the half-open
  interval `[start + k*interval, start + k*interval + blockDuration)`.
  Occurrences may overlap, and an instant is blocked when any of them covers it.
- `evaluator.dfy`: the four queries, taken over a snapshot of windows. Each
  query is specified by a ghost predicate over all firings, including an
  infinite number of them. It is decided by searching one cycle of the
  collision pattern. The cycle is the lcm of the periods involved, folded over
  every window that repeats forever.
- `manager.dfy`: the registry, a class with a `map<string, BlockoutWindow>`
  field and methods that say exactly which entry changes.
- `arith.dfy`: division, remainder, gcd and lcm facts used by the cycle argument.
- `scenarios.dfy`: the test's scenarios.
- `wrappers.dfy`: the `Option`, `Result` and `Outcome` datatypes.

Modelling decisions:

- Instants are integer milliseconds since 1970-01-01T00:00Z. The test's
  `GregorianCalendar` dates are read in UTC, so 2013-01-01T00:00 is
  1356998400000.
- The clock is a parameter. `shouldFireNow` takes `now`.
- The scheduler engine is a parameter. `willBlockSchedules` takes the list of
  active triggers. The candidate window is never registered.
- A cron-driven trigger is the finite list of instants that the cron evaluator
  gives for the queried range (`FireList`). The test's `"0 0 1 ? * MON-TUE"`
  trigger is its firings over the four weeks from Mon 2013-01-07.
- The test's `DateIntervalTrigger` with `IntervalUnit.WEEK` and interval 2 is a
  simple trigger repeating every two weeks.
- `willFire` and `isPartiallyBlocked` use union semantics over all registered
  windows. A firing is blocked when any window covers it. `willFire` holds when
  some firing escapes every window at once. The test registers only one
  window, so it cannot tell this apart from the weaker per-window reading.
- The registry rejects ill-formed definitions with `InvalidDefinition`: a
  repeat count below -1, a negative interval or duration, or a repeating
  window (a positive repeat count or the "forever" value -1) with a zero
  interval. It also rejects an existing name with
  `DuplicateName`. `updateBlockout` stores the new definition under the key's
  name. The test exercises none of these error paths.
- A repeat interval of zero or less means a single occurrence. A negative
  repeat count means "forever".

## Model

| member | source | states |
|---|---|---|
| TimeUnits.Millis | scheduler/test-src/org/pentaho/platform/scheduler2/blockout/DefaultBlockoutManagerTest.java:62-71 | every time unit is a positive number of milliseconds, built from the unit below it |
| TimeUnits.UnitValues | scheduler/test-src/org/pentaho/platform/scheduler2/blockout/DefaultBlockoutManagerTest.java:62-64 | SECOND = 1000 ms, MINUTE = 60000, HOUR = 3600000, DAY = 86400000, WEEK = 604800000, YEAR = 31536000000 |
| TimeUnits.UnitsNest | scheduler/test-src/org/pentaho/platform/scheduler2/blockout/DefaultBlockoutManagerTest.java:63-64 | WEEK is exactly 7 DAY, YEAR is exactly 365 DAY, and the units strictly increase from MILLISECOND to YEAR |
| Recurrence.FireIncreasing | scheduler/test-src/org/pentaho/platform/scheduler2/blockout/DefaultBlockoutManagerTest.java:211-212 | with a positive interval, a later firing is at least one interval after an earlier one |
| Recurrence.IndexBound | scheduler/test-src/org/pentaho/platform/scheduler2/blockout/DefaultBlockoutManagerTest.java:211-212 | a trigger that stops (it has a repeat count, an end, or no positive interval) has only indices below the bound |
| Recurrence.FirstIndexFrom | scheduler/test-src/org/pentaho/platform/scheduler2/blockout/DefaultBlockoutManagerTest.java:211-212 | the result is the first firing index at or after a given instant: it is at or after the instant and every earlier index is before it |
| Recurrence.LatestIndexUpTo | scheduler/test-src/org/pentaho/platform/scheduler2/blockout/DefaultBlockoutManagerTest.java:207-208 | the result is a valid occurrence starting at or before t, and no valid occurrence that starts by t has a larger index; None exactly when no occurrence has started |
| Blockout.BlockedAt | scheduler/test-src/org/pentaho/platform/scheduler2/blockout/DefaultBlockoutManagerTest.java:105 | checking only the latest started occurrence gives true exactly when some valid occurrence k covers t, with overlapping occurrences allowed |
| Blockout.QuietAfter | scheduler/test-src/org/pentaho/platform/scheduler2/blockout/DefaultBlockoutManagerTest.java:105 | a window that stops repeating blocks no instant from the result on |
| Blockout.BlockedShift | scheduler/test-src/org/pentaho/platform/scheduler2/blockout/DefaultBlockoutManagerTest.java:207-208 | from its first instant on, a window that repeats forever blocks t + interval exactly when it blocks t |
| Blockout.BlockedShiftMany | scheduler/test-src/org/pentaho/platform/scheduler2/blockout/DefaultBlockoutManagerTest.java:207-208 | the same holds after any whole number of intervals |
| Blockout.BlockedPeriodic | scheduler/test-src/org/pentaho/platform/scheduler2/blockout/DefaultBlockoutManagerTest.java:207-208 | every non-negative multiple of the interval is a period of a window that repeats forever, from its first instant on |
| Blockout.NotBlockedBeforeStart | scheduler/test-src/org/pentaho/platform/scheduler2/blockout/DefaultBlockoutManagerTest.java:278-283 | no window blocks any instant before its first instant |
| Blockout.BlockedAtStart | scheduler/test-src/org/pentaho/platform/scheduler2/blockout/DefaultBlockoutManagerTest.java:270-275 | the first instant of a window with a positive duration is blocked, so the start is inclusive |
| Blockout.UnboundedPhase | scheduler/test-src/org/pentaho/platform/scheduler2/blockout/DefaultBlockoutManagerTest.java:270-283 | closed form for a window that repeats forever: t is blocked iff t >= start and (t - start) mod interval < blockDuration |
| Evaluator.AnyBlocks | scheduler/test-src/org/pentaho/platform/scheduler2/blockout/DefaultBlockoutManagerTest.java:270-283 | true exactly when some window of the snapshot blocks the instant (union of windows) |
| Evaluator.ShouldFireNow | scheduler/test-src/org/pentaho/platform/scheduler2/blockout/DefaultBlockoutManagerTest.java:267-287 | shouldFireNow is true iff `now` lies outside every window of the snapshot |
| Evaluator.CommonPeriod | scheduler/test-src/org/pentaho/platform/scheduler2/blockout/DefaultBlockoutManagerTest.java:206-221 | a positive common multiple of the trigger's interval and of every forever-repeating window's interval |
| Evaluator.SnapshotPeriodic | scheduler/test-src/org/pentaho/platform/scheduler2/blockout/DefaultBlockoutManagerTest.java:206-221 | once every window has started or stopped for good, moving an instant by that common period does not change whether it is blocked |
| Evaluator.ShiftBackOneCycle | scheduler/test-src/org/pentaho/platform/scheduler2/blockout/DefaultBlockoutManagerTest.java:206-221 | past that threshold, a firing one cycle earlier gets the same verdict |
| Evaluator.SearchFirings | scheduler/test-src/org/pentaho/platform/scheduler2/blockout/DefaultBlockoutManagerTest.java:211-212 | the bounded search is true exactly when some valid firing index in [lo, hi) gets the wanted verdict |
| Evaluator.HorizonSuffices | scheduler/test-src/org/pentaho/platform/scheduler2/blockout/DefaultBlockoutManagerTest.java:206-221 | any firing that gets a given verdict (blocked or free) has a counterpart with the same verdict below the horizon: the threshold plus one cycle |
| Evaluator.SomeFiring | scheduler/test-src/org/pentaho/platform/scheduler2/blockout/DefaultBlockoutManagerTest.java:203-262 | the finite search is true exactly when some firing of the trigger, among possibly infinitely many, gets the wanted verdict |
| Evaluator.IsPartiallyBlocked | scheduler/test-src/org/pentaho/platform/scheduler2/blockout/DefaultBlockoutManagerTest.java:235-262 | isPartiallyBlocked is true iff some firing of the trigger lands inside some window |
| Evaluator.WillFire | scheduler/test-src/org/pentaho/platform/scheduler2/blockout/DefaultBlockoutManagerTest.java:203-230 | willFire is true iff some firing of the trigger escapes every window |
| Evaluator.WillBlockSchedules | scheduler/test-src/org/pentaho/platform/scheduler2/blockout/DefaultBlockoutManagerTest.java:293-311 | the result holds each active trigger that the candidate window alone partially blocks, as many times as it occurs among the triggers, and no other trigger; it is no longer than the list of triggers |
| Evaluator.WillBlockSchedulesSize | scheduler/test-src/org/pentaho/platform/scheduler2/blockout/DefaultBlockoutManagerTest.java:310-331 | from that contract alone: when the candidate blocks every listed trigger the preview's size is the number of triggers, and when it blocks none the size is 0 |
| Evaluator.CollisionCycle | scheduler/test-src/org/pentaho/platform/scheduler2/blockout/DefaultBlockoutManagerTest.java:206-221 | for a window and a trigger that both repeat forever, firing j and firing j + lcm(Rb, Rs)/Rs are blocked alike once firing j has reached the window's start |
| Evaluator.LongerSearchAgrees | scheduler/test-src/org/pentaho/platform/scheduler2/blockout/DefaultBlockoutManagerTest.java:206-221 | a bounded search over any horizon at least one cycle long gives the same answer as the exact one-cycle decision |
| Evaluator.NoWindowsNoBlock | scheduler/test-src/org/pentaho/platform/scheduler2/blockout/DefaultBlockoutManagerTest.java:92-98 | with no windows, nothing is partially blocked and willFire holds iff the trigger fires at all; a design-level property derived for the empty registry that tearDown leaves, which the test does not assert |
| Evaluator.MoreWindowsBlockMore | scheduler/test-src/org/pentaho/platform/scheduler2/blockout/DefaultBlockoutManagerTest.java:253-258 | adding a window can only add blocked firings: isPartiallyBlocked is monotone and willFire antitone in the snapshot |
| Manager.BlockoutManager.constructor | scheduler/test-src/org/pentaho/platform/scheduler2/blockout/DefaultBlockoutManagerTest.java:86 | a new manager holds no blockouts |
| Manager.BlockoutManager.AddBlockout | scheduler/test-src/org/pentaho/platform/scheduler2/blockout/DefaultBlockoutManagerTest.java:104-116 | stores the window under its name; a taken name or an ill-formed definition fails and changes nothing |
| Manager.BlockoutManager.GetBlockout | scheduler/test-src/org/pentaho/platform/scheduler2/blockout/DefaultBlockoutManagerTest.java:121-138 | returns the window stored under the name, whose own name is that key, or NotFound |
| Manager.BlockoutManager.GetBlockouts | scheduler/test-src/org/pentaho/platform/scheduler2/blockout/DefaultBlockoutManagerTest.java:140-157 | lists every registered window exactly once: length equals the registry size, names are distinct, the set of entries is the set of stored windows |
| Manager.BlockoutManager.UpdateBlockout | scheduler/test-src/org/pentaho/platform/scheduler2/blockout/DefaultBlockoutManagerTest.java:163-179 | replaces the definition under an existing name wholesale and leaves other names untouched; an unknown name is NotFound |
| Manager.BlockoutManager.DeleteBlockout | scheduler/test-src/org/pentaho/platform/scheduler2/blockout/DefaultBlockoutManagerTest.java:184-198 | removes exactly that name and returns whether it was registered |
| Manager.BlockoutManager.DeleteAll | scheduler/test-src/org/pentaho/platform/scheduler2/blockout/DefaultBlockoutManagerTest.java:92-98 | deleting every listed name in turn leaves the registry empty |
| Manager.BlockoutManager.ShouldFireNow | scheduler/test-src/org/pentaho/platform/scheduler2/blockout/DefaultBlockoutManagerTest.java:267-287 | true iff `now` is blocked by no registered window |
| Manager.BlockoutManager.IsPartiallyBlocked | scheduler/test-src/org/pentaho/platform/scheduler2/blockout/DefaultBlockoutManagerTest.java:235-262 | true iff some firing of the trigger lands inside some registered window |
| Manager.BlockoutManager.WillFire | scheduler/test-src/org/pentaho/platform/scheduler2/blockout/DefaultBlockoutManagerTest.java:203-230 | true iff some firing of the trigger escapes every registered window |
| Scenarios.AddThenGet | scheduler/test-src/org/pentaho/platform/scheduler2/blockout/DefaultBlockoutManagerTest.java:104-116 | a window added and then got by its name comes back equal |
| Scenarios.GetEachByName | scheduler/test-src/org/pentaho/platform/scheduler2/blockout/DefaultBlockoutManagerTest.java:122-138 | with two names registered, each get returns its own window and the second get is not the first window |
| Scenarios.ListTwo | scheduler/test-src/org/pentaho/platform/scheduler2/blockout/DefaultBlockoutManagerTest.java:141-157 | after clearing and adding two differently named windows, the list has exactly 2 entries |
| Scenarios.UpdateThenGet | scheduler/test-src/org/pentaho/platform/scheduler2/blockout/DefaultBlockoutManagerTest.java:163-179 | after an update under the same name, get returns the updated block duration |
| Scenarios.DeleteRegistered | scheduler/test-src/org/pentaho/platform/scheduler2/blockout/DefaultBlockoutManagerTest.java:185-198 | deleting a registered name returns true and empties the registry; deleting it again returns false |
| Scenarios.UnknownName | scheduler/test-src/org/pentaho/platform/scheduler2/blockout/DefaultBlockoutManagerTest.java:163-179 | update and get of a name never registered both fail with NotFound; a design-level error path next to the cited update test, which itself updates only a registered name |
| Scenarios.ShouldFireNowScenario | scheduler/test-src/org/pentaho/platform/scheduler2/blockout/DefaultBlockoutManagerTest.java:268-287 | a 2-hour window starting at `now` blocks now; one starting an hour later does not; the first stops blocking 2 hours after `now` |
| Scenarios.FixedPhase | scheduler/test-src/org/pentaho/platform/scheduler2/blockout/DefaultBlockoutManagerTest.java:207-208 | an instant a fixed phase into any cycle of a biweekly 2-hour window is blocked iff the phase is under 2 hours |
| Scenarios.WeeklyWillFire | scheduler/test-src/org/pentaho/platform/scheduler2/blockout/DefaultBlockoutManagerTest.java:204-220 | a weekly trigger from Jan 7 01:00 will fire against the biweekly Jan 7 window |
| Scenarios.BiweeklyNeverFires | scheduler/test-src/org/pentaho/platform/scheduler2/blockout/DefaultBlockoutManagerTest.java:204-221 | a biweekly trigger from Jan 7 01:00 never fires: every firing is one hour into a window |
| Scenarios.PartiallyBlockedAtWindowStart | scheduler/test-src/org/pentaho/platform/scheduler2/blockout/DefaultBlockoutManagerTest.java:236-257 | biweekly and weekly triggers from Jan 15 00:00 are partially blocked by the biweekly Jan 1 window |
| Scenarios.NeverPartiallyBlocked | scheduler/test-src/org/pentaho/platform/scheduler2/blockout/DefaultBlockoutManagerTest.java:249-258 | a weekly trigger from Jan 1 03:00 is never blocked by the biweekly Jan 1 window |
| Scenarios.WeeklyHitByJan7 | scheduler/test-src/org/pentaho/platform/scheduler2/blockout/DefaultBlockoutManagerTest.java:295-330 | the weekly, cron and two-week date-interval triggers are each partially blocked by the Jan 7 window |
| Scenarios.MissedByJan9 | scheduler/test-src/org/pentaho/platform/scheduler2/blockout/DefaultBlockoutManagerTest.java:300-331 | none of those three triggers is partially blocked by the Jan 9 window |
| Scenarios.WillBlockSchedulesScenario | scheduler/test-src/org/pentaho/platform/scheduler2/blockout/DefaultBlockoutManagerTest.java:293-331 | previewing the Jan 7 window reports 1, then 2, then 3 triggers as they are scheduled; previewing the Jan 9 window reports 0 each time |

## Left out

- `DateIntervalTrigger` with `IntervalUnit.MONTH` (the 4/1 counts at
  DefaultBlockoutManagerTest.java:334-339) and calendar-interval triggers in
  months or years in general are left out. Month lengths vary and depend on the
  time zone's calendar, which is not part of this model.
- Cron parsing is left out. A cron trigger is the list of instants that the
  cron evaluator returns.
- Scenarios.WillBlockSchedulesScenario: for the cron trigger this states only
  what holds over the four weeks of firings it is given, not over the cron
  trigger's whole future.
- Arith.Lcm: it is proved to be a positive common multiple of its arguments,
  but not the least one. The cycle argument only needs a common multiple.
- Evaluator.CommonPeriod: the same applies. The cycle it gives may be longer
  than the least one.
- There is no cap on cycle length and no `HorizonExceeded` soft failure. The
  search always covers one whole cycle.
- Java `long` overflow is not modelled. Integers are unbounded.
- `System.currentTimeMillis()` and `GregorianCalendar` local time are left
  out. `now` is a parameter, and dates are UTC instants.
- The MicroPlatform and Quartz set-up are left out, along with
  `scheduleJob`/`deleteJob` (the test's lines 79-87 and 356-382). Active
  triggers are passed as a parameter.
- `SchedulerException` wrapping becomes `Result`/`Outcome` values.
  Concurrent access to the registry and its locking are left out.
- Scenarios.GetEachByName: the test's `assertNotSame` compares object
  identity. Windows here are values, so this is stated as inequality between
  windows that differ in name.
- api/src/org/pentaho/platform/api/usersettings/IUserSettingService.java is
  not part of this model. It is a settings-storage interface with no logic.
