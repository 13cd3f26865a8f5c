/** Standard units of time, in milliseconds. Each unit is defined as a whole
    number of the unit below it, as the test's TIME table builds them. */
module TimeUnits {

  datatype TimeUnit = Millisecond | Second | Minute | Hour | Day | Week | Year

  /** Position of a unit in the table, smallest first. */
  function Rank(u: TimeUnit): nat
  {
    match u
    case Millisecond => 0
    case Second => 1
    case Minute => 2
    case Hour => 3
    case Day => 4
    case Week => 5
    case Year => 6
  }

  /** Length of one unit in milliseconds; each unit is built from a smaller one. */
  function Millis(u: TimeUnit): (ms: nat)
    ensures ms > 0
    decreases Rank(u)
  {
    match u
    case Millisecond => 1
    case Second => Millis(Millisecond) * 1000
    case Minute => Millis(Second) * 60
    case Hour => Millis(Minute) * 60
    case Day => Millis(Hour) * 24
    case Week => Millis(Day) * 7
    case Year => Millis(Day) * 365
  }

  /** The table's values, written out in milliseconds. */
  lemma {:induction false} UnitValues()
    ensures Millis(Second) == 1000
    ensures Millis(Minute) == 60000
    ensures Millis(Hour) == 3600000
    ensures Millis(Day) == 86400000
    ensures Millis(Week) == 604800000
    ensures Millis(Year) == 31536000000
  {
    assert Millis(Second) == 1000;
    assert Millis(Minute) == 60 * 1000;
    assert Millis(Hour) == 60 * 60000;
    assert Millis(Day) == 24 * 3600000;
    assert Millis(Week) == 7 * 86400000;
    assert Millis(Year) == 365 * 86400000;
  }

  /** Every unit is a strictly larger whole multiple of the one it is built on. */
  lemma {:induction false} UnitsNest()
    ensures Millis(Week) == 7 * Millis(Day)
    ensures Millis(Year) == 365 * Millis(Day)
    ensures Millis(Millisecond) < Millis(Second) < Millis(Minute) < Millis(Hour) < Millis(Day) < Millis(Week) < Millis(Year)
  {
    UnitValues();
  }
}
