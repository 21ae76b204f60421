/**
 * The Gregorian calendar in UTC, counted in seconds since the Epoch. Independent
 * reference for the constant bound the protocol puts on timestamps.
 */
module Calendar {

  const SECONDS_PER_DAY := 86400

  predicate LeapYear(year: int) {
    year % 4 == 0 && (year % 100 != 0 || year % 400 == 0)
  }

  function DaysIn(year: int): int {
    if LeapYear(year) then 366 else 365
  }

  /** Days from 1 January 1970 to 1 January of the given year, one year at a time. */
  function DaysBefore(year: int): (days: int)
    requires year >= 1970
    decreases year
  {
    if year == 1970 then 0 else DaysBefore(year - 1) + DaysIn(year - 1)
  }

  /** The leap-day count of "Seconds Since the Epoch", section 4.16 of POSIX.1-2017. */
  function PosixDaysBefore(year: int): int {
    var tmYear := year - 1900;
    (tmYear - 70) * 365 + (tmYear - 69) / 4 - (tmYear - 1) / 100 + (tmYear + 299) / 400
  }

  /** Each quotient of the closed form grows by one exactly where its rule adds or drops a leap day. */
  lemma FourYearTerm(year: int)
    ensures (year - 1969) / 4 - (year - 1970) / 4 == if (year - 1) % 4 == 0 then 1 else 0
  {
  }

  lemma CenturyTerm(year: int)
    ensures (year - 1901) / 100 - (year - 1902) / 100 == if (year - 1) % 100 == 0 then 1 else 0
  {
  }

  lemma FourCenturyTerm(year: int)
    ensures (year - 1601) / 400 - (year - 1602) / 400 == if (year - 1) % 400 == 0 then 1 else 0
  {
  }

  lemma CenturiesAreFourYears(year: int)
    ensures year % 400 == 0 ==> year % 100 == 0
    ensures year % 100 == 0 ==> year % 4 == 0
  {
  }

  lemma PosixStep(year: int)
    ensures PosixDaysBefore(year) == PosixDaysBefore(year - 1) + DaysIn(year - 1)
  {
    var four, century, fourCentury := (year - 1969) / 4, (year - 1901) / 100, (year - 1601) / 400;
    assert PosixDaysBefore(year) == (year - 1970) * 365 + four - century + fourCentury;
    var four', century', fourCentury' := (year - 1970) / 4, (year - 1902) / 100, (year - 1602) / 400;
    assert PosixDaysBefore(year - 1) == (year - 1971) * 365 + four' - century' + fourCentury';
    assert four - four' - (century - century') + (fourCentury - fourCentury') == DaysIn(year - 1) - 365 by {
      FourYearTerm(year);
      CenturyTerm(year);
      FourCenturyTerm(year);
      CenturiesAreFourYears(year - 1);
    }
  }

  lemma {:induction false} PosixCountsLeapDays(year: int)
    requires year >= 1970
    ensures DaysBefore(year) == PosixDaysBefore(year)
    decreases year
  {
    if year > 1970 {
      PosixCountsLeapDays(year - 1);
      PosixStep(year);
    }
  }

  lemma {:induction false} DaysBeforeIncreases(early: int, late: int)
    requires 1970 <= early < late
    ensures DaysBefore(early) + 365 <= DaysBefore(late)
    decreases late
  {
    if early < late - 1 {
      DaysBeforeIncreases(early, late - 1);
    }
  }

  /** t seconds after the Epoch lie in the given year. */
  predicate FallsIn(t: nat, year: int) {
    year >= 1970 && DaysBefore(year) * SECONDS_PER_DAY <= t < DaysBefore(year + 1) * SECONDS_PER_DAY
  }

  function YearFrom(t: nat, year: int): (y: int)
    requires year >= 1970 && DaysBefore(year) * SECONDS_PER_DAY <= t
    ensures FallsIn(t, y)
    decreases t - DaysBefore(year) * SECONDS_PER_DAY
  {
    if t < DaysBefore(year + 1) * SECONDS_PER_DAY then year else YearFrom(t, year + 1)
  }

  /** The Gregorian UTC year of t seconds after the Epoch. */
  function YearOf(t: nat): (year: int)
    ensures FallsIn(t, year)
  {
    YearFrom(t, 1970)
  }

  lemma YearIsUnique(t: nat, year: int)
    requires FallsIn(t, year)
    ensures year == YearOf(t)
  {
    var other := YearOf(t);
    if other < year && other + 1 != year {
      DaysBeforeIncreases(other + 1, year);
    } else if year < other && year + 1 != other {
      DaysBeforeIncreases(year + 1, other);
    }
  }

  /** A year is reached exactly when its first second is. */
  lemma YearReached(t: nat, year: int)
    requires year >= 1970
    ensures YearOf(t) >= year <==> t >= DaysBefore(year) * SECONDS_PER_DAY
  {
    var actual := YearOf(t);
    if year < actual {
      DaysBeforeIncreases(year, actual);
    } else if actual + 1 < year {
      DaysBeforeIncreases(actual + 1, year);
    }
  }

  lemma YearReachedByPosix(t: nat, year: int, days: int)
    requires year >= 1970 && PosixDaysBefore(year) == days
    ensures YearOf(t) >= year <==> t >= days * SECONDS_PER_DAY
  {
    YearReached(t, year);
    PosixCountsLeapDays(year);
  }
}
