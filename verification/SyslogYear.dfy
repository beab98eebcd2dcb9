/** Year inference for syslog timestamps, which carry no year (parsers/syslog_auth.py). */
module SyslogYear {
  import opened Models

  /** A line's stamp; `month` is `None` for an abbreviation that names no month. */
  datatype Stamp = Stamp(month: Option<int>, day: int, hour: int, minute: int, second: int)

  datatype DateTime = DateTime(year: int, month: int, day: int, hour: int, minute: int, second: int)

  const YEAR_SEARCH_DEPTH := 8

  predicate IsLeap(year: int) {
    year % 4 == 0 && (year % 100 != 0 || year % 400 == 0)
  }

  function DaysIn(month: int, year: int): int
    requires 1 <= month <= 12
  {
    if month == 2 then (if IsLeap(year) then 29 else 28)
    else if month in {4, 6, 9, 11} then 30
    else 31
  }

  /** The date is in the Gregorian calendar of `year` and the time of day is one. */
  predicate ExistsIn(s: Stamp, year: int) {
    && s.month.Some? && 1 <= s.month.value <= 12
    && 1 <= s.day <= DaysIn(s.month.value, year)
    && 0 <= s.hour < 24 && 0 <= s.minute < 60 && 0 <= s.second < 60
  }

  function At(s: Stamp, year: int): DateTime
    requires s.month.Some?
  {
    DateTime(year, s.month.value, s.day, s.hour, s.minute, s.second)
  }

  /** `_build_dt`: the `%Y` of `strptime` reads exactly four digits, and the year is printed
      without leading zeros. */
  function BuildDt(s: Stamp, year: int): Option<DateTime> {
    if 1000 <= year <= 9999 && ExistsIn(s, year) then Some(At(s, year)) else None
  }

  function SearchBack(s: Stamp, year: int, delta: nat): (r: Option<DateTime>)
    ensures r.Some? ==> 1 <= r.value.month <= 12
    decreases YEAR_SEARCH_DEPTH - delta
  {
    if delta >= YEAR_SEARCH_DEPTH then None
    else
      var candidate := BuildDt(s, year - delta);
      if candidate.Some? then candidate else SearchBack(s, year, delta + 1)
  }

  function InferTimestamp(s: Stamp, reference: DateTime): (r: Option<DateTime>)
    ensures r.Some? ==> 1 <= r.value.month <= 12
  {
    var dt := BuildDt(s, reference.year);
    var rolled := BuildDt(s, reference.year - 1);
    if dt.Some? && dt.value.month > reference.month + 1 && rolled.Some? then rolled
    else if dt.Some? then dt
    else SearchBack(s, reference.year, 1)
  }

  // ---------------------------------------------------------------------------

  /** The date exists in some year of the calendar that Python's `datetime` covers. */
  ghost predicate ExistsSometime(s: Stamp) {
    exists y :: 1 <= y <= 9999 && ExistsIn(s, y)
  }

  /** A year the line may be from: not after the reference, and not the reference year itself when
      the month lies more than one ahead of the reference month. */
  ghost predicate Plausible(s: Stamp, reference: DateTime, year: int) {
    1 <= year <= reference.year && ExistsIn(s, year)
    && (year == reference.year ==> s.month.value <= reference.month + 1)
  }

  /** What the inference promises: the latest plausible year, and no line dropped unless its date
      exists in no year. */
  ghost predicate LatestPlausible(s: Stamp, reference: DateTime) {
    var r := InferTimestamp(s, reference);
    && (r.Some? <==> ExistsSometime(s))
    && (r.Some? ==> r.value == At(s, r.value.year) && Plausible(s, reference, r.value.year)
                    && forall y | Plausible(s, reference, y) :: y <= r.value.year)
  }

  ghost predicate IsLeapDay(s: Stamp) {
    s.month == Some(2) && s.day == 29
  }

  lemma CenturyMinusFour(year: int)
    requires year % 100 == 0
    ensures (year - 4) % 4 == 0 && (year - 4) % 100 == 96
  {
    var k := year / 100;
    assert year == 100 * k;
    assert year - 4 == 100 * (k - 1) + 96 && year - 4 == 4 * (25 * k - 1);
  }

  lemma NextLowerMultiple(year: int)
    ensures 0 <= year % 4 < 4 && (year - year % 4) % 4 == 0
  {
    assert year - year % 4 == 4 * (year / 4);
  }

  const MONTH_LENGTHS := [31, 28, 31, 30, 31, 30, 31, 31, 30, 31, 30, 31]

  /** Which dates the calendar has. */
  lemma CalendarDates(s: Stamp, year: int, month: int)
    requires s.month == Some(month)
    ensures ExistsIn(s, year) <==>
            && 1 <= month <= 12 && 0 <= s.hour <= 23 && 0 <= s.minute <= 59 && 0 <= s.second <= 59
            && (1 <= s.day <= MONTH_LENGTHS[month - 1]
                || (month == 2 && s.day == 29 && (year % 400 == 0 || (year % 4 == 0 && year % 100 != 0))))
  {
    MultiplesNest(year);
  }

  lemma FourHundreds(y: int)
    requires y % 400 == 0
    ensures y % 100 == 0
  {
    var k := y / 400;
    assert y == 100 * (4 * k);
  }

  lemma Hundreds(y: int)
    requires y % 100 == 0
    ensures y % 4 == 0
  {
    var k := y / 100;
    assert y == 4 * (25 * k);
  }

  lemma MultiplesNest(y: int)
    ensures y % 400 == 0 ==> y % 100 == 0
    ensures y % 100 == 0 ==> y % 4 == 0
  {
    if y % 400 == 0 {
      FourHundreds(y);
    }
    if y % 100 == 0 {
      Hundreds(y);
    }
  }

  /** Every eight consecutive years contain a leap year. */
  lemma LeapWithinEight(year: int) returns (leap: int)
    ensures year - 8 < leap <= year && IsLeap(leap)
    ensures 1004 <= year < 1008 ==> leap == 1004
  {
    NextLowerMultiple(year);
    leap := year - year % 4;
    if !IsLeap(leap) {
      CenturyMinusFour(leap);
      leap := leap - 4;
    }
  }

  lemma ExistenceByYear(s: Stamp, y: int, z: int)
    requires ExistsIn(s, y)
    ensures ExistsIn(s, z) <==> !IsLeapDay(s) || IsLeap(z)
  {
    hide IsLeap;
  }

  lemma {:induction false} SearchFindsNearest(s: Stamp, year: int, delta: nat)
    requires delta <= YEAR_SEARCH_DEPTH
    ensures var r := SearchBack(s, year, delta);
            && (r.None? ==> forall y | year - YEAR_SEARCH_DEPTH < y <= year - delta :: BuildDt(s, y).None?)
            && (r.Some? ==> exists y | year - YEAR_SEARCH_DEPTH < y <= year - delta ::
                  r == BuildDt(s, y) && forall z | y < z <= year - delta :: BuildDt(s, z).None?)
    decreases YEAR_SEARCH_DEPTH - delta
  {
    hide BuildDt;
    if delta < YEAR_SEARCH_DEPTH && BuildDt(s, year - delta).None? {
      SearchFindsNearest(s, year, delta + 1);
    }
  }

  /** The leap-day search stops at the nearest earlier leap year, which is never more than seven
      years back and has four digits from reference year 1004 on. */
  lemma LeapDaySearch(s: Stamp, reference: DateTime)
    requires 1004 <= reference.year <= 9999 && 1 <= reference.month <= 12
    requires IsLeapDay(s) && ExistsIn(s, 2000) && !IsLeap(reference.year)
    ensures LatestPlausible(s, reference)
  {
    var leap := LeapWithinEight(reference.year);
    SometimeMeansInLeapYear(s);
    ExistenceByYear(s, 2000, leap);
    ExistenceByYear(s, 2000, reference.year);
    hide IsLeap, ExistsIn;
    SearchFindsNearest(s, reference.year, 1);
    assert BuildDt(s, leap).Some?;
  }

  /** Exactly when the inference keeps its promise: always from reference year 1004 on; before
      that, for impossible dates, and for ordinary dates that need no year below 1000. */
  lemma InferenceIsLatestPlausible(s: Stamp, reference: DateTime)
    requires 1 <= reference.year <= 9999 && 1 <= reference.month <= 12
    ensures LatestPlausible(s, reference) <==>
              || reference.year >= 1004
              || !ExistsIn(s, 2000)
              || (!IsLeapDay(s) && reference.year >= 1000
                  && (reference.year == 1000 ==> s.month.value <= reference.month + 1))
  {
    SometimeMeansInLeapYear(s);
    if ExistsIn(s, 2000) {
      OrdinaryOrLeap(s, reference);
    } else {
      NeverInferred(s, reference);
    }
  }

  lemma SometimeMeansInLeapYear(s: Stamp)
    ensures ExistsSometime(s) <==> ExistsIn(s, 2000)
  {
    if y :| 1 <= y <= 9999 && ExistsIn(s, y) {
      ExistenceByYear(s, y, 2000);
    }
  }

  lemma NeverInferred(s: Stamp, reference: DateTime)
    requires !ExistsIn(s, 2000)
    ensures LatestPlausible(s, reference)
  {
    SometimeMeansInLeapYear(s);
    SearchFindsNearest(s, reference.year, 1);
    hide ExistsIn;
    forall y
      ensures !ExistsIn(s, y)
    {
      if ExistsIn(s, y) {
        ExistenceByYear(s, y, 2000);
      }
    }
  }

  lemma OrdinaryOrLeap(s: Stamp, reference: DateTime)
    requires 1 <= reference.year <= 9999 && 1 <= reference.month <= 12 && ExistsIn(s, 2000)
    ensures LatestPlausible(s, reference) <==>
              || reference.year >= 1004
              || (!IsLeapDay(s) && reference.year >= 1000
                  && (reference.year == 1000 ==> s.month.value <= reference.month + 1))
  {
    SometimeMeansInLeapYear(s);
    if IsLeapDay(s) && !IsLeap(reference.year) && reference.year >= 1004 {
      LeapDaySearch(s, reference);
    } else if IsLeapDay(s) && reference.year < 1004 {
      EarlyLeapDay(s, reference);
    } else {
      OrdinaryDay(s, reference);
    }
  }

  lemma EarlyLeapDay(s: Stamp, reference: DateTime)
    requires 1 <= reference.year < 1004 && 1 <= reference.month <= 12 && ExistsIn(s, 2000) && IsLeapDay(s)
    ensures InferTimestamp(s, reference).None?
  {
    assert !IsLeap(1000) && !IsLeap(1001) && !IsLeap(1002) && !IsLeap(1003);
    hide IsLeap;
    forall y | y <= reference.year
      ensures BuildDt(s, y).None?
    {
      ExistenceByYear(s, 2000, y);
      assert y < 1000 || y == 1000 || y == 1001 || y == 1002 || y == 1003;
    }
    hide BuildDt;
    SearchFindsNearest(s, reference.year, 1);
  }

  /** A date that exists in the reference year: the roll back never lands on an invalid date. */
  lemma OrdinaryDay(s: Stamp, reference: DateTime)
    requires 1 <= reference.year <= 9999 && 1 <= reference.month <= 12 && ExistsIn(s, 2000)
    requires !IsLeapDay(s) || (IsLeap(reference.year) && reference.year >= 1004)
    ensures LatestPlausible(s, reference) <==>
              reference.year >= 1000 && (reference.year == 1000 ==> s.month.value <= reference.month + 1)
  {
    hide IsLeap;
    SometimeMeansInLeapYear(s);
    ExistenceByYear(s, 2000, reference.year);
    ExistenceByYear(s, 2000, reference.year - 1);
    if reference.year < 1000 {
      SearchFindsNearest(s, reference.year, 1);
    } else if reference.year == 1000 && s.month.value > reference.month + 1 {
      ExistenceByYear(s, 2000, 999);
      assert InferTimestamp(s, reference) == BuildDt(s, 1000);
    }
  }

  // ---------------------------------------------------------------------------
  // The same line read at two instants
  // ---------------------------------------------------------------------------

  /** The latest year that a line may be from: that of the reference, or the one before when the
      month lies more than one ahead. */
  function Horizon(s: Stamp, reference: DateTime): int
    requires s.month.Some?
  {
    if s.month.value > reference.month + 1 then reference.year - 1 else reference.year
  }

  predicate ValidReference(r: DateTime) {
    1004 <= r.year <= 9999 && 1 <= r.month <= 12
  }

  lemma PlausibleUpToHorizon(s: Stamp, reference: DateTime, year: int)
    requires s.month.Some? && 1 <= year
    ensures Plausible(s, reference, year) <==> year <= Horizon(s, reference) && ExistsIn(s, year)
  {
    hide ExistsIn;
  }

  /** The inferred year is the latest up to the horizon in which the date exists. */
  lemma InferredIsLatestUpToHorizon(s: Stamp, reference: DateTime)
    requires ValidReference(reference) && ExistsIn(s, 2000)
    ensures InferTimestamp(s, reference).Some?
    ensures var y := InferTimestamp(s, reference).value.year;
            && InferTimestamp(s, reference).value == At(s, y) && 1 <= y <= Horizon(s, reference) && ExistsIn(s, y)
            && forall z | y < z <= Horizon(s, reference) :: !ExistsIn(s, z)
  {
    assert s.month.Some?;
    hide ExistsIn, InferTimestamp;
    InferenceIsLatestPlausible(s, reference);
    SometimeMeansInLeapYear(s);
    var y := InferTimestamp(s, reference).value.year;
    forall z | y < z <= Horizon(s, reference)
      ensures !ExistsIn(s, z)
    {
      PlausibleUpToHorizon(s, reference, z);
    }
  }

  /** No year in which the date exists lies between the horizons of the two references. */
  ghost predicate NoYearBetween(s: Stamp, r1: DateTime, r2: DateTime)
    requires s.month.Some?
  {
    forall y | Horizon(s, r1) < y <= Horizon(s, r2) || Horizon(s, r2) < y <= Horizon(s, r1) :: !ExistsIn(s, y)
  }

  /** Exactly when two references give a line the same year, and that a later horizon never gives it
      an earlier one. */
  lemma SameYearIff(s: Stamp, r1: DateTime, r2: DateTime)
    requires ValidReference(r1) && ValidReference(r2) && ExistsIn(s, 2000)
    ensures InferTimestamp(s, r1).Some? && InferTimestamp(s, r2).Some?
    ensures InferTimestamp(s, r1) == InferTimestamp(s, r2) <==> NoYearBetween(s, r1, r2)
    ensures Horizon(s, r1) <= Horizon(s, r2) ==>
              InferTimestamp(s, r1).value.year <= InferTimestamp(s, r2).value.year
  {
    hide ExistsIn, InferTimestamp, Horizon;
    InferredIsLatestUpToHorizon(s, r1);
    InferredIsLatestUpToHorizon(s, r2);
  }

  /** So any date but 29 February changes its year exactly with the horizon. */
  lemma OrdinaryYearFollowsHorizon(s: Stamp, r1: DateTime, r2: DateTime)
    requires ValidReference(r1) && ValidReference(r2) && ExistsIn(s, 2000) && !IsLeapDay(s)
    ensures InferTimestamp(s, r1) == InferTimestamp(s, r2) <==> Horizon(s, r1) == Horizon(s, r2)
  {
    SameYearIff(s, r1, r2);
    ExistenceByYear(s, 2000, Horizon(s, r1));
    ExistenceByYear(s, 2000, Horizon(s, r2));
    hide ExistsIn, InferTimestamp, Horizon;
  }

  const NEW_YEARS_EVE := DateTime(2024, 12, 31, 23, 59, 59)
  const NEW_YEARS_DAY := DateTime(2025, 1, 1, 0, 0, 0)

  /** Across a turn of the year: a line of 3 February gets a different year from one second to the
      next, a line of 30 December does not. */
  lemma TurnOfTheYear()
    ensures var february := Stamp(Some(2), 3, 12, 0, 0);
            && InferTimestamp(february, NEW_YEARS_EVE) == Some(At(february, 2024))
            && InferTimestamp(february, NEW_YEARS_DAY) == Some(At(february, 2025))
    ensures var december := Stamp(Some(12), 30, 12, 0, 0);
            && InferTimestamp(december, NEW_YEARS_EVE) == Some(At(december, 2024))
            && InferTimestamp(december, NEW_YEARS_DAY) == Some(At(december, 2024))
  {
  }
}
