/** The same authentication log read live and read by the batch engine: a live session dates each
    line by the clock at the moment it is parsed, the engine dates all of them by one reference. */
module YearlessLines {
  import opened Models
  import opened Sequences
  import opened SyslogYear
  import opened WatchReading
  import opened AnalysisModel

  // ---------------------------------------------------------------------------
  // Instants
  // ---------------------------------------------------------------------------

  function DaysBeforeYear(year: int): int {
    365 * (year - 1) + (year - 1) / 4 - (year - 1) / 100 + (year - 1) / 400
  }

  function DaysBeforeMonth(month: int, year: int): int
    requires 1 <= month <= 12
    decreases month
  {
    if month == 1 then 0 else DaysBeforeMonth(month - 1, year) + DaysIn(month - 1, year)
  }

  /** The instant of a UTC date and time of day, counted from the start of year 1. */
  function InstantOf(dt: DateTime): Instant
    requires 1 <= dt.month <= 12
  {
    var days := DaysBeforeYear(dt.year) + DaysBeforeMonth(dt.month, dt.year) + dt.day - 1;
    Seconds(86400 * days + 3600 * dt.hour + 60 * dt.minute + dt.second)
  }

  lemma {:induction false} YearsHaveDays(y: int, z: int)
    requires y <= z
    ensures DaysBeforeYear(z) - DaysBeforeYear(y) >= 365 * (z - y)
    decreases z - y
  {
    if y < z {
      YearsHaveDays(y, z - 1);
      OneYearHasDays(z - 1);
    }
  }

  lemma OneYearHasDays(y: int)
    ensures DaysBeforeYear(y + 1) - DaysBeforeYear(y) >= 365
  {
    YearLength(y);
  }

  lemma {:induction false} MonthsDifferByADay(month: int, y: int, z: int)
    requires 1 <= month <= 12
    ensures -1 <= DaysBeforeMonth(month, y) - DaysBeforeMonth(month, z) <= 1
    ensures month <= 2 ==> DaysBeforeMonth(month, y) == DaysBeforeMonth(month, z)
    decreases month
  {
    if month > 1 {
      hide IsLeap;
      MonthsDifferByADay(month - 1, y, z);
      if month > 3 {
        SameMonthsAfterFebruary(month, y, z);
      }
    }
  }

  lemma {:induction false} SameMonthsAfterFebruary(month: int, y: int, z: int)
    requires 3 <= month <= 12
    ensures DaysBeforeMonth(month, y) - DaysBeforeMonth(month, z) == DaysIn(2, y) - DaysIn(2, z)
    decreases month
  {
    hide IsLeap;
    if month > 3 {
      SameMonthsAfterFebruary(month - 1, y, z);
    } else {
      assert DaysBeforeMonth(2, y) == DaysBeforeMonth(1, y) + 31 && DaysBeforeMonth(2, z) == DaysBeforeMonth(1, z) + 31;
    }
  }

  /** The same date and time of another year is another instant. */
  lemma YearShowsInInstant(s: Stamp, y: int, z: int)
    requires s.month.Some? && 1 <= s.month.value <= 12
    ensures y < z ==> InstantOf(At(s, y)) < InstantOf(At(s, z))
    ensures InstantOf(At(s, y)) == InstantOf(At(s, z)) <==> y == z
  {
    hide DaysBeforeYear, DaysBeforeMonth;
    MonthsDifferByADay(s.month.value, y, z);
    if y <= z {
      YearsHaveDays(y, z);
    } else {
      YearsHaveDays(z, y);
    }
  }

  // The clock --------------------------------------------------------------------

  predicate IsDateTime(dt: DateTime) {
    && 1 <= dt.month <= 12 && 1 <= dt.day <= DaysIn(dt.month, dt.year)
    && 0 <= dt.hour < 24 && 0 <= dt.minute < 60 && 0 <= dt.second < 60
  }

  function NextDay(dt: DateTime): DateTime
    requires IsDateTime(dt)
  {
    if dt.day < DaysIn(dt.month, dt.year) then DateTime(dt.year, dt.month, dt.day + 1, 0, 0, 0)
    else if dt.month < 12 then DateTime(dt.year, dt.month + 1, 1, 0, 0, 0)
    else DateTime(dt.year + 1, 1, 1, 0, 0, 0)
  }

  function NextSecond(dt: DateTime): DateTime
    requires IsDateTime(dt)
  {
    if dt.second < 59 then dt.(second := dt.second + 1)
    else if dt.minute < 59 then dt.(minute := dt.minute + 1, second := 0)
    else if dt.hour < 23 then dt.(hour := dt.hour + 1, minute := 0, second := 0)
    else NextDay(dt)
  }

  lemma QuotientsStep(y: int)
    ensures y / 4 - (y - 1) / 4 == if y % 4 == 0 then 1 else 0
    ensures y / 100 - (y - 1) / 100 == if y % 100 == 0 then 1 else 0
    ensures y / 400 - (y - 1) / 400 == if y % 400 == 0 then 1 else 0
  {
  }

  lemma YearSpan(y: int)
    ensures DaysBeforeYear(y + 1) - DaysBeforeYear(y)
         == 365 + (y / 4 - (y - 1) / 4) - (y / 100 - (y - 1) / 100) + (y / 400 - (y - 1) / 400)
  {
  }

  lemma YearLength(y: int)
    ensures DaysBeforeYear(y + 1) == DaysBeforeYear(y) + if IsLeap(y) then 366 else 365
  {
    hide DaysBeforeYear;
    YearSpan(y);
    LeapDay(y);
  }

  lemma LeapDay(y: int)
    ensures (y / 4 - (y - 1) / 4) - (y / 100 - (y - 1) / 100) + (y / 400 - (y - 1) / 400) == if IsLeap(y) then 1 else 0
  {
    QuotientsStep(y);
    MultiplesNest(y);
  }

  lemma MonthLengths(y: int)
    ensures DaysBeforeMonth(12, y) + 31 == if IsLeap(y) then 366 else 365
  {
    hide IsLeap;
    assert DaysBeforeMonth(4, y) == 90 + (if IsLeap(y) then 1 else 0) by {
      assert DaysBeforeMonth(2, y) == DaysBeforeMonth(1, y) + 31;
      assert DaysBeforeMonth(3, y) == DaysBeforeMonth(2, y) + DaysIn(2, y);
    }
    assert DaysBeforeMonth(8, y) == DaysBeforeMonth(4, y) + 122 by {
      assert DaysBeforeMonth(5, y) == DaysBeforeMonth(4, y) + 30;
      assert DaysBeforeMonth(6, y) == DaysBeforeMonth(5, y) + 31;
      assert DaysBeforeMonth(7, y) == DaysBeforeMonth(6, y) + 30;
    }
    assert DaysBeforeMonth(9, y) == DaysBeforeMonth(8, y) + 31;
    assert DaysBeforeMonth(10, y) == DaysBeforeMonth(9, y) + 30;
    assert DaysBeforeMonth(11, y) == DaysBeforeMonth(10, y) + 31;
  }

  lemma DayFollowsDay(dt: DateTime)
    requires IsDateTime(dt)
    ensures var next := NextDay(dt);
            && IsDateTime(next)
            && DaysBeforeYear(next.year) + DaysBeforeMonth(next.month, next.year) + next.day
               == DaysBeforeYear(dt.year) + DaysBeforeMonth(dt.month, dt.year) + dt.day + 1
  {
    hide IsLeap, DaysBeforeYear;
    if dt.day == DaysIn(dt.month, dt.year) && dt.month == 12 {
      YearLength(dt.year);
      MonthLengths(dt.year);
    }
  }

  function DayNumber(dt: DateTime): int
    requires 1 <= dt.month <= 12
  {
    DaysBeforeYear(dt.year) + DaysBeforeMonth(dt.month, dt.year) + dt.day - 1
  }

  lemma SecondFollowsSecond(dt: DateTime)
    requires IsDateTime(dt) && IsDateTime(NextDay(dt)) && DayNumber(NextDay(dt)) == DayNumber(dt) + 1
    ensures var next := NextSecond(dt);
            && IsDateTime(next)
            && 86400 * DayNumber(next) + 3600 * next.hour + 60 * next.minute + next.second
               == 86400 * DayNumber(dt) + 3600 * dt.hour + 60 * dt.minute + dt.second + 1
  {
    hide DaysIn, DaysBeforeYear, DaysBeforeMonth;
  }

  /** The instants are those of a clock: they start with year 1, and each second of the calendar is
      a million microseconds after the one before, across minutes, hours, days, months and years. */
  lemma ClockTicks(dt: DateTime)
    requires IsDateTime(dt)
    ensures InstantOf(DateTime(1, 1, 1, 0, 0, 0)) == 0
    ensures IsDateTime(NextSecond(dt)) && InstantOf(NextSecond(dt)) == InstantOf(dt) + 1_000_000
  {
    DayFollowsDay(dt);
    hide DaysIn, NextDay, NextSecond, IsLeap;
    SecondFollowsSecond(dt);
    assert DaysBeforeYear(1) == 0 && DaysBeforeMonth(1, 1) == 0;
    hide DaysBeforeYear, DaysBeforeMonth;
  }

  // ---------------------------------------------------------------------------
  // Reading one line
  // ---------------------------------------------------------------------------

  type Reference = r: DateTime | ValidReference(r) witness DateTime(2000, 1, 1, 0, 0, 0)

  /** What the syslog parser finds in a line, apart from its year: the stamp, if the line has the
      format, and everything of the event but where and when; and the calendar of an instant. */
  datatype Syslog = Syslog(
    stampOf: string -> Option<Stamp>,
    eventOf: string -> LogEvent,
    calendar: Instant -> Reference)

  /** `SyslogAuthParser.parse_line`. */
  function ReadLine(g: Syslog, now: Instant, file: string, no: nat, text: string): ParseOutcome {
    var stamp := g.stampOf(text);
    if stamp.None? then Unparsed(ParseFailure(file, no))
    else
      var dt := InferTimestamp(stamp.value, g.calendar(now));
      if dt.None? then Unparsed(ParseFailure(file, no))
      else Parsed(g.eventOf(text).(source := Auth, file := file, lineNo := no, timestamp := InstantOf(dt.value)))
  }

  /** The line is dated alike at both instants: it has no date to infer, or none that exists, or no
      year in which it exists lies between the two horizons. */
  ghost predicate DatedAlike(g: Syslog, now: Instant, later: Instant, text: string) {
    var stamp := g.stampOf(text);
    stamp.None? || !ExistsIn(stamp.value, 2000)
    || NoYearBetween(stamp.value, g.calendar(now), g.calendar(later))
  }

  /** The latest year up to the horizon in which the date exists. */
  ghost predicate DatesLine(s: Stamp, reference: DateTime, year: int) {
    ExistsIn(s, year) && 1 <= year <= Horizon(s, reference)
    && forall z | year < z <= Horizon(s, reference) :: !ExistsIn(s, z)
  }

  /** The event of a line, with its place and this year's instant. */
  function Dated(g: Syslog, file: string, no: nat, text: string, year: int): LogEvent
    requires g.stampOf(text).Some? && var month := g.stampOf(text).value.month; month.Some? && 1 <= month.value <= 12
  {
    var timestamp := InstantOf(At(g.stampOf(text).value, year));
    g.eventOf(text).(source := Auth, file := file, lineNo := no, timestamp := timestamp)
  }

  /** Exactly what becomes of a line: it fails iff it has not the format or a date of no year;
      otherwise its event is as found, dated in the latest year that the line may be from. */
  lemma LineIsDated(g: Syslog, now: Instant, file: string, no: nat, text: string)
    ensures var stamp, outcome := g.stampOf(text), ReadLine(g, now, file, no, text);
            && (outcome.Unparsed? <==> stamp == None || !ExistsIn(stamp.value, 2000))
            && (outcome.Unparsed? ==> outcome == Unparsed(ParseFailure(file, no)))
            && (outcome.Parsed? ==>
                  exists year :: DatesLine(stamp.value, g.calendar(now), year)
                                 && outcome.event == Dated(g, file, no, text, year))
  {
    hide InferTimestamp, InstantOf, Horizon;
    var stamp := g.stampOf(text);
    if stamp.Some? {
      if ExistsIn(stamp.value, 2000) {
        InferredIsLatestUpToHorizon(stamp.value, g.calendar(now));
        assert DatesLine(stamp.value, g.calendar(now), InferTimestamp(stamp.value, g.calendar(now)).value.year);
      } else {
        UndatedLine(stamp.value, g.calendar(now));
      }
    }
  }

  /** Whether a line yields an event does not depend on when it is read, and what it yields depends on
      it only through the horizons. */
  lemma ReadAlikeIff(g: Syslog, now: Instant, later: Instant, file: string, no: nat, text: string)
    ensures ReadLine(g, now, file, no, text).Parsed? <==> ReadLine(g, later, file, no, text).Parsed?
    ensures ReadLine(g, now, file, no, text).Unparsed? ==>
            ReadLine(g, now, file, no, text) == ReadLine(g, later, file, no, text)
    ensures ReadLine(g, now, file, no, text) == ReadLine(g, later, file, no, text) <==> DatedAlike(g, now, later, text)
  {
    var stamp := g.stampOf(text);
    if stamp.Some? {
      if ExistsIn(stamp.value, 2000) {
        DatedLine(stamp.value, g.calendar(now), g.calendar(later));
      } else {
        UndatedLine(stamp.value, g.calendar(now));
        UndatedLine(stamp.value, g.calendar(later));
      }
    }
  }

  lemma DatedLine(s: Stamp, now: Reference, later: Reference)
    requires ExistsIn(s, 2000)
    ensures var a, b := InferTimestamp(s, now), InferTimestamp(s, later);
            && a.Some? && b.Some? && a.value == At(s, a.value.year) && b.value == At(s, b.value.year)
            && (InstantOf(a.value) == InstantOf(b.value) <==> NoYearBetween(s, now, later))
  {
    InferredIsLatestUpToHorizon(s, now);
    InferredIsLatestUpToHorizon(s, later);
    SameYearIff(s, now, later);
    hide InferTimestamp, NoYearBetween, InstantOf;
    YearShowsInInstant(s, InferTimestamp(s, now).value.year, InferTimestamp(s, later).value.year);
  }

  lemma UndatedLine(s: Stamp, now: Reference)
    requires !ExistsIn(s, 2000)
    ensures InferTimestamp(s, now).None?
  {
    hide InferTimestamp;
    NeverInferred(s, now);
    SometimeMeansInLeapYear(s);
  }

  // ---------------------------------------------------------------------------
  // Reading a file
  // ---------------------------------------------------------------------------

  /** Both the live session and the engine read authentication logs this way. */
  ghost predicate ReadByBoth(g: Syslog, ps: Parsing, env: Environment) {
    forall now, file, no, text ::
      ps.parseLine(SyslogAuthParser, now, file, no, text) == ReadLine(g, now, file, no, text)
      && env.parseAuth(now, file, no, text) == ReadLine(g, now, file, no, text)
  }

  lemma LineOfBoth(g: Syslog, ps: Parsing, env: Environment, reference: Instant, file: string, no: nat, text: string)
    requires ReadByBoth(g, ps, env)
    ensures Outcome(ps, SyslogAuthParser, file, Numbered(no, text)) == ReadLine(g, ps.clock(file, no), file, no, text)
    ensures ParseLine(env, Some(reference), file, no, text) == ReadLine(g, reference, file, no, text)
  {
    hide InstantOf, InferTimestamp, ExistsIn;
    assert ps.parseLine(SyslogAuthParser, ps.clock(file, no), file, no, text)
        == ReadLine(g, ps.clock(file, no), file, no, text);
    assert env.parseAuth(reference, file, no, text) == ReadLine(g, reference, file, no, text);
  }

  /** Exactly when a live session and the engine read the same events from a file: when every line is
      dated alike by the clock at which the session parsed it and by the engine's reference. How many
      lines fail is the same in any case. */
  lemma {:induction false} WatchReadsAsTheEngineIff(
    g: Syslog, ps: Parsing, env: Environment, reference: Instant, file: string, lines: seq<string>)
    requires ReadByBoth(g, ps, env)
    ensures var live, batch := EventsOf(ps, SyslogAuthParser, file, Number(0, lines)),
                               ParsedEvents(env, Some(reference), file, lines);
            && |live| == |batch|
            && (live == batch <==>
                  forall i | 0 <= i < |lines| :: DatedAlike(g, ps.clock(file, i + 1), reference, lines[i]))
    ensures FailuresOf(ps, SyslogAuthParser, file, Number(0, lines))
         == |ParsedFailures(env, Some(reference), file, lines)|
  {
    hide ReadByBoth, Outcome, ParseLine, ReadLine, DatedAlike;
    if lines != [] {
      var n := |lines| - 1;
      var front, last := lines[..n], lines[n];
      assert Number(0, lines)[..n] == Number(0, front) && Number(0, lines)[n] == Numbered(n + 1, last);
      WatchReadsAsTheEngineIff(g, ps, env, reference, file, front);
      LineOfBoth(g, ps, env, reference, file, n + 1, last);
      ReadAlikeIff(g, ps.clock(file, n + 1), reference, file, n + 1, last);
      SameLast(EventsOf(ps, SyslogAuthParser, file, Number(0, front)),
               ParsedEvents(env, Some(reference), file, front),
               Outcome(ps, SyslogAuthParser, file, Numbered(n + 1, last)),
               ParseLine(env, Some(reference), file, n + 1, last));
      OneMoreAlike(g, ps, reference, file, lines);
    }
  }

  lemma SameLast(live: seq<LogEvent>, batch: seq<LogEvent>, a: ParseOutcome, b: ParseOutcome)
    requires |live| == |batch| && (a.Parsed? <==> b.Parsed?)
    requires a.Unparsed? ==> a == b
    ensures var live', batch' := (if a.Parsed? then live + [a.event] else live),
                                 (if b.Parsed? then batch + [b.event] else batch);
            live' == batch' <==> live == batch && a == b
  {
    if a.Parsed? && live + [a.event] == batch + [b.event] {
      assert live == (live + [a.event])[..|live|] && batch == (batch + [b.event])[..|live|];
      assert a.event == (live + [a.event])[|live|] && b.event == (batch + [b.event])[|live|];
    }
  }

  lemma OneMoreAlike(g: Syslog, ps: Parsing, reference: Instant, file: string, lines: seq<string>)
    requires lines != []
    ensures var n := |lines| - 1;
            (forall i | 0 <= i < |lines| :: DatedAlike(g, ps.clock(file, i + 1), reference, lines[i]))
            <==> (forall i | 0 <= i < n :: DatedAlike(g, ps.clock(file, i + 1), reference, lines[..n][i]))
                 && DatedAlike(g, ps.clock(file, n + 1), reference, lines[n])
  {
    hide DatedAlike;
    var n := |lines| - 1;
    assert forall i | 0 <= i < n :: lines[..n][i] == lines[i];
  }
}
