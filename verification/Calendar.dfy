/** Civil dates and recovery timestamps (parse_rfc3339, is_leap_year and days_from_civil in src/recovery.rs),
    against the calendar rules of RFC 3339, section 5.7 and Appendix C. */
module Calendar {
  import opened Wrappers
  import opened Values

  predicate IsLeapYear(year: int) {
    year % 4 == 0 && (year % 100 != 0 || year % 400 == 0)
  }

  function DaysInMonth(year: int, month: int): int {
    match month
    case 2 => if IsLeapYear(year) then 29 else 28
    case 4 => 30
    case 6 => 30
    case 9 => 30
    case 11 => 30
    case _ => 31
  }

  datatype Date = Date(year: int, month: int, day: int)

  predicate ValidDate(d: Date) {
    1 <= d.month <= 12 && 1 <= d.day <= DaysInMonth(d.year, d.month)
  }

  /** The calendar, one day at a time. */
  function NextDay(d: Date): (r: Date)
    requires ValidDate(d)
    ensures ValidDate(r)
  {
    if d.day < DaysInMonth(d.year, d.month) then d.(day := d.day + 1)
    else if d.month < 12 then Date(d.year, d.month + 1, 1)
    else Date(d.year + 1, 1, 1)
  }

  function PreviousDay(d: Date): (r: Date)
    requires ValidDate(d)
    ensures ValidDate(r)
  {
    if d.day > 1 then d.(day := d.day - 1)
    else if d.month > 1 then Date(d.year, d.month - 1, DaysInMonth(d.year, d.month - 1))
    else Date(d.year - 1, 12, 31)
  }

  const EPOCH := Date(1970, 1, 1)

  /** The date n days after 1970-01-01, or before it when n is negative, by counting. */
  function Counted(n: int): (d: Date)
    ensures ValidDate(d)
    decreases if n < 0 then -n else n
  {
    if n == 0 then EPOCH else if n > 0 then NextDay(Counted(n - 1)) else PreviousDay(Counted(n + 1))
  }

  // ------------------------------------------------------------------ days_from_civil

  /** Years that begin in March. */
  function MarchYear(year: int, month: int): int {
    year - if month <= 2 then 1 else 0
  }

  function Era(marchYear: int): int {
    TruncDiv(if marchYear >= 0 then marchYear else marchYear - 399, 400)
  }

  function DayOfYear(month: int, day: int): int {
    TruncDiv(153 * (month + if month > 2 then -3 else 9) + 2, 5) + day - 1
  }

  function DaysFromCivil(year: int, month: int, day: int): int {
    var y := MarchYear(year, month);
    var yearOfEra := y - Era(y) * 400;
    Era(y) * 146097 + (yearOfEra * 365 + TruncDiv(yearOfEra, 4) - TruncDiv(yearOfEra, 100) + DayOfYear(month, day)) - 719468
  }

  function DaysOf(d: Date): int {
    DaysFromCivil(d.year, d.month, d.day)
  }

  lemma EraIsFloor(y: int)
    ensures Era(y) == y / 400 && 0 <= y - Era(y) * 400 < 400
  {
  }

  /** The days before a year that begins in March, with one leap day for every fourth year but for three in
      four centuries. */
  function YearDays(y: int): int {
    365 * y + y / 4 - y / 100 + y / 400
  }

  lemma DaysByYear(year: int, month: int, day: int)
    requires 1 <= month <= 12 && 1 <= day
    ensures DaysFromCivil(year, month, day) == YearDays(MarchYear(year, month)) + DayOfYear(month, day) - 719468
  {
    var y := MarchYear(year, month);
    EraIsFloor(y);
    var e := Era(y);
    var r := y - e * 400;
    assert y / 4 == 100 * e + r / 4;
    assert y / 100 == 4 * e + r / 100;
  }

  lemma YearLength(y: int)
    ensures YearDays(y + 1) == YearDays(y) + if IsLeapYear(y + 1) then 366 else 365
  {
    Quotients(y, 4);
    Quotients(y, 100);
    Quotients(y, 400);
    assert (y + 1) % 400 == 0 ==> (y + 1) % 100 == 0;
    assert (y + 1) % 100 == 0 ==> (y + 1) % 4 == 0;
  }

  lemma Quotients(y: int, n: int)
    requires n == 4 || n == 100 || n == 400
    ensures (y + 1) / n == y / n + if (y + 1) % n == 0 then 1 else 0
  {
  }

  /** Within a year that begins in March, the first of a month follows the end of the month before. */
  lemma MonthEnds(year: int, month: int)
    requires 1 <= month <= 12 && month != 2
    ensures DayOfYear(if month == 12 then 1 else month + 1, 1) == DayOfYear(month, DaysInMonth(year, month)) + 1
    ensures MarchYear(if month == 12 then year + 1 else year, if month == 12 then 1 else month + 1) == MarchYear(year, month)
  {
  }

  lemma FebruaryEnds(year: int)
    ensures DayOfYear(2, DaysInMonth(year, 2)) + 1 == if IsLeapYear(year) then 366 else 365
    ensures DayOfYear(3, 1) == 0 && MarchYear(year, 3) == MarchYear(year, 2) + 1 == year
  {
  }

  /** The next day has the next number, across months, years, leap years and centuries. */
  lemma NextDayIsNext(d: Date)
    requires ValidDate(d)
    ensures DaysOf(NextDay(d)) == DaysOf(d) + 1
  {
    var n := NextDay(d);
    DaysByYear(d.year, d.month, d.day);
    DaysByYear(n.year, n.month, n.day);
    NextByYear(d);
  }

  lemma NextByYear(d: Date)
    requires ValidDate(d)
    ensures var n := NextDay(d);
            YearDays(MarchYear(n.year, n.month)) + DayOfYear(n.month, n.day) == YearDays(MarchYear(d.year, d.month)) + DayOfYear(d.month, d.day) + 1
  {
    if d.day == DaysInMonth(d.year, d.month) {
      if d.month == 2 {
        FebruaryEnds(d.year);
        YearLength(d.year - 1);
      } else {
        MonthEnds(d.year, d.month);
      }
    }
  }

  lemma EpochIsZero()
    ensures DaysOf(EPOCH) == 0
  {
  }

  lemma PreviousIsPrevious(d: Date)
    requires ValidDate(d)
    ensures NextDay(PreviousDay(d)) == d
  {
  }

  /** There is only one way to count days: from 0 on 1970-01-01, and one more for each next day. */
  lemma {:induction false} OnlyCount(count: Date -> int, n: int)
    requires count(EPOCH) == 0 && forall d {:trigger NextDay(d)} :: ValidDate(d) ==> count(NextDay(d)) == count(d) + 1
    ensures count(Counted(n)) == n
    decreases if n < 0 then -n else n
  {
    if n > 0 {
      OnlyCount(count, n - 1);
    } else if n < 0 {
      OnlyCount(count, n + 1);
      PreviousIsPrevious(Counted(n + 1));
    }
  }

  /** days_from_civil is the day-by-day count from 1970-01-01, in both directions. */
  lemma CountsDays(n: int)
    ensures DaysOf(Counted(n)) == n
  {
    EpochIsZero();
    forall d | ValidDate(d) ensures DaysOf(NextDay(d)) == DaysOf(d) + 1 {
      NextDayIsNext(d);
    }
    OnlyCount(DaysOf, n);
  }

  // ------------------------------------------------------------------------- order

  predicate Before(a: Date, b: Date) {
    a.year < b.year || (a.year == b.year && (a.month < b.month || (a.month == b.month && a.day < b.day)))
  }

  function MonthsBetween(a: Date, b: Date): int {
    (b.year - a.year) * 12 + b.month - a.month
  }

  lemma FirstOfNextMonth(d: Date)
    requires ValidDate(d)
    ensures var n := if d.month < 12 then Date(d.year, d.month + 1, 1) else Date(d.year + 1, 1, 1);
            ValidDate(n) && DaysOf(d) < DaysOf(n) && DaysOf(d) - d.day + 1 + DaysInMonth(d.year, d.month) == DaysOf(n)
  {
    var end := d.(day := DaysInMonth(d.year, d.month));
    NextDayIsNext(end);
    DaysByYear(d.year, d.month, d.day);
    DaysByYear(d.year, d.month, end.day);
  }

  /** Later dates have larger numbers. */
  lemma {:induction false} StrictlyIncreasing(a: Date, b: Date)
    requires ValidDate(a) && ValidDate(b) && Before(a, b)
    ensures DaysOf(a) < DaysOf(b)
    decreases MonthsBetween(a, b)
  {
    if a.year == b.year && a.month == b.month {
      DaysByYear(a.year, a.month, a.day);
      DaysByYear(b.year, b.month, b.day);
    } else {
      FirstOfNextMonth(a);
      var n := if a.month < 12 then Date(a.year, a.month + 1, 1) else Date(a.year + 1, 1, 1);
      if n != b {
        StrictlyIncreasing(n, b);
      }
    }
  }

  lemma DatesDiffer(a: Date, b: Date)
    requires ValidDate(a) && ValidDate(b)
    ensures DaysOf(a) == DaysOf(b) <==> a == b
  {
    if a != b {
      if Before(a, b) {
        StrictlyIncreasing(a, b);
      } else {
        StrictlyIncreasing(b, a);
      }
    }
  }

  // ---------------------------------------------------------------------- machine width

  predicate FitsI32(i: int) {
    -0x8000_0000 <= i < 0x8000_0000
  }

  /** Every operation of days_from_civil, in the order of the source, stays within 32 bits. */
  predicate StepsFit(d: Date) {
    var y, m := MarchYear(d.year, d.month), d.month + if d.month > 2 then -3 else 9;
    var e := Era(y);
    var r := y - e * 400;
    var doe := r * 365 + TruncDiv(r, 4) - TruncDiv(r, 100) + DayOfYear(d.month, d.day);
    && FitsI32(y) && (y < 0 ==> FitsI32(y - 399)) && FitsI32(e) && FitsI32(e * 400) && FitsI32(r)
    && FitsI32(m) && FitsI32(153 * m) && FitsI32(153 * m + 2) && FitsI32(TruncDiv(153 * m + 2, 5))
    && FitsI32(TruncDiv(153 * m + 2, 5) + d.day) && FitsI32(DayOfYear(d.month, d.day))
    && FitsI32(r * 365) && FitsI32(TruncDiv(r, 4)) && FitsI32(r * 365 + TruncDiv(r, 4)) && FitsI32(TruncDiv(r, 100))
    && FitsI32(r * 365 + TruncDiv(r, 4) - TruncDiv(r, 100)) && FitsI32(doe)
    && FitsI32(e * 146097) && FitsI32(e * 146097 + doe) && FitsI32(e * 146097 + doe - 719468)
  }

  /** The last sum and the result decide. */
  lemma LastStepsDecide(d: Date)
    requires ValidDate(d)
    ensures StepsFit(d) <==> FitsI32(DaysOf(d) + 719468) && FitsI32(DaysOf(d))
  {
    var y := MarchYear(d.year, d.month);
    EraIsFloor(y);
    DaysByYear(d.year, d.month, d.day);
  }

  const FIRST_YEAR := -587_7640

  const LAST_YEAR := 587_9609

  lemma YearEnds(year: int, d: Date)
    requires ValidDate(d) && d.year == year
    ensures DaysOf(Date(year, 1, 1)) <= DaysOf(d) <= DaysOf(Date(year, 12, 31))
  {
    var first, last := Date(year, 1, 1), Date(year, 12, 31);
    if d != first {
      StrictlyIncreasing(first, d);
    }
    if d != last {
      StrictlyIncreasing(d, last);
    }
  }

  /** No operation overflows on any date of a year if and only if the year is within these bounds; the four-digit
      years of RFC 3339, section 5.6, are, but the parser takes any year of 32 bits. */
  lemma NeverOverflows(year: int)
    ensures (forall d :: ValidDate(d) && d.year == year ==> StepsFit(d)) <==> FIRST_YEAR <= year <= LAST_YEAR
  {
    var first, last := Date(year, 1, 1), Date(year, 12, 31);
    YearDaysBound(year);
    if FIRST_YEAR <= year <= LAST_YEAR {
      forall d | ValidDate(d) && d.year == year ensures StepsFit(d) {
        YearEnds(year, d);
        LastStepsDecide(d);
      }
    } else {
      LastStepsDecide(first);
      LastStepsDecide(last);
    }
  }

  lemma QuotientIs(y: int, n: int, q: int)
    requires (n == 4 || n == 100 || n == 400) && n * q <= y < n * q + n
    ensures y / n == q
  {
  }

  lemma YearDaysAre(y: int, fourths: int, centuries: int, eras: int)
    requires 4 * fourths <= y < 4 * fourths + 4 && 100 * centuries <= y < 100 * centuries + 100 && 400 * eras <= y < 400 * eras + 400
    ensures YearDays(y) == 365 * y + fourths - centuries + eras
  {
    QuotientIs(y, 4, fourths);
    QuotientIs(y, 100, centuries);
    QuotientIs(y, 400, eras);
  }

  lemma NewYear(year: int, fourths: int, centuries: int, eras: int)
    requires 4 * fourths < year <= 4 * fourths + 4 && 100 * centuries < year <= 100 * centuries + 100 && 400 * eras < year <= 400 * eras + 400
    ensures DaysOf(Date(year, 1, 1)) == 365 * (year - 1) + fourths - centuries + eras + 306 - 719468
  {
    YearDaysAre(year - 1, fourths, centuries, eras);
    DaysByYear(year, 1, 1);
    assert MarchYear(year, 1) == year - 1 && DayOfYear(1, 1) == 306;
  }

  lemma YearsEnd(year: int, fourths: int, centuries: int, eras: int)
    requires 4 * fourths <= year < 4 * fourths + 4 && 100 * centuries <= year < 100 * centuries + 100 && 400 * eras <= year < 400 * eras + 400
    ensures DaysOf(Date(year, 12, 31)) == 365 * year + fourths - centuries + eras + 305 - 719468
  {
    YearDaysAre(year, fourths, centuries, eras);
    DaysByYear(year, 12, 31);
    assert MarchYear(year, 12) == year && DayOfYear(12, 31) == 305;
  }

  lemma FirstBoundary(year: int)
    requires year == FIRST_YEAR
    ensures DaysOf(Date(year - 1, 1, 1)) < -0x8000_0000 <= DaysOf(Date(year, 1, 1))
  {
    NewYear(year, -1469411, -58777, -14695);
    NewYear(year - 1, -1469411, -58777, -14695);
  }

  lemma LastBoundary(year: int)
    requires year == LAST_YEAR
    ensures DaysOf(Date(year, 12, 31)) + 719468 < 0x8000_0000 <= DaysOf(Date(year + 1, 12, 31)) + 719468
  {
    YearsEnd(year, 1469902, 58796, 14699);
    YearsEnd(year + 1, 1469902, 58796, 14699);
  }

  lemma YearDaysBound(year: int)
    ensures FIRST_YEAR <= year <==> -0x8000_0000 <= DaysOf(Date(year, 1, 1))
    ensures year <= LAST_YEAR <==> DaysOf(Date(year, 12, 31)) + 719468 < 0x8000_0000
  {
    FirstBoundary(FIRST_YEAR);
    LastBoundary(LAST_YEAR);
    FirstDays(year, FIRST_YEAR);
    LastDays(year, LAST_YEAR);
  }

  lemma FirstDays(year: int, first: int)
    ensures first <= year ==> DaysOf(Date(first, 1, 1)) <= DaysOf(Date(year, 1, 1))
    ensures year < first ==> DaysOf(Date(year, 1, 1)) <= DaysOf(Date(first - 1, 1, 1))
  {
    if first <= year {
      YearsApart(first, year, 1, 1);
    } else {
      YearsApart(year, first - 1, 1, 1);
    }
  }

  lemma LastDays(year: int, last: int)
    ensures year <= last ==> DaysOf(Date(year, 12, 31)) <= DaysOf(Date(last, 12, 31))
    ensures last < year ==> DaysOf(Date(last + 1, 12, 31)) <= DaysOf(Date(year, 12, 31))
  {
    if year <= last {
      YearsApart(year, last, 12, 31);
    } else {
      YearsApart(last + 1, year, 12, 31);
    }
  }

  /** The same day of a later year has a greater number. */
  lemma YearsApart(a: int, b: int, month: int, day: int)
    requires a <= b && ValidDate(Date(a, month, day)) && ValidDate(Date(b, month, day))
    ensures DaysOf(Date(a, month, day)) <= DaysOf(Date(b, month, day))
  {
    if a < b {
      StrictlyIncreasing(Date(a, month, day), Date(b, month, day));
    }
  }

  // ----------------------------------------------------------------------- timestamps

  /** Local date and time of day with an offset from UTC, in seconds. */
  datatype Timestamp = Timestamp(date: Date, second: int, offset: int)

  predicate ValidTimestamp(t: Timestamp) {
    ValidDate(t.date) && 0 <= t.second < 86400 && -86400 < t.offset < 86400
  }

  function UnixSeconds(t: Timestamp): int {
    DaysOf(t.date) * 86400 + t.second - t.offset
  }

  /** The same instant in UTC: the offset carries into the day before or after. */
  function InUtc(t: Timestamp): (r: Timestamp)
    requires ValidTimestamp(t)
    ensures ValidTimestamp(r) && r.offset == 0
  {
    var s := t.second - t.offset;
    if s < 0 then Timestamp(PreviousDay(t.date), s + 86400, 0)
    else if s >= 86400 then Timestamp(NextDay(t.date), s - 86400, 0)
    else Timestamp(t.date, s, 0)
  }

  /** Two timestamps have the same Unix time exactly when they are the same instant in UTC. */
  lemma EqualInstants(a: Timestamp, b: Timestamp)
    requires ValidTimestamp(a) && ValidTimestamp(b)
    ensures UnixSeconds(a) == UnixSeconds(b) <==> InUtc(a) == InUtc(b)
  {
    UtcKeepsInstant(a);
    UtcKeepsInstant(b);
    var x, y := InUtc(a), InUtc(b);
    DatesDiffer(x.date, y.date);
  }

  lemma UtcKeepsInstant(t: Timestamp)
    requires ValidTimestamp(t)
    ensures UnixSeconds(InUtc(t)) == UnixSeconds(t)
  {
    var s := t.second - t.offset;
    if s < 0 {
      PreviousIsPrevious(t.date);
      NextDayIsNext(PreviousDay(t.date));
    } else if s >= 86400 {
      NextDayIsNext(t.date);
    }
  }

  /** The numeric part of parse_rfc3339: dates that a calendar does not have, clock fields that are too large, and
      instants before 1970 are errors; the rest, negative clock fields included, become milliseconds since the
      epoch. */
  function RecoveryMillis(year: int, month: int, day: int, hour: int, minute: int, second: int, millis: int, offset: int): Result<int> {
    if !(1 <= month <= 12) || !(1 <= day <= DaysInMonth(year, month)) || hour > 23 || minute > 59 || second > 59 then Err
    else
      var unix := DaysFromCivil(year, month, day) * 86400 + hour * 3600 + minute * 60 + second - offset;
      if unix < 0 then Err else Ok(unix * 1000 + millis)
  }

  /** Timestamps of clock times are accepted exactly from the epoch on, and equal instants give equal times. */
  lemma RecoveryTimeIsInstant(date: Date, hour: int, minute: int, second: int, millis: int, offset: int)
    requires ValidDate(date) && 0 <= hour <= 23 && 0 <= minute <= 59 && 0 <= second <= 59 && -86400 < offset < 86400
    ensures var t := Timestamp(date, hour * 3600 + minute * 60 + second, offset);
            var r := RecoveryMillis(date.year, date.month, date.day, hour, minute, second, millis, offset);
            && ValidTimestamp(t)
            && (r.Ok? <==> !Before(InUtc(t).date, EPOCH))
            && (r.Ok? ==> r.value == (DaysOf(InUtc(t).date) * 86400 + InUtc(t).second) * 1000 + millis)
  {
    var t := Timestamp(date, hour * 3600 + minute * 60 + second, offset);
    UtcKeepsInstant(t);
    var utc := InUtc(t).date;
    EpochIsZero();
    if Before(utc, EPOCH) {
      StrictlyIncreasing(utc, EPOCH);
    } else if utc != EPOCH {
      StrictlyIncreasing(EPOCH, utc);
    }
  }

  /** A negative hour is accepted, and counts back into the day before: T-5:00:00Z is 19:00 on that day. */
  lemma NegativeHourIsDayBefore(date: Date, hour: int, minute: int, second: int, millis: int, offset: int)
    requires ValidDate(date) && -24 <= hour < 0 && minute <= 59 && second <= 59
    ensures var before := PreviousDay(date);
            RecoveryMillis(date.year, date.month, date.day, hour, minute, second, millis, offset)
            == RecoveryMillis(before.year, before.month, before.day, hour + 24, minute, second, millis, offset)
  {
    PreviousIsPrevious(date);
    NextDayIsNext(PreviousDay(date));
  }
}
