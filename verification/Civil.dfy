/**
 Calendar arithmetic of ECMA-262, section 21.4.1: days, years and months of the
 proleptic Gregorian calendar, and `Date.UTC` with its two-digit-year rule.
 Instants are whole seconds here; milliseconds appear only in `DateUTC`.
 */
module Civil {

  const SECONDS_PER_DAY := 86400

  /** A wall-clock reading, months and days counted from 1. */
  datatype DateTime = DateTime(year: int, month: int, day: int, hour: int, minute: int, second: int)

  datatype Date = Date(year: int, month: int, day: int)

  predicate IsLeap(y: int) {
    y % 4 == 0 && (y % 100 != 0 || y % 400 == 0)
  }

  function DaysInYear(y: int): int {
    if IsLeap(y) then 366 else 365
  }

  /** Day number, from the epoch, of January 1st of year y. */
  function DayFromYear(y: int): int {
    365 * (y - 1970) + (y - 1969) / 4 - (y - 1901) / 100 + (y - 1601) / 400
  }

  function DaysInMonth(y: int, m: int): int {
    if m == 2 then (if IsLeap(y) then 29 else 28)
    else if m == 4 || m == 6 || m == 9 || m == 11 then 30
    else 31
  }

  /** Days of year y before the first of month m. */
  function DaysBeforeMonth(y: int, m: int): int
    requires 1 <= m <= 13
  {
    if m == 1 then 0 else DaysBeforeMonth(y, m - 1) + DaysInMonth(y, m - 1)
  }

  predicate ValidDate(c: Date) {
    1 <= c.month <= 12 && 1 <= c.day <= DaysInMonth(c.year, c.month)
  }

  /** MakeDay: the month index m0 counts from 0 and may run over, the day may run over too. */
  function MakeDay(y: int, m0: int, d: int): int {
    var ym := y + m0 / 12;
    DayFromYear(ym) + DaysBeforeMonth(ym, m0 % 12 + 1) + d - 1
  }

  function DayOf(c: Date): int {
    MakeDay(c.year, c.month - 1, c.day)
  }

  /** The year whose span of days holds `day`, searched from y. */
  function YearSearch(day: int, y: int): (r: int)
    ensures DayFromYear(r) <= day < DayFromYear(r + 1)
    decreases if day < DayFromYear(y) then DayFromYear(y) - day else day - DayFromYear(y)
  {
    hide DayFromYear;
    YearsGrow(y);
    YearsGrow(y - 1);
    if day < DayFromYear(y) then
      if DayFromYear(y - 1) <= day then y - 1 else YearSearch(day, y - 1)
    else if DayFromYear(y + 1) <= day then YearSearch(day, y + 1)
    else y
  }

  lemma YearsGrow(y: int)
    ensures DayFromYear(y) < DayFromYear(y + 1)
  {
    YearLength(y);
  }

  lemma FloorStep(x: int, k: int)
    requires 1 < k
    ensures (x + 1) / k - x / k == if (x + 1) % k == 0 then 1 else 0
  {
    var q, r := x / k, x % k;
    assert x == k * q + r;
    if r == k - 1 {
      assert x + 1 == k * (q + 1);
      QuotientIs(x + 1, k, q + 1, 0);
    } else {
      QuotientIs(x + 1, k, q, r + 1);
    }
  }

  lemma QuotientIs(x: int, k: int, q: int, r: int)
    requires 0 < k && 0 <= r < k && x == k * q + r
    ensures x / k == q && x % k == r
  {
    var q', r' := x / k, x % k;
    assert k * (q - q') == r' - r;
    MultipleBound(k, q - q');
  }

  lemma MultipleBound(k: int, d: int)
    requires 0 < k
    ensures d >= 1 ==> k * d >= k
    ensures d <= -1 ==> k * d <= -k
  {
  }

  lemma YearLength(y: int)
    ensures DayFromYear(y + 1) == DayFromYear(y) + DaysInYear(y)
  {
    FloorStep(y - 1969, 4);
    FloorStep(y - 1901, 100);
    FloorStep(y - 1601, 400);
    assert (y - 1968) % 4 == 0 <==> y % 4 == 0;
    assert (y - 1900) % 100 == 0 <==> y % 100 == 0;
    assert (y - 1600) % 400 == 0 <==> y % 400 == 0;
  }

  lemma {:induction false} YearsIncrease(y: int, y': int)
    requires y < y'
    ensures DayFromYear(y) < DayFromYear(y')
    decreases y' - y
  {
    hide DayFromYear;
    YearsGrow(y);
    if y + 1 < y' {
      YearsIncrease(y + 1, y');
    }
  }

  /** The month of year y whose span of days holds day-of-year `doy`, searched from m. */
  function MonthSearch(y: int, doy: int, m: int): (r: int)
    requires 1 <= m <= 12 && DaysBeforeMonth(y, m) <= doy < DaysBeforeMonth(y, 13)
    ensures m <= r <= 12 && DaysBeforeMonth(y, r) <= doy < DaysBeforeMonth(y, r + 1)
    decreases 12 - m
  {
    if doy < DaysBeforeMonth(y, m + 1) then m else MonthSearch(y, doy, m + 1)
  }

  lemma {:induction false} MonthsIncrease(y: int, m: int, m': int)
    requires 1 <= m < m' <= 13
    ensures DaysBeforeMonth(y, m) + DaysInMonth(y, m) <= DaysBeforeMonth(y, m')
    decreases m' - m
  {
    if m + 1 < m' {
      MonthsIncrease(y, m, m' - 1);
    }
  }

  lemma MonthsFillYear(y: int)
    ensures DaysBeforeMonth(y, 13) == DaysInYear(y)
  {
    hide DaysBeforeMonth;
    FirstMonth(y);
    MonthSpan(y, 1); MonthSpan(y, 2); MonthSpan(y, 3); MonthSpan(y, 4);
    MonthSpan(y, 5); MonthSpan(y, 6); MonthSpan(y, 7); MonthSpan(y, 8);
    MonthSpan(y, 9); MonthSpan(y, 10); MonthSpan(y, 11); MonthSpan(y, 12);
  }

  /** The civil date of a day number. */
  function CivilFromDay(day: int): (c: Date)
    ensures ValidDate(c)
    ensures DayOf(c) == day
  {
    hide DayFromYear;
    hide DaysBeforeMonth;
    var y := YearSearch(day, 1970);
    YearLength(y);
    MonthsFillYear(y);
    FirstMonth(y);
    var doy := day - DayFromYear(y);
    var m := MonthSearch(y, doy, 1);
    MonthSpan(y, m);
    Date(y, m, doy - DaysBeforeMonth(y, m) + 1)
  }

  lemma FirstMonth(y: int)
    ensures DaysBeforeMonth(y, 1) == 0
  {
  }

  lemma MonthSpan(y: int, m: int)
    requires 1 <= m <= 12
    ensures DaysBeforeMonth(y, m + 1) == DaysBeforeMonth(y, m) + DaysInMonth(y, m)
  {
  }

  /** A valid date lies inside its own year and month. */
  lemma DayWithinYear(c: Date)
    requires ValidDate(c)
    ensures DayOf(c) == DayFromYear(c.year) + DaysBeforeMonth(c.year, c.month) + c.day - 1
    ensures DayFromYear(c.year) <= DayOf(c) < DayFromYear(c.year + 1)
  {
    hide DayFromYear;
    hide DaysBeforeMonth;
    YearLength(c.year);
    MonthsFillYear(c.year);
    FirstMonth(c.year);
    MonthSpan(c.year, c.month);
    if c.month < 12 {
      MonthsIncrease(c.year, c.month, 13);
    }
    if 1 < c.month {
      MonthsIncrease(c.year, 1, c.month);
    }
  }

  /** Two valid dates with the same day number are the same date. */
  lemma DayOfInjective(c: Date, c': Date)
    requires ValidDate(c) && ValidDate(c')
    requires DayOf(c) == DayOf(c')
    ensures c == c'
  {
    hide DayFromYear;
    hide DaysBeforeMonth;
    DayWithinYear(c);
    DayWithinYear(c');
    if c.year + 1 < c'.year {
      YearsIncrease(c.year + 1, c'.year);
    } else if c'.year + 1 < c.year {
      YearsIncrease(c'.year + 1, c.year);
    }
    assert c.year == c'.year;
    if c.month < c'.month {
      MonthsIncrease(c.year, c.month, c'.month);
    } else if c'.month < c.month {
      MonthsIncrease(c.year, c'.month, c.month);
    }
  }

  /** Splitting and rebuilding a day number are inverse, both ways round. */
  lemma CivilRoundTrip(c: Date, day: int)
    requires ValidDate(c)
    ensures CivilFromDay(DayOf(c)) == c
    ensures DayOf(CivilFromDay(day)) == day
  {
    DayOfInjective(CivilFromDay(DayOf(c)), c);
  }

  /** Days are counted from the first of January 1970. */
  lemma EpochIsDayZero(c: Date)
    requires c.year == 1970 && c.month == 1 && c.day == 1
    ensures DayOf(c) == 0
  {
    FirstMonth(c.year);
    hide DaysBeforeMonth;
  }

  /** The calendar's own rule for the day after a date, written without day numbers. */
  function NextDate(c: Date): Date {
    if c.day < DaysInMonth(c.year, c.month) then c.(day := c.day + 1)
    else if c.month < 12 then Date(c.year, c.month + 1, 1)
    else Date(c.year + 1, 1, 1)
  }

  /**
   Asking MakeDay for day d + 1 of a month, as the roll to the next wall day does,
   gives the calendar's successor across month ends, leap days and year ends.
   */
  lemma NextDayIsSuccessor(c: Date)
    requires ValidDate(c)
    ensures ValidDate(NextDate(c))
    ensures MakeDay(c.year, c.month - 1, c.day + 1) == DayOf(NextDate(c))
    ensures CivilFromDay(MakeDay(c.year, c.month - 1, c.day + 1)) == NextDate(c)
  {
    hide DayFromYear;
    hide DaysBeforeMonth;
    var n := NextDate(c);
    YearLength(c.year);
    MonthsFillYear(c.year);
    FirstMonth(c.year);
    FirstMonth(c.year + 1);
    MonthSpan(c.year, c.month);
    DayWithinYear(c);
    DayWithinYear(n);
    DayOfInjective(CivilFromDay(DayOf(n)), n);
  }

  /** The day, hour, minute and second that an epoch second falls in. */
  function Split(s: int): DateTime {
    var c := CivilFromDay(s / SECONDS_PER_DAY);
    var tod := s % SECONDS_PER_DAY;
    DateTime(c.year, c.month, c.day, tod / 3600, tod % 3600 / 60, tod % 60)
  }

  /** Formatting with a numeric year drops the era, so year 0 (1 BC) shows as 1. */
  function ShownYear(y: int): int {
    if y <= 0 then 1 - y else y
  }

  /** Date.UTC in milliseconds, with years 0 to 99 read as 1900 to 1999. */
  function DateUTC(y: int, m0: int, d: int, h: int, mi: int, s: int): int {
    var year := if 0 <= y <= 99 then 1900 + y else y;
    1000 * (SECONDS_PER_DAY * MakeDay(year, m0, d) + 3600 * h + 60 * mi + s)
  }

  /** Date.UTC applied to the parts that the formatter shows. */
  function RebuiltUTC(w: DateTime): int {
    DateUTC(ShownYear(w.year), w.month - 1, w.day, w.hour, w.minute, w.second)
  }

  lemma MakeDayNotBefore(y: int, m: int, d: int)
    requires 1 <= m <= 12 && 1 <= d
    ensures MakeDay(y, m - 1, d) >= DayFromYear(y)
  {
    hide DayFromYear;
    if 1 < m {
      MonthsIncrease(y, 1, m);
    }
  }

  /** The day that Date.UTC rebuilds from the shown year. */
  function RebuiltDay(c: Date): int {
    var shown := ShownYear(c.year);
    MakeDay(if 0 <= shown <= 99 then 1900 + shown else shown, c.month - 1, c.day)
  }

  lemma RebuiltDayExact(c: Date)
    requires ValidDate(c)
    ensures if c.year >= 100 then RebuiltDay(c) == DayOf(c) else RebuiltDay(c) > DayOf(c)
  {
    hide DayFromYear;
    hide DaysBeforeMonth;
    if c.year < 100 {
      var shown := ShownYear(c.year);
      var year := if 0 <= shown <= 99 then 1900 + shown else shown;
      DayWithinYear(c);
      MakeDayNotBefore(year, c.month, c.day);
      if 100 < year {
        YearsIncrease(100, year);
      }
      if c.year + 1 < 100 {
        YearsIncrease(c.year + 1, 100);
      }
    }
  }

  lemma TimeOfDay(tod: int)
    requires 0 <= tod < SECONDS_PER_DAY
    ensures 3600 * (tod / 3600) + 60 * (tod % 3600 / 60) + tod % 60 == tod
  {
    assert tod % 3600 % 60 == tod % 60;
  }

  /**
   Splitting a second into wall-clock parts and rebuilding it with Date.UTC gives the
   second back exactly from year 100 on: before that the two-digit-year rule
   and the dropped era both move it.
   */
  lemma DateUTCRoundTrip(s: int)
    ensures RebuiltUTC(Split(s)) == 1000 * s <==> Split(s).year >= 100
  {
    hide MakeDay;
    var c := CivilFromDay(s / SECONDS_PER_DAY);
    RebuiltDayExact(c);
    TimeOfDay(s % SECONDS_PER_DAY);
    assert RebuiltUTC(Split(s)) == 1000 * (SECONDS_PER_DAY * RebuiltDay(c) + s % SECONDS_PER_DAY);
  }
}
