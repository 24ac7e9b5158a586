/** The part of the JavaScript `Date` the views rely on, in the proleptic
    Gregorian calendar: day numbers counted from 1970-01-01 (day 0, a Thursday),
    month lengths, the weekday, moving forward by days (`setDate` with
    overflow) and by months (`setMonth`, whose day-of-month overflows into the
    following month). Time of day and time zones are not modelled: a date is
    the local calendar day. */
module CivilCalendar {

  datatype CivilDate = CivilDate(year: int, month: int, day: int)

  predicate IsLeap(y: int)
  {
    y % 4 == 0 && (y % 100 != 0 || y % 400 == 0)
  }

  function DaysInMonth(y: int, m: int): (n: int)
    requires 1 <= m <= 12
    ensures 28 <= n <= 31
    ensures n == 29 <==> m == 2 && IsLeap(y)
  {
    if m == 2 then (if IsLeap(y) then 29 else 28)
    else if m == 4 || m == 6 || m == 9 || m == 11 then 30
    else 31
  }

  /** A date that names a real calendar day. */
  predicate ValidDate(d: CivilDate)
  {
    1 <= d.month <= 12 && 1 <= d.day <= DaysInMonth(d.year, d.month)
  }

  function YearLength(y: int): int
  {
    if IsLeap(y) then 366 else 365
  }

  /** Days from 1 January of year y to the first of month m. */
  function MonthStart(y: int, m: int): int
    requires 1 <= m <= 12
  {
    [0, 31, 59, 90, 120, 151, 181, 212, 243, 273, 304, 334][m - 1]
      + (if m > 2 && IsLeap(y) then 1 else 0)
  }

  /** Leap years among the years 1 .. y (for y >= 0; floors for earlier years). */
  function LeapsThrough(y: int): int
  {
    y / 4 - y / 100 + y / 400
  }

  /** Days from 1970-01-01 to 1 January of year y. */
  function YearStart(y: int): int
  {
    365 * (y - 1970) + LeapsThrough(y - 1) - LeapsThrough(1969)
  }

  /** The day number of a date: what `Date` keeps, divided by 86400000. */
  function DayNumber(d: CivilDate): int
    requires 1 <= d.month <= 12
  {
    YearStart(d.year) + MonthStart(d.year, d.month) + d.day - 1
  }

  /** `getDay()`: 0 for Sunday .. 6 for Saturday. */
  function Weekday(n: int): (w: int)
    ensures 0 <= w < 7
  {
    (n + 4) % 7
  }

  /** The weekday advances by one from each day to the next, Saturday to Sunday. */
  lemma {:induction false} WeekdayStep(n: int)
    ensures Weekday(n + 1) == (Weekday(n) + 1) % 7
  {
    var q := (n + 4) / 7;
    assert n + 4 == 7 * q + Weekday(n);
    if Weekday(n) == 6 {
      assert n + 5 == 7 * (q + 1);
    } else {
      assert n + 5 == 7 * q + (Weekday(n) + 1);
    }
  }

  /** Days seven apart fall on the same weekday. */
  lemma {:induction false} WeekdayWeek(n: int)
    ensures Weekday(n + 7) == Weekday(n)
  {
    var q := (n + 4) / 7;
    assert n + 4 == 7 * q + Weekday(n);
    assert n + 11 == 7 * (q + 1) + Weekday(n);
  }

  lemma EpochIsThursday()
    ensures DayNumber(CivilDate(1970, 1, 1)) == 0
    ensures Weekday(DayNumber(CivilDate(1970, 1, 1))) == 4
  {
  }

  /** Consecutive years start YearLength days apart. */
  lemma YearStep(y: int)
    ensures YearStart(y + 1) == YearStart(y) + YearLength(y)
  {
    DivStep4(y);
    DivStep100(y);
    DivStep400(y);
    DividesCoarser(y);
    assert LeapsThrough(y) - LeapsThrough(y - 1) == if IsLeap(y) then 1 else 0;
  }

  /** A multiple of 400 is one of 100, and a multiple of 100 one of 4. */
  lemma DividesCoarser(y: int)
    ensures y % 400 == 0 ==> y % 100 == 0
    ensures y % 100 == 0 ==> y % 4 == 0
  {
    if y % 400 == 0 {
      var k := y / 400;
      assert y == 400 * k;
      MultipleOf100(4 * k);
    }
    if y % 100 == 0 {
      var k := y / 100;
      assert y == 100 * k;
      MultipleOf4(25 * k);
    }
  }

  lemma MultipleOf100(j: int)
    ensures (100 * j) % 100 == 0
  {
  }

  lemma MultipleOf4(j: int)
    ensures (4 * j) % 4 == 0
  {
  }

  /** y / k grows by one from y - 1 to y exactly when k divides y. */
  lemma DivStep4(y: int)
    ensures y / 4 - (y - 1) / 4 == if y % 4 == 0 then 1 else 0
  {
    var q, r := y / 4, y % 4;
    if r == 0 {
      assert y - 1 == 4 * (q - 1) + 3;
    } else {
      assert y - 1 == 4 * q + (r - 1);
    }
  }

  lemma DivStep100(y: int)
    ensures y / 100 - (y - 1) / 100 == if y % 100 == 0 then 1 else 0
  {
    var q, r := y / 100, y % 100;
    if r == 0 {
      assert y - 1 == 100 * (q - 1) + 99;
    } else {
      assert y - 1 == 100 * q + (r - 1);
    }
  }

  lemma DivStep400(y: int)
    ensures y / 400 - (y - 1) / 400 == if y % 400 == 0 then 1 else 0
  {
    var q, r := y / 400, y % 400;
    if r == 0 {
      assert y - 1 == 400 * (q - 1) + 399;
    } else {
      assert y - 1 == 400 * q + (r - 1);
    }
  }

  /** Later years start later: at least 365 days per year. */
  lemma {:induction false} YearStartGrows(y: int, z: int)
    requires y < z
    ensures YearStart(y) + 365 * (z - y) <= YearStart(z)
    decreases z - y
  {
    YearStep(y);
    if y + 1 < z {
      YearStartGrows(y + 1, z);
    }
  }

  /** Months counted from January of year 0: what `getMonth()` arithmetic works on. */
  function MonthIndex(y: int, m: int): int
  {
    12 * y + m - 1
  }

  /** The (year, month) that lies delta months from (y, m). */
  function ShiftMonth(y: int, m: int, delta: int): (r: (int, int))
    requires 1 <= m <= 12
    ensures 1 <= r.1 <= 12
    ensures MonthIndex(r.0, r.1) == MonthIndex(y, m) + delta
  {
    var k := m - 1 + delta;
    (y + k / 12, k % 12 + 1)
  }

  /** A month index names exactly one (year, month). */
  lemma MonthIndexInjective(y: int, m: int, y': int, m': int)
    requires 1 <= m <= 12 && 1 <= m' <= 12
    requires MonthIndex(y, m) == MonthIndex(y', m')
    ensures y == y' && m == m'
  {
  }

  /** The first of the next month is DaysInMonth days after the first of this one. */
  lemma NextMonthStart(y: int, m: int)
    requires 1 <= m <= 12
    ensures var (ny, nm) := ShiftMonth(y, m, 1);
            DayNumber(CivilDate(ny, nm, 1)) == DayNumber(CivilDate(y, m, 1)) + DaysInMonth(y, m)
  {
    var r := ShiftMonth(y, m, 1);
    if m < 12 {
      MonthIndexInjective(r.0, r.1, y, m + 1);
      MonthStartStep(y, m);
    } else {
      MonthIndexInjective(r.0, r.1, y + 1, 1);
      YearStep(y);
    }
  }

  /** Every day of a month lies before the first of the next month. */
  lemma DayWithinYear(d: CivilDate)
    requires ValidDate(d)
    ensures 0 <= MonthStart(d.year, d.month) + d.day - 1 < YearLength(d.year)
  {
  }

  /** Two valid dates with the same day number are the same date. */
  lemma DayNumberInjective(a: CivilDate, b: CivilDate)
    requires ValidDate(a) && ValidDate(b)
    requires DayNumber(a) == DayNumber(b)
    ensures a == b
  {
    DayWithinYear(a);
    DayWithinYear(b);
    if a.year < b.year {
      YearStep(a.year);
      if a.year + 1 < b.year {
        YearStartGrows(a.year + 1, b.year);
      }
      assert false;
    } else if b.year < a.year {
      YearStep(b.year);
      if b.year + 1 < a.year {
        YearStartGrows(b.year + 1, a.year);
      }
      assert false;
    } else if a.month < b.month {
      MonthsApart(a.year, a.month, b.month);
      assert false;
    } else if b.month < a.month {
      MonthsApart(a.year, b.month, a.month);
      assert false;
    }
  }

  lemma MonthsApart(y: int, m1: int, m2: int)
    requires 1 <= m1 < m2 <= 12
    ensures MonthStart(y, m1) + DaysInMonth(y, m1) <= MonthStart(y, m2)
  {
  }

  /** The day after d. */
  function NextDay(d: CivilDate): CivilDate
    requires ValidDate(d)
  {
    if d.day < DaysInMonth(d.year, d.month) then CivilDate(d.year, d.month, d.day + 1)
    else if d.month < 12 then CivilDate(d.year, d.month + 1, 1)
    else CivilDate(d.year + 1, 1, 1)
  }

  lemma NextDayStep(d: CivilDate)
    requires ValidDate(d)
    ensures ValidDate(NextDay(d))
    ensures DayNumber(NextDay(d)) == DayNumber(d) + 1
  {
    if d.day == DaysInMonth(d.year, d.month) {
      if d.month < 12 {
        MonthStartStep(d.year, d.month);
      } else {
        YearStep(d.year);
      }
    }
  }

  /** Within a year, each month starts DaysInMonth days after the one before. */
  lemma MonthStartStep(y: int, m: int)
    requires 1 <= m < 12
    ensures MonthStart(y, m + 1) == MonthStart(y, m) + DaysInMonth(y, m)
  {
  }

  /** `new Date(d); date.setDate(d.getDate() + k)`: k days after d. */
  function AddDays(d: CivilDate, k: nat): (r: CivilDate)
    requires ValidDate(d)
    ensures ValidDate(r)
    ensures DayNumber(r) == DayNumber(d) + k
  {
    if k == 0 then d
    else
      var p := AddDays(d, k - 1);
      NextDayStep(p);
      NextDay(p)
  }

  /** `date.setMonth(date.getMonth() + delta)` as JavaScript performs it: the
      month moves by delta and the day of the month is kept, so a day that the
      target month does not have runs over into the month after it. */
  function AddMonthsAsWritten(d: CivilDate, delta: int): (r: CivilDate)
    requires ValidDate(d)
    ensures ValidDate(r)
  {
    var (ty, tm) := ShiftMonth(d.year, d.month, delta);
    var n := DaysInMonth(ty, tm);
    if d.day <= n then CivilDate(ty, tm, d.day)
    else
      var (ny, nm) := ShiftMonth(ty, tm, 1);
      CivilDate(ny, nm, d.day - n)
  }

  /** Whatever the overflow, the as-written shift lands d.day - 1 days after
      the first of the target month. */
  lemma AddMonthsAsWrittenDay(d: CivilDate, delta: int)
    requires ValidDate(d)
    ensures var (ty, tm) := ShiftMonth(d.year, d.month, delta);
            DayNumber(AddMonthsAsWritten(d, delta)) == DayNumber(CivilDate(ty, tm, 1)) + d.day - 1
  {
    var (ty, tm) := ShiftMonth(d.year, d.month, delta);
    if d.day > DaysInMonth(ty, tm) {
      NextMonthStart(ty, tm);
    }
  }

  /** The as-written shift can land two months on: 31 January plus one month
      is 3 March (in a common year), so February is never reached from the 31st. */
  lemma AddMonthsAsWrittenSkips()
    ensures AddMonthsAsWritten(CivilDate(2025, 1, 31), 1) == CivilDate(2025, 3, 3)
    ensures MonthIndex(2025, 3) == MonthIndex(2025, 1) + 2
  {
  }

  /** The shift a month view means: delta months on, with the day of the month
      clamped to the length of the target month. */
  function AddMonthsClamped(d: CivilDate, delta: int): (r: CivilDate)
    requires ValidDate(d)
    ensures ValidDate(r)
    ensures MonthIndex(r.year, r.month) == MonthIndex(d.year, d.month) + delta
    ensures r.day == (if d.day <= DaysInMonth(r.year, r.month) then d.day else DaysInMonth(r.year, r.month))
  {
    var (ty, tm) := ShiftMonth(d.year, d.month, delta);
    var n := DaysInMonth(ty, tm);
    CivilDate(ty, tm, if d.day <= n then d.day else n)
  }

  /** Both shifts agree whenever the day exists in the target month. */
  lemma ShiftsAgree(d: CivilDate, delta: int)
    requires ValidDate(d)
    requires d.day <= DaysInMonth(ShiftMonth(d.year, d.month, delta).0, ShiftMonth(d.year, d.month, delta).1)
    ensures AddMonthsAsWritten(d, delta) == AddMonthsClamped(d, delta)
  {
  }

  /** `toLocaleDateString('zh-CN', { month: 'long' })` of a date in month m is MonthLabels[m - 1]. */
  const MonthLabels: seq<string> :=
    ["一月", "二月", "三月", "四月", "五月", "六月", "七月", "八月", "九月", "十月", "十一月", "十二月"]

  /** What `toLocaleDateString` answers for an invalid `Date`. */
  const InvalidDateLabel: string := "Invalid Date"
}
