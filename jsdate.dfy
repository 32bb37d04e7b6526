/**
 * JavaScript `Date` values as the application builds and compares them, after
 * the ECMAScript definitions of time values (Day, DayFromYear, MakeDay, MakeTime,
 * MakeDate, TimeClip, WeekDay). Local time is taken to be UTC: the model has no
 * time-zone offset, so every date-time is naive local time.
 */
module JsDate {

  const MsPerMinute: int := 60_000
  const MsPerHour: int := 3_600_000
  const MsPerDay: int := 86_400_000
  /** The largest magnitude of a valid time value (100,000,000 days). */
  const MaxTime: int := 8_640_000_000_000_000

  /** A time value inside the range `Date` accepts, such as `Date.now()` returns. */
  type Epoch = t: int | -MaxTime <= t <= MaxTime

  /** A `Date`: `Invalid Date` (time value NaN) or milliseconds since the epoch. */
  datatype Time = Invalid | At(ms: int)

  /** TimeClip: a time value outside the valid range becomes NaN. */
  function TimeClip(t: int): (r: Time)
    ensures r.At? <==> -MaxTime <= t <= MaxTime
    ensures r.At? ==> r.ms == t
  {
    if -MaxTime <= t <= MaxTime then At(t) else Invalid
  }

  /** `new Date(d.getTime() + delta)`. */
  function AddMs(d: Time, delta: int): Time {
    if d.Invalid? then Invalid else TimeClip(d.ms + delta)
  }

  /** `a < b` on two dates: compares time values, and any comparison with NaN is false. */
  predicate Before(a: Time, b: Time) {
    a.At? && b.At? && a.ms < b.ms
  }

  predicate IsLeap(y: int) {
    y % 4 == 0 && (y % 100 != 0 || y % 400 == 0)
  }

  function DaysInYear(y: int): int {
    if IsLeap(y) then 366 else 365
  }

  /** DayFromYear: the day number of January 1 of year `y` (day 0 is 1970-01-01). */
  function DayFromYear(y: int): int {
    365 * (y - 1970) + (y - 1969) / 4 - (y - 1901) / 100 + (y - 1601) / 400
  }

  /** Days in month `m0` (0-based) of year `y`. */
  function DaysInMonth(y: int, m0: int): (n: int)
    requires 0 <= m0 < 12
    ensures 28 <= n <= 31
  {
    if m0 == 1 then (if IsLeap(y) then 29 else 28)
    else if m0 == 3 || m0 == 5 || m0 == 8 || m0 == 10 then 30
    else 31
  }

  /** Days of year `y` before the first of month `m0`. */
  function DaysBeforeMonth(y: int, m0: int): (d: int)
    requires 0 <= m0 < 12
    ensures 28 * m0 <= d <= 31 * m0
  {
    if m0 == 0 then 0 else DaysBeforeMonth(y, m0 - 1) + DaysInMonth(y, m0 - 1)
  }

  /** The cumulative table: 0, 31, 59, …, 334 days before each month, one more from March on in a leap year. */
  lemma {:induction false} DaysBeforeMonthTable(y: int, m0: int)
    requires 0 <= m0 < 12
    ensures DaysBeforeMonth(y, m0) ==
      [0, 31, 59, 90, 120, 151, 181, 212, 243, 273, 304, 334][m0] + (if m0 >= 2 && IsLeap(y) then 1 else 0)
  {
    if m0 > 0 {
      DaysBeforeMonthTable(y, m0 - 1);
    }
  }

  /** December's days close the year. */
  lemma DaysBeforeDecember(y: int)
    ensures DaysBeforeMonth(y, 11) + DaysInMonth(y, 11) == DaysInYear(y)
  {
    DaysBeforeMonthTable(y, 11);
  }

  /**
   * MakeDay(year, month, date): the month may be any integer (it carries into the
   * year) and the date any integer (it counts from the first of that month).
   */
  function MakeDay(year: int, month: int, date: int): int {
    var ym := year + month / 12;
    var mn := month % 12;
    DayFromYear(ym) + DaysBeforeMonth(ym, mn) + date - 1
  }

  /** Day(t): the day number of time value `t`. */
  function DayOf(t: int): int {
    t / MsPerDay
  }

  /** WeekDay of a day number: 0 is Sunday (1970-01-01 was a Thursday). */
  function WeekDay(day: int): (w: int)
    ensures 0 <= w < 7
  {
    (day + 4) % 7
  }

  /**
   * `new Date(year, month, day, hour, minute)` with numeric arguments, in naive
   * local time: a NaN argument gives `Invalid Date`, a year in 0..99 means
   * 1900..1999, and the time value is clipped to the valid range.
   */
  function MakeLocal(year: int, month: int, day: int, hour: int, minute: int): Time {
    var yr := if 0 <= year <= 99 then 1900 + year else year;
    TimeClip(MakeDay(yr, month, day) * MsPerDay + hour * MsPerHour + minute * MsPerMinute)
  }

  /** A day of the month past its last day is the first day of the next month. */
  lemma MakeDayRollsOver(y: int, m0: int)
    requires 0 <= m0 < 12
    ensures MakeDay(y, m0, DaysInMonth(y, m0) + 1) == MakeDay(y, m0 + 1, 1)
  {
    if m0 == 11 {
      assert MakeDay(y, 12, 1) == DayFromYear(y + 1);
      assert MakeDay(y, 11, 32) == DayFromYear(y) + DaysBeforeMonth(y, 11) + 31;
      DaysBeforeDecember(y);
      DayFromYearStep(y);
    } else {
      assert m0 / 12 == 0 && m0 % 12 == m0 && (m0 + 1) / 12 == 0 && (m0 + 1) % 12 == m0 + 1;
    }
  }

  /** Consecutive years are one year length apart. */
  lemma DayFromYearStep(y: int)
    ensures DayFromYear(y + 1) == DayFromYear(y) + DaysInYear(y)
  {
    FloorStep(y - 1969, 4);
    FloorStep(y - 1901, 100);
    FloorStep(y - 1601, 400);
  }

  /** Floor division by `d` steps up by one exactly when `a + 1` is a multiple of `d`. */
  lemma FloorStep(a: int, d: int)
    requires d == 4 || d == 100 || d == 400
    ensures (a + 1) / d == a / d + (if (a + 1) % d == 0 then 1 else 0)
  {
    var q, r := a / d, a % d;
    if d == 4 {
      if r == 3 { assert a + 1 == 4 * (q + 1); } else { assert a + 1 == 4 * q + (r + 1); }
    } else if d == 100 {
      if r == 99 { assert a + 1 == 100 * (q + 1); } else { assert a + 1 == 100 * q + (r + 1); }
    } else {
      if r == 399 { assert a + 1 == 400 * (q + 1); } else { assert a + 1 == 400 * q + (r + 1); }
    }
  }
}
