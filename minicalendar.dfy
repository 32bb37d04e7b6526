/**
 * The month navigator beside the main calendar: the displayed month, the
 * selected day, the grid of whole weeks covering the month, the event dot of
 * each day, and the click guard that ignores days of neighbouring months.
 * Days are calendar dates without a time of day; the locale's first day of the
 * week is a parameter `dow` (0 is Sunday).
 */
module MiniCalendar {
  import opened Wrappers
  import opened JsDate
  import opened Records

  /** A calendar date: `month` is 0-based, as `moment().month()` reports it. */
  datatype CalDate = CalDate(year: int, month: int, day: int)

  predicate ValidDate(c: CalDate) {
    0 <= c.month < 12 && 1 <= c.day <= DaysInMonth(c.year, c.month)
  }

  /** The day number of the date (day 0 is 1970-01-01). */
  function DayNumber(c: CalDate): int {
    MakeDay(c.year, c.month, c.day)
  }

  /** `day.add(1, 'day')`. */
  function NextDay(c: CalDate): (n: CalDate)
    requires ValidDate(c)
    ensures ValidDate(n)
  {
    if c.day < DaysInMonth(c.year, c.month) then c.(day := c.day + 1)
    else if c.month < 11 then CalDate(c.year, c.month + 1, 1)
    else CalDate(c.year + 1, 0, 1)
  }

  /** `day.subtract(1, 'day')`. */
  function PrevDay(c: CalDate): (p: CalDate)
    requires ValidDate(c)
    ensures ValidDate(p)
  {
    if c.day > 1 then c.(day := c.day - 1)
    else if c.month > 0 then CalDate(c.year, c.month - 1, DaysInMonth(c.year, c.month - 1))
    else CalDate(c.year - 1, 11, 31)
  }

  /** The date `n` days later. */
  function Forward(c: CalDate, n: nat): (r: CalDate)
    requires ValidDate(c)
    ensures ValidDate(r)
  {
    if n == 0 then c else NextDay(Forward(c, n - 1))
  }

  /** The date `n` days earlier. */
  function Back(c: CalDate, n: nat): (r: CalDate)
    requires ValidDate(c)
    ensures ValidDate(r)
  {
    if n == 0 then c else PrevDay(Back(c, n - 1))
  }

  /** `moment.clone().add(n, 'month')`: the month moves by `n`, the day is clamped to the new month's length. */
  function AddMonths(c: CalDate, n: int): (r: CalDate)
    requires ValidDate(c)
    ensures ValidDate(r)
    ensures r.year * 12 + r.month == c.year * 12 + c.month + n
    ensures r.day == if c.day <= DaysInMonth(r.year, r.month) then c.day else DaysInMonth(r.year, r.month)
  {
    var total := c.year * 12 + c.month + n;
    var y, m := total / 12, total % 12;
    var last := DaysInMonth(y, m);
    CalDate(y, m, if c.day <= last then c.day else last)
  }

  /** `startOf('month')` and `endOf('month')`, as dates. */
  function MonthStart(c: CalDate): CalDate {
    CalDate(c.year, c.month, 1)
  }

  function MonthEnd(c: CalDate): CalDate
    requires 0 <= c.month < 12
  {
    CalDate(c.year, c.month, DaysInMonth(c.year, c.month))
  }

  /** How many days the date lies after the start of its week. */
  function Offset(c: CalDate, dow: int): (k: int)
    requires 0 <= dow < 7
    ensures 0 <= k < 7
  {
    (WeekDay(DayNumber(c)) - dow) % 7
  }

  /** `startOf('week')` and `endOf('week')`, as dates. */
  function WeekStart(c: CalDate, dow: int): CalDate
    requires ValidDate(c) && 0 <= dow < 7
  {
    Back(c, Offset(c, dow))
  }

  function WeekEnd(c: CalDate, dow: int): CalDate
    requires ValidDate(c) && 0 <= dow < 7
  {
    Forward(c, 6 - Offset(c, dow))
  }

  /** The first and last day of the grid for the displayed month. */
  function GridStart(current: CalDate, dow: int): CalDate
    requires 0 <= current.month < 12 && 0 <= dow < 7
  {
    WeekStart(MonthStart(current), dow)
  }

  function GridEnd(current: CalDate, dow: int): CalDate
    requires 0 <= current.month < 12 && 0 <= dow < 7
  {
    WeekEnd(MonthEnd(current), dow)
  }

  // ---------------------------------------------------------------------------
  // The event dot

  /**
   * The record spans the day: both dates are valid and the day lies between
   * the start's day and the end's day, inclusive.
   */
  predicate Covers(e: Event, day: int) {
    e.start.At? && e.end.At? && DayOf(e.start.ms) <= day <= DayOf(e.end.ms)
  }

  function AnyCovers(es: seq<Event>, day: int): (b: bool)
    ensures b <==> exists i :: 0 <= i < |es| && Covers(es[i], day)
  {
    if es == [] then false
    else Covers(es[0], day) || AnyCovers(es[1..], day)
  }

  /** `hasEvents`: false without an events array (`None`), else whether some record spans the day. */
  function HasEvents(day: int, events: Option<seq<Event>>): (b: bool)
    ensures events.None? ==> !b
    ensures events.Some? ==> (b <==> exists i :: 0 <= i < |events.value| && Covers(events.value[i], day))
  {
    events.Some? && AnyCovers(events.value, day)
  }

  /** A record whose end day is before its start day marks no day. */
  lemma InvertedRangeMarksNothing(e: Event, day: int)
    requires e.start.At? && e.end.At? && DayOf(e.end.ms) < DayOf(e.start.ms)
    ensures !HasEvents(day, Some([e]))
  {
  }

  /** A record marks every day from its start's day to its end's day. */
  lemma SpanMarked(es: seq<Event>, i: nat, day: int)
    requires i < |es| && es[i].start.At? && es[i].end.At?
    requires DayOf(es[i].start.ms) <= day <= DayOf(es[i].end.ms)
    ensures HasEvents(day, Some(es))
  {
    assert Covers(es[i], day);
  }

  // ---------------------------------------------------------------------------
  // The grid

  /** One cell: its date, whether it is in the displayed month (by month field only), today, selected, and the dot. */
  datatype Cell = Cell(date: CalDate, inMonth: bool, isToday: bool, isSelected: bool, dot: bool)

  function CellFor(d: CalDate, current: CalDate, today: CalDate, selected: CalDate, events: Option<seq<Event>>): Cell {
    Cell(d, d.month == current.month, d == today, d == selected, HasEvents(DayNumber(d), events))
  }

  /** The number of week rows of the grid: enough whole weeks for the leading days and the month. */
  function RowCount(current: CalDate, dow: int): int
    requires 0 <= current.month < 12 && 0 <= dow < 7
  {
    (Offset(MonthStart(current), dow) + DaysInMonth(current.year, current.month) + 6) / 7
  }

  /**
   * `renderCalendar`: rows of seven cells, the cursor starting at the first
   * day of the week holding the 1st and advancing a day per cell while it is
   * not past the last day of the week holding the month's last day. The result
   * is the grid `Grid`, whose shape `GridLayout` states.
   */
  method RenderGrid(current: CalDate, today: CalDate, selected: CalDate, events: Option<seq<Event>>, dow: int)
    returns (rows: seq<seq<Cell>>)
    requires ValidDate(current) && 0 <= dow < 7
    ensures rows == Grid(current, today, selected, events, dow)
  {
    GridSpan(current, dow);
    rows := RenderWeeks(GridStart(current, dow), GridEnd(current, dow), RowCount(current, dow), current, today, selected, events);
  }

  /** The row loop of `renderCalendar`, from the grid's first day `start` while the cursor is not past its last day `end`. */
  method RenderWeeks(start: CalDate, end: CalDate, total: nat, current: CalDate, today: CalDate, selected: CalDate, events: Option<seq<Event>>)
    returns (rows: seq<seq<Cell>>)
    requires ValidDate(start) && 1 <= total && end == Forward(start, 7 * total - 1)
    ensures rows == Weeks(start, total, current, today, selected, events)
  {
    rows := [];
    var day := start;
    while NotAfter(day, end)
      invariant 0 <= |rows| <= total
      invariant day == Forward(start, 7 * |rows|)
      invariant rows == Weeks(start, |rows|, current, today, selected, events)
      decreases total - |rows|
    {
      ForwardOrder(start, 7 * |rows|, 7 * total - 1);
      var days;
      days, day := RenderWeek(start, 7 * |rows|, day, current, today, selected, events);
      rows := rows + [days];
    }
    ForwardOrder(start, 7 * |rows|, 7 * total - 1);
  }

  /** The grid `renderCalendar` builds: `RowCount` week rows from the grid start. */
  function Grid(current: CalDate, today: CalDate, selected: CalDate, events: Option<seq<Event>>, dow: int): seq<seq<Cell>>
    requires ValidDate(current) && 0 <= dow < 7
  {
    Weeks(GridStart(current, dow), RowCount(current, dow), current, today, selected, events)
  }

  /**
   * The grid has four to six rows of seven cells; cell `i` of row `r` is the
   * day `7 * r + i` after the grid start, which falls on the week start `dow`;
   * the last cell is the end of the week holding the month's last day; and
   * every day `d` of the month is in the grid, at position `Offset + d - 1`.
   */
  lemma GridLayout(current: CalDate, today: CalDate, selected: CalDate, events: Option<seq<Event>>, dow: int)
    requires ValidDate(current) && 0 <= dow < 7
    ensures var rows := Grid(current, today, selected, events, dow);
      |rows| == RowCount(current, dow) && 4 <= |rows| <= 6 && forall r :: 0 <= r < |rows| ==> |rows[r]| == 7
    ensures var rows := Grid(current, today, selected, events, dow);
      forall r, i :: 0 <= r < |rows| && 0 <= i < 7 ==>
        rows[r][i] == CellFor(Forward(GridStart(current, dow), 7 * r + i), current, today, selected, events)
    ensures WeekDay(DayNumber(GridStart(current, dow))) == dow
    ensures Forward(GridStart(current, dow), 7 * RowCount(current, dow) - 1) == GridEnd(current, dow)
    ensures Offset(MonthStart(current), dow) + DaysInMonth(current.year, current.month) <= 7 * RowCount(current, dow)
    ensures var rows := Grid(current, today, selected, events, dow);
      forall r, i :: 0 <= r < |rows| && 0 <= i < 7 && InMonthPosition(current, dow, 7 * r + i) ==>
        rows[r][i].date == CalDate(current.year, current.month, 7 * r + i - Offset(MonthStart(current), dow) + 1)
  {
    GridSpan(current, dow);
    WeeksCells(GridStart(current, dow), RowCount(current, dow), current, today, selected, events);
    MonthInGrid(current, dow);
  }

  /** One week row of `renderCalendar`: seven cells from the cursor `day`, which is `base` days after `start`, and the cursor after them. */
  method RenderWeek(start: CalDate, base: nat, day: CalDate, current: CalDate, today: CalDate, selected: CalDate, events: Option<seq<Event>>)
    returns (days: seq<Cell>, next: CalDate)
    requires ValidDate(start) && day == Forward(start, base)
    ensures days == Week(start, base, current, today, selected, events) && next == Forward(start, base + 7)
  {
    days := [];
    next := day;
    for i := 0 to 7
      invariant next == Forward(start, base + i)
      invariant |days| == i
      invariant forall j :: 0 <= j < i ==> days[j] == CellFor(Forward(start, base + j), current, today, selected, events)
    {
      var isCurrentMonth := next.month == current.month;
      var isToday := next == today;
      var isSelected := next == selected;
      var hasEventsOnDay := HasEvents(DayNumber(next), events);
      days := days + [Cell(next, isCurrentMonth, isToday, isSelected, hasEventsOnDay)];
      next := NextDay(next);
    }
  }

  /** The seven cells of days `base` to `base + 6` after `start`. */
  function Week(start: CalDate, base: nat, current: CalDate, today: CalDate, selected: CalDate, events: Option<seq<Event>>): seq<Cell>
    requires ValidDate(start)
  {
    seq(7, j requires 0 <= j < 7 => CellFor(Forward(start, base + j), current, today, selected, events))
  }

  /** The first `n` week rows from `start`. */
  function Weeks(start: CalDate, n: nat, current: CalDate, today: CalDate, selected: CalDate, events: Option<seq<Event>>): seq<seq<Cell>>
    requires ValidDate(start)
  {
    if n == 0 then [] else Weeks(start, n - 1, current, today, selected, events) + [Week(start, 7 * (n - 1), current, today, selected, events)]
  }

  /** Row `r`, column `i` of the week rows holds the day `7 * r + i` after `start`. */
  lemma {:induction false} WeeksCells(start: CalDate, n: nat, current: CalDate, today: CalDate, selected: CalDate, events: Option<seq<Event>>)
    requires ValidDate(start)
    ensures var w := Weeks(start, n, current, today, selected, events);
      |w| == n && forall r :: 0 <= r < n ==> |w[r]| == 7
    ensures var w := Weeks(start, n, current, today, selected, events);
      forall r, i :: 0 <= r < n && 0 <= i < 7 ==> w[r][i] == CellFor(Forward(start, 7 * r + i), current, today, selected, events)
  {
    if n > 0 {
      var prev := Weeks(start, n - 1, current, today, selected, events);
      var last := Week(start, 7 * (n - 1), current, today, selected, events);
      var w := prev + [last];
      WeeksCells(start, n - 1, current, today, selected, events);
      forall r, i | 0 <= r < n && 0 <= i < 7
        ensures w[r][i] == CellFor(Forward(start, 7 * r + i), current, today, selected, events)
      {
        if r < n - 1 {
          assert w[r] == prev[r];
        } else {
          assert w[r] == last && 7 * r + i == 7 * (n - 1) + i;
        }
      }
    }
  }

  /** Grid position `n` holds a day of the displayed month. */
  predicate InMonthPosition(current: CalDate, dow: int, n: int)
    requires 0 <= current.month < 12 && 0 <= dow < 7
  {
    var k := Offset(MonthStart(current), dow);
    k <= n < k + DaysInMonth(current.year, current.month)
  }

  /**
   * The grid's first day is the week start `dow`, its last day is the end of
   * the week holding the month's last day, and it spans `RowCount` whole weeks,
   * four to six of them, with room for every day of the month.
   */
  lemma GridSpan(current: CalDate, dow: int)
    requires ValidDate(current) && 0 <= dow < 7
    ensures WeekDay(DayNumber(GridStart(current, dow))) == dow
    ensures DayNumber(GridEnd(current, dow)) - DayNumber(GridStart(current, dow)) + 1 == 7 * RowCount(current, dow)
    ensures Offset(MonthStart(current), dow) + DaysInMonth(current.year, current.month) <= 7 * RowCount(current, dow)
    ensures 4 <= RowCount(current, dow) <= 6
    ensures Forward(GridStart(current, dow), 7 * RowCount(current, dow) - 1) == GridEnd(current, dow)
  {
    var first, last := MonthStart(current), MonthEnd(current);
    var days := DaysInMonth(current.year, current.month);
    var k, l := Offset(first, dow), Offset(last, dow);
    var f, z := DayNumber(first), DayNumber(last);
    var startDay, endDay := DayNumber(GridStart(current, dow)), DayNumber(GridEnd(current, dow));
    assert k == (f + 4 - dow) % 7 && startDay == f - k && WeekDay(startDay) == dow by {
      WeekStartNumber(first, dow);
    }
    assert l == (z + 4 - dow) % 7 && endDay == z + 6 - l by {
      WeekEndNumber(last, dow);
    }
    assert z == f + days - 1 by {
      MonthLength(current);
    }
    RowArith(f, z, k, l, days, dow);
    GridReachesEnd(current, dow, 7 * RowCount(current, dow) - 1);
  }

  /** The row count's arithmetic, on plain integers: `f` and `z` are the month's first and last day numbers, `k` and `l` their offsets. */
  lemma RowArith(f: int, z: int, k: int, l: int, days: int, dow: int)
    requires z == f + days - 1 && 28 <= days <= 31 && 0 <= dow < 7
    requires k == (f + 4 - dow) % 7 && l == (z + 4 - dow) % 7
    ensures 7 * ((k + days + 6) / 7) == days + 6 + k - l
    ensures 4 <= (k + days + 6) / 7 <= 6
    ensures k + days <= 7 * ((k + days + 6) / 7)
  {
    var s, t := f + 4 - dow, z + 4 - dow;
    assert s == 7 * (s / 7) + k;
    assert t == 7 * (t / 7) + l;
    DivMod7(k + days - 1, t / 7 - s / 7, l);
    DivMod7(k + days + 6, t / 7 - s / 7 + 1, l);
  }

  lemma WeekStartNumber(c: CalDate, dow: int)
    requires ValidDate(c) && 0 <= dow < 7
    ensures Offset(c, dow) == (DayNumber(c) + 4 - dow) % 7
    ensures DayNumber(WeekStart(c, dow)) == DayNumber(c) - Offset(c, dow)
    ensures WeekDay(DayNumber(WeekStart(c, dow))) == dow
  {
    BackNumber(c, Offset(c, dow));
    OffsetArith(DayNumber(c), dow);
  }

  lemma WeekEndNumber(c: CalDate, dow: int)
    requires ValidDate(c) && 0 <= dow < 7
    ensures Offset(c, dow) == (DayNumber(c) + 4 - dow) % 7
    ensures DayNumber(WeekEnd(c, dow)) == DayNumber(c) + 6 - Offset(c, dow)
  {
    ForwardNumber(c, 6 - Offset(c, dow));
    OffsetArith(DayNumber(c), dow);
  }

  /** The length of the month in day numbers. */
  lemma MonthLength(current: CalDate)
    requires 0 <= current.month < 12
    ensures DayNumber(MonthEnd(current)) == DayNumber(MonthStart(current)) + DaysInMonth(current.year, current.month) - 1
  {
    var y, m := current.year, current.month;
    assert MonthStart(current) == CalDate(y, m, 1);
    assert MonthEnd(current) == CalDate(y, m, DaysInMonth(y, m));
  }

  /** Walking `Offset + days - 1 + 6 - Offset'` days from the grid start reaches the grid end. */
  lemma GridReachesEnd(current: CalDate, dow: int, n: nat)
    requires ValidDate(current) && 0 <= dow < 7
    requires n == Offset(MonthStart(current), dow) + DaysInMonth(current.year, current.month) - 1 + 6 - Offset(MonthEnd(current), dow)
    ensures Forward(GridStart(current, dow), n) == GridEnd(current, dow)
  {
    var first := MonthStart(current);
    var days := DaysInMonth(current.year, current.month);
    WalkThrough(first, Offset(first, dow), days - 1, 6 - Offset(MonthEnd(current), dow));
    assert first.(day := first.day + days - 1) == MonthEnd(current);
  }

  /** From `k` days before a date, walking `k + m + extra` days is walking `extra` days from `m` days after it, within its month. */
  lemma WalkThrough(first: CalDate, k: nat, m: nat, extra: nat)
    requires ValidDate(first) && first.day + m <= DaysInMonth(first.year, first.month)
    ensures Forward(Back(first, k), k + m + extra) == Forward(first.(day := first.day + m), extra)
  {
    var b := Back(first, k);
    ForwardSplit(b, k + m, extra);
    ForwardSplit(b, k, m);
    ForwardBack(first, k);
    ForwardInMonth(first, m);
  }

  /** Euclidean division by 7 is determined by quotient and remainder. */
  lemma DivMod7(a: int, q: int, r: int)
    requires a == 7 * q + r && 0 <= r < 7
    ensures a / 7 == q && a % 7 == r
  {
  }

  /** `x - Offset` lands on the week start, and the offsets fit the row arithmetic. */
  lemma OffsetArith(x: int, dow: int)
    requires 0 <= dow < 7
    ensures (WeekDay(x) - dow) % 7 == (x + 4 - dow) % 7
    ensures WeekDay(x - (x + 4 - dow) % 7) == dow
  {
    var q, r := (x + 4 - dow) / 7, (x + 4 - dow) % 7;
    var p, w := (x + 4) / 7, (x + 4) % 7;
    DivMod7(w - dow, q - p, r);
    DivMod7(x - r + 4, q, dow);
  }

  /** Every day of the month sits in the grid, day `d` at position `Offset + d - 1`. */
  lemma MonthInGrid(current: CalDate, dow: int)
    requires ValidDate(current) && 0 <= dow < 7
    ensures forall n {:trigger Forward(GridStart(current, dow), n)} :: InMonthPosition(current, dow, n) ==>
      Forward(GridStart(current, dow), n) == CalDate(current.year, current.month, n - Offset(MonthStart(current), dow) + 1)
  {
    var first := MonthStart(current);
    var k := Offset(first, dow);
    forall n | InMonthPosition(current, dow, n)
      ensures Forward(GridStart(current, dow), n) == CalDate(current.year, current.month, n - k + 1)
    {
      WalkThrough(first, k, n - k, 0);
    }
  }

  // ---------------------------------------------------------------------------
  // Date order

  /**
   * `day.isSameOrBefore(endDate)` with the cursor at the start of its day and
   * `endDate` at the end of its day: the dates in calendar order.
   */
  predicate NotAfter(a: CalDate, b: CalDate) {
    a.year < b.year || (a.year == b.year && (a.month < b.month || (a.month == b.month && a.day <= b.day)))
  }

  /** Calendar order is the order of the day numbers, so comparing the moments' time values agrees with it. */
  lemma NotAfterIffDayNumber(a: CalDate, b: CalDate)
    requires ValidDate(a) && ValidDate(b)
    ensures NotAfter(a, b) <==> DayNumber(a) <= DayNumber(b)
  {
    if NotAfter(a, b) {
      if a != b {
        EarlierDateSmaller(a, b);
      }
    } else {
      EarlierDateSmaller(b, a);
    }
  }

  /** A strictly earlier date has a strictly smaller day number. */
  lemma EarlierDateSmaller(a: CalDate, b: CalDate)
    requires ValidDate(a) && ValidDate(b) && NotAfter(a, b) && a != b
    ensures DayNumber(a) < DayNumber(b)
  {
    if a.year < b.year {
      EarlierYearSmaller(a, b);
    } else {
      DayNumberFormula(a);
      DayNumberFormula(b);
      if a.month < b.month {
        MonthsBefore(a.year, a.month, b.month);
      }
    }
  }

  lemma EarlierYearSmaller(a: CalDate, b: CalDate)
    requires ValidDate(a) && ValidDate(b) && a.year < b.year
    ensures DayNumber(a) < DayNumber(b)
  {
    DayNumberInYear(a);
    DayNumberInYear(b);
    DayFromYearIncreasing(a.year + 1, b.year);
  }

  /** A date's day number lies within its year. */
  lemma DayNumberInYear(c: CalDate)
    requires ValidDate(c)
    ensures DayFromYear(c.year) <= DayNumber(c) < DayFromYear(c.year + 1)
  {
    DayNumberFormula(c);
    MonthsBefore(c.year, c.month, 12);
    DaysBeforeDecember(c.year);
    DayFromYearStep(c.year);
  }

  /** For a month in 0..11 no month carries into the year. */
  lemma DayNumberFormula(c: CalDate)
    requires 0 <= c.month < 12
    ensures DayNumber(c) == DayFromYear(c.year) + DaysBeforeMonth(c.year, c.month) + c.day - 1
  {
    assert c.month / 12 == 0 && c.month % 12 == c.month;
  }

  /** The days before month `m0`, and the month itself, come before month `m1`. (Month 12 stands for the end of the year.) */
  lemma {:induction false} MonthsBefore(y: int, m0: int, m1: int)
    requires 0 <= m0 < m1 <= 12
    ensures m1 < 12 ==> DaysBeforeMonth(y, m0) + DaysInMonth(y, m0) <= DaysBeforeMonth(y, m1)
    ensures m1 == 12 ==> DaysBeforeMonth(y, m0) + DaysInMonth(y, m0) <= DaysBeforeMonth(y, 11) + DaysInMonth(y, 11)
    decreases m1 - m0
  {
    if m0 + 1 < m1 {
      MonthsBefore(y, m0 + 1, m1);
    }
  }

  /** January 1 of a later year has a number no smaller. */
  lemma {:induction false} DayFromYearIncreasing(y1: int, y2: int)
    requires y1 <= y2
    ensures DayFromYear(y1) <= DayFromYear(y2)
    decreases y2 - y1
  {
    if y1 < y2 {
      DayFromYearStep(y1);
      DayFromYearIncreasing(y1 + 1, y2);
    }
  }

  /** The next day comes strictly after. */
  lemma NextDayAfter(c: CalDate)
    requires ValidDate(c)
    ensures NotAfter(c, NextDay(c)) && NextDay(c) != c
  {
  }

  /** Walking forward never goes back in calendar order. */
  lemma {:induction false} ForwardNotBefore(c: CalDate, n: nat)
    requires ValidDate(c)
    ensures NotAfter(c, Forward(c, n))
    ensures n > 0 ==> Forward(c, n) != c
  {
    if n > 0 {
      ForwardNotBefore(c, n - 1);
      NextDayAfter(Forward(c, n - 1));
    }
  }

  /** Along one walk, day `a` is not after day `b` exactly when `a <= b`. */
  lemma ForwardOrder(c: CalDate, a: nat, b: nat)
    requires ValidDate(c)
    ensures NotAfter(Forward(c, a), Forward(c, b)) <==> a <= b
  {
    if a <= b {
      ForwardSplit(c, a, b - a);
      ForwardNotBefore(Forward(c, a), b - a);
    } else {
      ForwardSplit(c, b, a - b);
      ForwardNotBefore(Forward(c, b), a - b);
    }
  }

  // ---------------------------------------------------------------------------
  // Day arithmetic

  /** The next day's number is one more. */
  lemma NextDayNumber(c: CalDate)
    requires ValidDate(c)
    ensures DayNumber(NextDay(c)) == DayNumber(c) + 1
  {
    var y, m := c.year, c.month;
    if c.day < DaysInMonth(y, m) {
      assert NextDay(c) == CalDate(y, m, c.day + 1);
      MakeDayNextDate(y, m, c.day);
    } else if m < 11 {
      assert NextDay(c) == CalDate(y, m + 1, 1);
      MakeDayRollsOver(y, m);
      assert DayNumber(c) == MakeDay(y, m, DaysInMonth(y, m));
      MakeDayNextDate(y, m, DaysInMonth(y, m));
    } else {
      assert NextDay(c) == CalDate(y + 1, 0, 1);
      MakeDayRollsOver(y, 11);
      MakeDayNewYear(y);
      assert DayNumber(c) == MakeDay(y, 11, 31);
      MakeDayNextDate(y, 11, 31);
    }
  }

  lemma MakeDayNextDate(y: int, m: int, d: int)
    ensures MakeDay(y, m, d + 1) == MakeDay(y, m, d) + 1
  {
  }

  lemma MakeDayNewYear(y: int)
    ensures MakeDay(y, 12, 1) == MakeDay(y + 1, 0, 1)
  {
    assert 12 / 12 == 1 && 12 % 12 == 0;
  }

  /** Stepping back a day and forward a day, or forward and back, returns the date. */
  lemma NextPrev(c: CalDate)
    requires ValidDate(c)
    ensures NextDay(PrevDay(c)) == c
    ensures PrevDay(NextDay(c)) == c
  {
  }

  lemma {:induction false} ForwardNumber(c: CalDate, n: nat)
    requires ValidDate(c)
    ensures DayNumber(Forward(c, n)) == DayNumber(c) + n
  {
    if n > 0 {
      ForwardNumber(c, n - 1);
      NextDayNumber(Forward(c, n - 1));
    }
  }

  lemma {:induction false} BackNumber(c: CalDate, n: nat)
    requires ValidDate(c)
    ensures DayNumber(Back(c, n)) == DayNumber(c) - n
  {
    if n > 0 {
      BackNumber(c, n - 1);
      var b := Back(c, n - 1);
      NextPrev(b);
      NextDayNumber(PrevDay(b));
    }
  }

  /** Going `a + b` days forward is going `a` days and then `b` more. */
  lemma {:induction false} ForwardSplit(c: CalDate, a: nat, b: nat)
    requires ValidDate(c)
    ensures Forward(c, a + b) == Forward(Forward(c, a), b)
  {
    if b > 0 {
      ForwardSplit(c, a, b - 1);
    }
  }

  /** Going one day forward first is going one day further. */
  lemma {:induction false} ForwardShift(c: CalDate, n: nat)
    requires ValidDate(c)
    ensures Forward(NextDay(c), n) == Forward(c, n + 1)
  {
    ForwardSplit(c, 1, n);
  }

  /** Going `n` days back and then `n` days forward returns the date. */
  lemma {:induction false} ForwardBack(c: CalDate, n: nat)
    requires ValidDate(c)
    ensures Forward(Back(c, n), n) == c
  {
    if n > 0 {
      var b := Back(c, n - 1);
      NextPrev(b);
      ForwardShift(PrevDay(b), n - 1);
      ForwardBack(c, n - 1);
    }
  }

  /** Within a month, going forward adds to the day of the month. */
  lemma {:induction false} ForwardInMonth(c: CalDate, n: nat)
    requires ValidDate(c) && c.day + n <= DaysInMonth(c.year, c.month)
    ensures Forward(c, n) == c.(day := c.day + n)
  {
    if n > 0 {
      ForwardInMonth(c, n - 1);
    }
  }

  // ---------------------------------------------------------------------------
  // Navigation

  /** `nextMonth` then `prevMonth` shows the same month of the same year again, on a day no later. */
  lemma NextThenPrev(c: CalDate)
    requires ValidDate(c)
    ensures var b := AddMonths(AddMonths(c, 1), -1);
      b.year == c.year && b.month == c.month && b.day <= c.day
    ensures c.day <= 28 ==> AddMonths(AddMonths(c, 1), -1) == c
  {
    var a := AddMonths(c, 1);
    var b := AddMonths(a, -1);
    assert b.year * 12 + b.month == c.year * 12 + c.month;
  }

  /** `prevMonth` then `nextMonth` shows the same month of the same year again. */
  lemma PrevThenNext(c: CalDate)
    requires ValidDate(c)
    ensures var b := AddMonths(AddMonths(c, -1), 1);
      b.year == c.year && b.month == c.month && b.day <= c.day
  {
    var b := AddMonths(AddMonths(c, -1), 1);
    assert b.year * 12 + b.month == c.year * 12 + c.month;
  }

  /** The navigator's state. */
  class MonthView {
    var current: CalDate
    var selected: CalDate

    /** Both the displayed month and the selection start at the given date. */
    constructor (date: CalDate)
      requires ValidDate(date)
      ensures current == date && selected == date && Valid()
    {
      current := date;
      selected := date;
    }

    predicate Valid()
      reads this
    {
      ValidDate(current) && ValidDate(selected)
    }

    /** The effect on the parent's date: the selection follows it; the displayed month stays. */
    method SyncDate(date: CalDate)
      requires ValidDate(date) && Valid()
      modifies this
      ensures selected == date && current == old(current) && Valid()
    {
      selected := date;
    }

    /** `nextMonth`. */
    method NextMonth()
      requires Valid()
      modifies this
      ensures current == AddMonths(old(current), 1) && selected == old(selected) && Valid()
    {
      current := AddMonths(current, 1);
    }

    /** `prevMonth`. */
    method PrevMonth()
      requires Valid()
      modifies this
      ensures current == AddMonths(old(current), -1) && selected == old(selected) && Valid()
    {
      current := AddMonths(current, -1);
    }

    /** `handleDateClick`: the day becomes the selection and is reported to the parent. */
    method DateClick(day: CalDate) returns (reported: CalDate)
      requires ValidDate(day) && Valid()
      modifies this
      ensures selected == day && reported == day && current == old(current) && Valid()
    {
      selected := day;
      reported := day;
    }

    /** A cell's `onClick`: only a cell of the displayed month selects and reports its day. */
    method CellClick(cell: Cell) returns (reported: Option<CalDate>)
      requires ValidDate(cell.date) && Valid()
      modifies this
      ensures cell.inMonth ==> selected == cell.date && reported == Some(cell.date)
      ensures !cell.inMonth ==> selected == old(selected) && reported.None?
      ensures current == old(current) && Valid()
    {
      if cell.inMonth {
        var day := DateClick(cell.date);
        reported := Some(day);
      } else {
        reported := None;
      }
    }

    /** The grid for the displayed month and the current selection. */
    method Render(today: CalDate, events: Option<seq<Event>>, dow: int) returns (rows: seq<seq<Cell>>)
      requires Valid() && 0 <= dow < 7
      ensures rows == Grid(current, today, selected, events, dow)
    {
      rows := RenderGrid(current, today, selected, events, dow);
    }
  }
}
