/**
 * The month grid: leading blank cells up to the weekday of the first, then one
 * `YYYY-MM-DD` cell per day of the month in a Monday-first layout; the month
 * shown and its navigation; and the has-data mark of each day.
 *
 * The clock is a parameter: the view opens on the month of the local date
 * `new Date()` reads.
 */
module MonthCalendar {
  import opened Wrappers
  import opened Js
  import opened Text
  import opened Calendar
  import opened Dates
  import LocalDb
  import WeekCalendar

  /** `new Date(year, month, 1)`. */
  function FirstDay(year: int, month: int): Date
  {
    MakeDate(year, month, 1)
  }

  /** `(firstDay.getDay() + 6) % 7`: the number of blank cells, the weekday of the first counted from Monday. */
  function StartDow(year: int, month: int): (n: int)
    ensures 0 <= n < 7
  {
    (DayOfWeek(FirstDay(year, month)) + 6) % 7
  }

  /** `new Date(year, month + 1, 0).getDate()`: the last day of the month. */
  function LastDay(year: int, month: int): (n: int)
    ensures n >= 1
  {
    MakeDate(year, month + 1, 0).day
  }

  /**
   * The grid of a month: `StartDow` blank cells, then the `YYYY-MM-DD` string of
   * `new Date(year, month, d)` for every day `d` from 1 to the last, in order.
   */
  predicate IsGrid(year: int, month: int, cells: seq<Option<string>>)
  {
    Layout(StartDow(year, month), LastDay(year, month), year, month, cells)
  }

  /** `startDow` blanks, then the cells of days 1 to `lastDay`. */
  predicate Layout(startDow: nat, lastDay: nat, year: int, month: int, cells: seq<Option<string>>)
  {
    && |cells| == startDow + lastDay
    && (forall i :: 0 <= i < startDow ==> cells[i] == None)
    && (forall d :: 1 <= d <= lastDay ==> cells[startDow + d - 1] == DayCell(year, month, d))
  }

  /** The cell of day `d`: `toLocalDateStr(new Date(year, month, d))`. */
  function DayCell(year: int, month: int, d: int): Option<string>
  {
    Some(ToLocalDateStr(MakeDate(year, month, d)))
  }

  /** `getMonthGrid(year, month)`: the weekday of the first and the last day, then the cells. */
  method GetMonthGrid(year: int, month: int) returns (cells: seq<Option<string>>)
    ensures IsGrid(year, month, cells)
  {
    var startDow := StartDow(year, month);
    var lastDay := LastDay(year, month);
    var cell := d => DayCell(year, month, d);
    cells := FillGrid(startDow, lastDay, cell);
    forall d | 1 <= d <= lastDay
      ensures cells[startDow + d - 1] == DayCell(year, month, d)
    {
      assert cells[startDow + d - 1] == cell(d);
    }
  }

  /** The two loops of `getMonthGrid`: `startDow` blanks, then the cells of days 1 to `lastDay`. */
  method FillGrid(startDow: nat, lastDay: nat, cell: int -> Option<string>) returns (cells: seq<Option<string>>)
    ensures |cells| == startDow + lastDay
    ensures forall i :: 0 <= i < startDow ==> cells[i] == None
    ensures forall d :: 1 <= d <= lastDay ==> cells[startDow + d - 1] == cell(d)
  {
    cells := [];
    for i := 0 to startDow
      invariant |cells| == i
      invariant forall j :: 0 <= j < i ==> cells[j] == None
    {
      cells := cells + [None];
    }
    for d := 1 to lastDay + 1
      invariant |cells| == startDow + d - 1
      invariant forall j :: 0 <= j < startDow ==> cells[j] == None
      invariant forall e :: 1 <= e < d ==> cells[startDow + e - 1] == cell(e)
    {
      cells := cells + [cell(d)];
    }
  }

  /**
   * The day cells are the days of the month the view shows, first to last: day
   * `d` of month `MonthStart(year, month)`, for every `d` up to its length.
   */
  lemma GridIsMonth(year: int, month: int)
    ensures var s := MonthStart(year, month);
      && LastDay(year, month) == DaysInMonth(s.year, s.month)
      && forall d :: 1 <= d <= LastDay(year, month) ==> MakeDate(year, month, d) == Date(s.year, s.month, d)
  {
    var s := MonthStart(year, month);
    LastDayOfMonth(year, month);
    forall d | 1 <= d <= LastDay(year, month)
      ensures MakeDate(year, month, d) == Date(s.year, s.month, d)
    {
      MakeDateInMonth(year, month, d);
    }
  }

  /** Each day sits in the column of its own weekday, counted from Monday. */
  lemma GridColumns(year: int, month: int)
    ensures forall d :: 1 <= d <= LastDay(year, month) ==>
      (StartDow(year, month) + d - 1) % 7 == (DayOfWeek(MakeDate(year, month, d)) + 6) % 7
  {
    forall d | 1 <= d <= LastDay(year, month)
      ensures (StartDow(year, month) + d - 1) % 7 == (DayOfWeek(MakeDate(year, month, d)) + 6) % 7
    {
      DayColumn(year, month, d);
    }
  }

  lemma DayColumn(year: int, month: int, d: int)
    requires d >= 1
    ensures (StartDow(year, month) + d - 1) % 7 == (DayOfWeek(MakeDate(year, month, d)) + 6) % 7
  {
    var first := FirstDay(year, month);
    DayFromFirst(year, month, d);
    ColumnOf(first, d - 1);
  }

  /** `new Date(year, month, d)` is `d - 1` days after `new Date(year, month, 1)`. */
  lemma DayFromFirst(year: int, month: int, d: int)
    ensures MakeDate(year, month, d) == AddDays(FirstDay(year, month), d - 1)
  {
    DayNumberInjective(MakeDate(year, month, d), AddDays(FirstDay(year, month), d - 1));
  }

  lemma ColumnOf(first: Date, k: int)
    requires Valid(first) && k >= 0
    ensures ((DayOfWeek(first) + 6) % 7 + k) % 7 == (DayOfWeek(AddDays(first, k)) + 6) % 7
  {
    DayOfWeekShift(first, k);
    ColumnShift(DayOfWeek(first), k);
  }

  /** Shifting a Sunday-first weekday by `k` days and then to Monday-first is the same as the other way round. */
  lemma ColumnShift(w: int, k: int)
    requires 0 <= w < 7 && k >= 0
    ensures ((w + 6) % 7 + k) % 7 == ((w + k) % 7 + 6) % 7
  {
    DivUnique(w + 6, 7, (w + 6) / 7, (w + 6) % 7);
    var a := (w + 6) % 7 + k;
    var b := (w + k) % 7 + 6;
    DivUnique(w + k, 7, (w + k) / 7, (w + k) % 7);
    assert a - b == 7 * ((w + k) / 7 - (w + 6) / 7);
    DivUnique(a, 7, b / 7 + (w + k) / 7 - (w + 6) / 7, b % 7);
  }

  /** `date.slice(begin, end)` for `0 <= begin <= end`: positions past the end are clamped. */
  function Slice(s: string, begin: nat, end: nat): (r: string)
    requires begin <= end
    ensures |s| >= end ==> r == s[begin..end]
    ensures |r| <= end - begin
  {
    var e := if end <= |s| then end else |s|;
    var b := if begin <= e then begin else e;
    s[b..e]
  }

  /**
   * The number in a day cell: `getDate()` of `new Date(Number(date.slice(0, 4)),
   * Number(date.slice(5, 7)) - 1, Number(date.slice(8, 10)))`, `NaN` for an
   * Invalid Date.
   */
  function CellDay(date: string): (r: JsValue)
    ensures r.Num? || r.NaN?
  {
    DayOfFields(ToNumber(Str(Slice(date, 0, 4))), ToNumber(Str(Slice(date, 5, 7))), ToNumber(Str(Slice(date, 8, 10))))
  }

  /** `new Date(y, m - 1, d).getDate()` for three numbers. */
  function DayOfFields(y: JsValue, m: JsValue, d: JsValue): JsValue
  {
    if y.Num? && m.Num? && d.Num? then Num(MakeDate(y.n, m.n - 1, d.n).day) else NaN
  }

  /** The cell of a date with a four-digit year shows that date's day of the month. */
  lemma CellDayOfDate(d: Date)
    requires Valid(d) && 1000 <= d.year <= 9999
    ensures CellDay(ToLocalDateStr(d)) == Num(d.day)
  {
    CellFields(d);
    MakeDateOfValid(d);
    assert MakeDate(d.year, d.month + 1 - 1, d.day) == d;
  }

  /** The three slices of a date string with a four-digit year read back as its year, month number and day. */
  lemma CellFields(d: Date)
    requires Valid(d) && 1000 <= d.year <= 9999
    ensures CellDay(ToLocalDateStr(d)) == DayOfFields(Num(d.year), Num(d.month + 1), Num(d.day))
  {
    DateStrParts(d);
    FieldsRead(NatToString(d.year), PadTwo(NatToString(d.month + 1)), PadTwo(NatToString(d.day)), d.year, d.month + 1, d.day);
  }

  lemma DateStrParts(d: Date)
    requires Valid(d) && 1000 <= d.year <= 9999
    ensures var y := NatToString(d.year);
      var m := PadTwo(NatToString(d.month + 1));
      var dd := PadTwo(NatToString(d.day));
      && ToLocalDateStr(d) == y + "-" + m + "-" + dd
      && |y| == 4 && |m| == 2 && |dd| == 2
      && StringToNumber(y) == Some(d.year) && StringToNumber(m) == Some(d.month + 1) && StringToNumber(dd) == Some(d.day)
  {
    LocalDateStrPieces(d);
    FourDigits(d.year);
    PadTwoDigits(d.month + 1);
    PadTwoDigits(d.day);
    YearNumber(d.year);
  }

  lemma YearNumber(year: nat)
    ensures StringToNumber(NatToString(year)) == Some(year)
  {
    DecimalRoundTrip(year);
    StringToNumberOfDigits(NatToString(year));
  }

  lemma FieldsRead(y: string, m: string, dd: string, year: int, month: int, day: int)
    requires |y| == 4 && |m| == 2 && |dd| == 2
    requires StringToNumber(y) == Some(year) && StringToNumber(m) == Some(month) && StringToNumber(dd) == Some(day)
    ensures CellDay(y + "-" + m + "-" + dd) == DayOfFields(Num(year), Num(month), Num(day))
  {
    SlicesOfDateStr(y, m, dd);
  }

  lemma SlicesOfDateStr(y: string, m: string, d: string)
    requires |y| == 4 && |m| == 2 && |d| == 2
    ensures var s := y + "-" + m + "-" + d;
      Slice(s, 0, 4) == y && Slice(s, 5, 7) == m && Slice(s, 8, 10) == d
  {
    var s := y + "-" + m + "-" + d;
    assert s[0..4] == y;
    assert s[5..7] == m;
    assert s[8..10] == d;
  }

  /** In a month of a four-digit year, the cell of day `d` shows `d`. */
  lemma GridShowsDays(year: int, month: int)
    requires 1000 <= MonthStart(year, month).year <= 9999
    ensures forall d :: 1 <= d <= LastDay(year, month) ==> CellDay(ToLocalDateStr(MakeDate(year, month, d))) == Num(d)
  {
    GridIsMonth(year, month);
    forall d | 1 <= d <= LastDay(year, month)
      ensures CellDay(ToLocalDateStr(MakeDate(year, month, d))) == Num(d)
    {
      CellDayOfDate(MakeDate(year, month, d));
    }
  }

  // ---------------------------------------------------------------- has-data

  /** `cells.filter(Boolean)`: the date cells in grid order (a date string is never empty). */
  function AllDates(cells: seq<Option<string>>): (dates: seq<string>)
    ensures forall date :: date in dates <==> Some(date) in cells
  {
    if cells == [] then []
    else (if cells[0].Some? then [cells[0].value] else []) + AllDates(cells[1..])
  }

  /** A day cell is marked exactly when some routine is logged on that day; the query covers every day cell. */
  lemma CellMarked(routines: seq<LocalDb.Routine>, cells: seq<Option<string>>, i: int)
    requires 0 <= i < |cells| && cells[i].Some?
    ensures cells[i].value in WeekCalendar.DaysWithData(routines, AllDates(cells))
        <==> exists k :: 0 <= k < |routines| && routines[k].date == cells[i].value
  {
    assert Some(cells[i].value) in cells;
    WeekCalendar.DaysWithDataMarks(routines, AllDates(cells), cells[i].value);
  }

  // ---------------------------------------------------------------- navigation

  /** The month before: `y * 12 + m` steps down by one, with `m` kept in `0..11`. */
  function PrevOf(year: int, month: int): (r: (int, int))
    requires 0 <= month < 12
    ensures 0 <= r.1 < 12 && r.0 * 12 + r.1 == year * 12 + month - 1
  {
    if month == 0 then (year - 1, 11) else (year, month - 1)
  }

  /** The month after: `y * 12 + m` steps up by one, with `m` kept in `0..11`. */
  function NextOf(year: int, month: int): (r: (int, int))
    requires 0 <= month < 12
    ensures 0 <= r.1 < 12 && r.0 * 12 + r.1 == year * 12 + month + 1
  {
    if month == 11 then (year + 1, 0) else (year, month + 1)
  }

  /** `prevMonth` and `nextMonth` undo each other. */
  lemma PrevNextInverse(year: int, month: int)
    requires 0 <= month < 12
    ensures NextOf(PrevOf(year, month).0, PrevOf(year, month).1) == (year, month)
    ensures PrevOf(NextOf(year, month).0, NextOf(year, month).1) == (year, month)
  {
  }

  /** Outside the two-digit years, the month after begins on the day after this month's last day. */
  lemma NextMonthFollows(year: int, month: int)
    requires 0 <= month < 12 && year >= 100
    ensures var n := NextOf(year, month);
      && MonthStart(n.0, n.1) == Date(n.0, n.1, 1)
      && DayNumber(MonthStart(n.0, n.1)) == DayNumber(Date(year, month, DaysInMonth(year, month))) + 1
  {
    var n := NextOf(year, month);
    DivUnique(month, 12, 0, month);
    DivUnique(n.1, 12, 0, n.1);
    DivUnique(month + 1, 12, if month == 11 then 1 else 0, if month == 11 then 0 else month + 1);
    var start := MonthStart(n.0, n.1);
    assert MonthStart(year, month + 1) == start == Date(n.0, n.1, 1);
    assert MonthStart(year, month) == Date(year, month, 1);
    LastDayOfMonth(year, month);
    var last := MakeDate(year, month + 1, 0);
    assert last == Date(year, month, DaysInMonth(year, month));
    assert DayNumber(last) == DayNumber(start) - 1;
  }

  /** The month on show: `year` and `month` (0 = January) as the component's state holds them. */
  class MonthView {
    var year: int
    var month: int

    predicate InRange()
      reads this
    {
      0 <= month < 12
    }

    /** The view opens on the current month. */
    constructor(now: Date)
      requires Valid(now)
      ensures InRange() && year == now.year && month == now.month
    {
      year := now.year;
      month := now.month;
    }

    /** `prevMonth()`: January goes to December of the year before. */
    method PrevMonth()
      requires InRange()
      modifies this
      ensures InRange() && (year, month) == PrevOf(old(year), old(month))
    {
      if month == 0 {
        year := year - 1;
        month := 11;
      } else {
        month := month - 1;
      }
    }

    /** `nextMonth()`: December goes to January of the year after. */
    method NextMonth()
      requires InRange()
      modifies this
      ensures InRange() && (year, month) == NextOf(old(year), old(month))
    {
      if month == 11 {
        year := year + 1;
        month := 0;
      } else {
        month := month + 1;
      }
    }

    /** The cells drawn for the month on show. */
    method Cells() returns (cells: seq<Option<string>>)
      ensures IsGrid(year, month, cells)
    {
      cells := GetMonthGrid(year, month);
    }
  }
}
