/**
 * The week strip: the seven days of the current week, Monday first, each with
 * its label, its day of the month, and a mark when a routine is logged on it.
 *
 * The clock is a parameter: `today` is the local date `new Date()` reads.
 */
module WeekCalendar {
  import opened Js
  import opened Calendar
  import opened Dates
  import LocalDb
  import DayView

  const DayLabels := ["Mon", "Tue", "Wed", "Thu", "Fri", "Sat", "Sun"]

  /** `(dow + 6) % 7`: how many days the week has run since its Monday. */
  function DaysSinceMonday(d: Date): (n: int)
    requires Valid(d)
    ensures 0 <= n < 7
  {
    (DayOfWeek(d) + 6) % 7
  }

  /** `new Date(y, m, day - (dow + 6) % 7)`. */
  function Monday(today: Date): Date
    requires Valid(today)
  {
    MakeDate(today.year, today.month, today.day - DaysSinceMonday(today))
  }

  /** `getWeekDates()`: the week read off this week's Monday. */
  function WeekDates(today: Date): (dates: seq<string>)
    requires Valid(today)
    ensures |dates| == 7
  {
    WeekFrom(Monday(today))
  }

  /** The seven days read off `monday`, each produced by `WeekCell`. */
  function WeekFrom(monday: Date): (dates: seq<string>)
    ensures |dates| == 7
  {
    seq(7, i => WeekCell(monday, i))
  }

  /** Day `i` as `YYYY-MM-DD`. */
  function WeekCell(monday: Date, i: int): string
  {
    ToLocalDateStr(CellDate(monday, i))
  }

  /** Day `i` is `new Date(y, m, day + i)` for the Monday's fields. */
  function CellDate(monday: Date, i: int): Date
  {
    MakeDate(monday.year, monday.month, monday.day + i)
  }

  lemma CellDateIs(monday: Date, i: int)
    ensures CellDate(monday, i) == MakeDate(monday.year, monday.month, monday.day + i)
  {
  }

  /** `formatDay(dateStr)`: the day of the month of `new Date(y, m - 1, d)`, `NaN` for an Invalid Date. */
  function FormatDay(dateStr: string): (r: JsValue)
    ensures r.Num? || r.NaN?
  {
    match DateOfString(dateStr)
    case None => NaN
    case Some(d) => Num(d.day)
  }

  /** A day's own `YYYY-MM-DD` string shows that day of the month. */
  lemma FormatDayOfDate(d: Date)
    requires Valid(d) && d.year >= 100
    ensures FormatDay(ToLocalDateStr(d)) == Num(d.day)
  {
    DateOfLocalDateStr(d);
  }

  /** Within a week of each other, two dates are at most one year apart. */
  lemma YearNear(a: Date, b: Date)
    requires Valid(a) && Valid(b) && DayNumber(b) - 6 <= DayNumber(a) <= DayNumber(b)
    ensures a.year >= b.year - 1
  {
    if a.year <= b.year - 2 {
      DayNumberWithinYear(a);
      DayNumberWithinYear(b);
      DaysBeforeYearMonotone(a.year + 1, b.year - 1);
      YearLength(b.year - 1);
    }
  }

  /** The first cell is the Monday on or before today: `off` days back, where `off` is the days since Monday. */
  lemma MondayStartsWeek(today: Date, off: int)
    requires Valid(today) && today.year >= 101 && off == DaysSinceMonday(today)
    ensures Monday(today) == AddDays(today, -off)
    ensures DayOfWeek(Monday(today)) == 1
    ensures Monday(today).year >= 100
  {
    MondayIs(today, off);
    MondayWeekday(today, off);
    YearNear(AddDays(today, -off), today);
  }

  lemma MondayIs(today: Date, off: int)
    requires Valid(today) && today.year >= 101 && off == DaysSinceMonday(today)
    ensures Monday(today) == AddDays(today, -off)
  {
    MondayDef(today, off);
    MakeDateBack(today, off);
  }

  lemma MondayDef(today: Date, off: int)
    requires Valid(today) && off == DaysSinceMonday(today)
    ensures Monday(today) == MakeDate(today.year, today.month, today.day - off)
  {
    assert today.day - DaysSinceMonday(today) == today.day - off;
  }

  lemma MondayWeekday(today: Date, off: int)
    requires Valid(today) && off == DaysSinceMonday(today)
    ensures DayOfWeek(AddDays(today, -off)) == 1
  {
    DayOfWeekShift(today, -off);
    BackToMonday(DayOfWeek(today), off);
  }

  /** `new Date(y, m, day - off)` is the date `off` days earlier. */
  lemma MakeDateBack(d: Date, off: int)
    requires Valid(d) && d.year >= 100
    ensures MakeDate(d.year, d.month, d.day - off) == AddDays(d, -off)
  {
    DivUnique(d.month, 12, 0, d.month);
    assert MonthStart(d.year, d.month) == Date(d.year, d.month, 1);
    DayNumberInjective(MakeDate(d.year, d.month, d.day - off), AddDays(d, -off));
  }

  /** Going back `(dow + 6) % 7` days from weekday `dow` lands on a Monday. */
  lemma BackToMonday(dow: int, off: int)
    requires 0 <= dow < 7 && off == (dow + 6) % 7
    ensures (dow + -off) % 7 == 1
  {
  }

  /**
   * A week read off a Monday holds seven consecutive days: cell `i` is the day
   * `i` days after the Monday, its weekday is Monday + `i`, and it shows that
   * day's day of the month.
   */
  lemma WeekFromMonday(monday: Date)
    requires Valid(monday) && monday.year >= 100 && DayOfWeek(monday) == 1
    ensures forall i :: 0 <= i < 7 ==>
      && WeekFrom(monday)[i] == ToLocalDateStr(AddDays(monday, i))
      && DayOfWeek(AddDays(monday, i)) == (i + 1) % 7
      && FormatDay(WeekFrom(monday)[i]) == Num(AddDays(monday, i).day)
  {
    forall i | 0 <= i < 7
      ensures && WeekFrom(monday)[i] == ToLocalDateStr(AddDays(monday, i))
        && DayOfWeek(AddDays(monday, i)) == (i + 1) % 7
        && FormatDay(WeekFrom(monday)[i]) == Num(AddDays(monday, i).day)
    {
      WeekFromAt(monday, i);
      DayAfterMonday(monday, i);
    }
  }

  lemma WeekFromAt(monday: Date, i: int)
    requires 0 <= i < 7
    ensures WeekFrom(monday)[i] == WeekCell(monday, i)
  {
  }

  /** Day `i` of the week that starts on `monday`: its date, its weekday and the day of the month it shows. */
  lemma DayAfterMonday(monday: Date, i: int)
    requires Valid(monday) && monday.year >= 100 && DayOfWeek(monday) == 1 && 0 <= i < 7
    ensures MakeDate(monday.year, monday.month, monday.day + i) == AddDays(monday, i)
    ensures WeekCell(monday, i) == ToLocalDateStr(AddDays(monday, i))
    ensures DayOfWeek(AddDays(monday, i)) == (i + 1) % 7
    ensures FormatDay(ToLocalDateStr(AddDays(monday, i))) == Num(AddDays(monday, i).day)
  {
    MakeDateShift(monday, i);
    CellDateIs(monday, i);
    DayOfWeekShift(monday, i);
    ShownDay(monday, i);
  }

  lemma ShownDay(monday: Date, i: int)
    requires Valid(monday) && monday.year >= 100 && 0 <= i
    ensures FormatDay(ToLocalDateStr(AddDays(monday, i))) == Num(AddDays(monday, i).day)
  {
    YearNearAfter(monday, AddDays(monday, i));
    FormatDayOfDate(AddDays(monday, i));
  }

  /** Label `i` is the first three letters of the name of weekday `i + 1` (Sunday wrapping round to 0). */
  lemma LabelsFromMonday()
    ensures forall i :: 0 <= i < 7 ==> DayLabels[i] == DayView.DayNames[(i + 1) % 7][..3]
  {
  }

  /** A date on or after another has at least its year. */
  lemma YearNearAfter(a: Date, b: Date)
    requires Valid(a) && Valid(b) && DayNumber(a) <= DayNumber(b)
    ensures a.year <= b.year
  {
    if b.year < a.year {
      DayNumberWithinYear(a);
      DayNumberWithinYear(b);
      DaysBeforeYearMonotone(b.year + 1, a.year);
    }
  }

  /**
   * `getWeekDates()` is the week of the Monday on or before today; today is in
   * it, at the cell its weekday puts it, and no other cell is marked as today.
   */
  lemma TodayInWeek(today: Date, off: int)
    requires Valid(today) && today.year >= 101 && off == DaysSinceMonday(today)
    ensures WeekDates(today) == WeekFrom(AddDays(today, -off))
    ensures WeekDates(today)[off] == ToLocalDateStr(today)
    ensures forall i :: 0 <= i < 7 && i != off ==> WeekDates(today)[i] != ToLocalDateStr(today)
  {
    MondayStartsWeek(today, off);
    var monday := AddDays(today, -off);
    WeekFromMonday(monday);
    var dates := WeekFrom(monday);
    assert WeekDates(today) == dates;
    DayNumberInjective(AddDays(monday, off), today);
    DateOfLocalDateStr(today);
    forall i | 0 <= i < 7 && i != off
      ensures dates[i] != ToLocalDateStr(today)
    {
      var day := AddDays(monday, i);
      YearNearAfter(monday, day);
      DateOfLocalDateStr(day);
      assert day != today by {
        assert DayNumber(day) != DayNumber(today);
      }
    }
  }

  /** `new Set(routines.where('date').anyOf(dates).map(r => r.date))`: the shown dates with a routine logged. */
  function DaysWithData(routines: seq<LocalDb.Routine>, dates: seq<string>): set<string>
  {
    set r | r in routines && r.date in dates :: r.date
  }

  /** A shown date is marked exactly when some routine is logged on that very date. */
  lemma DaysWithDataMarks(routines: seq<LocalDb.Routine>, dates: seq<string>, date: string)
    requires date in dates
    ensures date in DaysWithData(routines, dates) <==> exists k :: 0 <= k < |routines| && routines[k].date == date
  {
    if exists k :: 0 <= k < |routines| && routines[k].date == date {
      var k :| 0 <= k < |routines| && routines[k].date == date;
      assert routines[k] in routines;
    }
  }
}
