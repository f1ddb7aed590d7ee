/** The page of days the date picker shows for a month, and the date a click on one of its cells stands for. */
module DatepickerGrid {
  import opened Calendar

  datatype Class = Old | Plain | New

  /** What a cell keeps of its date. */
  datatype Cell = Cell(text: int, mark: Class)

  /** The class getClassNames gives for the month that is shown. */
  function ClassOf(view: Civil, date: Civil): Class {
    if date.year < view.year || (date.year == view.year && date.month < view.month) then Old
    else if date.year > view.year || (date.year == view.year && date.month > view.month) then New
    else Plain
  }

  /** The first day on the page: the last day of the month before, or the latest day before it that begins a week. */
  function GridStart(view: Civil, weekStart: int): int {
    var last := UTCDate(view.year, view.month, 0);
    last - (WeekDay(last) - weekStart + 7) % 7
  }

  /** UTCDate takes the year for one of the twentieth century. */
  predicate Misread(year: int) {
    0 <= year <= 99
  }

  lemma LastOfPrevious(year: int, month: int)
    requires 0 <= month < 12
    ensures
      var before := Normalize(year + (month - 1) / 12, (month - 1) % 12, 28);
      && before.year == year + (month - 1) / 12 && before.month == (month - 1) % 12
      && MakeDay(before.year, before.month, DaysInMonth(before.year, before.month)) == MakeDay(year, month, 0)
  {
    hide MakeDay;
    if month == 0 {
      assert (month - 1) / 12 == -1 && (month - 1) % 12 == 11;
      MakeDayNext(year - 1, 11, DaysInMonth(year - 1, 11));
      MakeDayCarries(year - 1, 12, 0);
    } else {
      assert (month - 1) / 12 == 0 && (month - 1) % 12 == month - 1;
      MakeDayNext(year, month - 1, DaysInMonth(year, month - 1));
    }
  }

  /** Moves a date by days. */
  method AddDays(date: Date, k: int)
    modifies date
    ensures date.time == old(date.time) + k
  {
    hide FromDay, Normalize;
    FromDayInverts(date.time);
    date.SetUTCDate(date.Civil().day + k);
  }

  /** fill: 42 cells for consecutive days from the start of the page. */
  method Fill(viewDate: Date, weekStart: int) returns (cells: seq<Cell>)
    requires 0 <= weekStart <= 6
    ensures |cells| == 42
    ensures
      var start := GridStart(viewDate.Civil(), weekStart);
      forall i :: 0 <= i < 42 ==>
        cells[i] == Cell(FromDay(start + i).day, ClassOf(viewDate.Civil(), FromDay(start + i)))
  {
    hide FromDay, MakeDay, Normalize, ClassOf;
    var view := viewDate.Civil();
    LastOfPrevious(UTCYear(view.year), view.month);
    MakeDayDate(UTCYear(view.year), view.month - 1, 28);
    var prevMonth := new Date(UTCDate(view.year, view.month - 1, 28));
    var day := DaysInMonth(prevMonth.Civil().year, prevMonth.Civil().month);
    prevMonth.SetUTCDate(day);
    AddDays(prevMonth, -((WeekDay(prevMonth.time) - weekStart + 7) % 7));
    ghost var start := prevMonth.time;
    assert start == GridStart(view, weekStart);
    var nextMonth := new Date(prevMonth.time);
    AddDays(nextMonth, 42);
    cells := [];
    while prevMonth.time < nextMonth.time
      invariant prevMonth.time == start + |cells| <= nextMonth.time == start + 42 && viewDate.Civil() == view
      invariant fresh(prevMonth) && fresh(nextMonth) && prevMonth != nextMonth
      invariant forall i :: 0 <= i < |cells| ==>
                  cells[i] == Cell(FromDay(start + i).day, ClassOf(view, FromDay(start + i)))
      decreases nextMonth.time - prevMonth.time
    {
      cells := cells + [Cell(prevMonth.Civil().day, ClassOf(view, prevMonth.Civil()))];
      AddDays(prevMonth, 1);
    }
  }

  // ---------- what the page shows ----------

  /** The date of a cell. */
  function CellDate(view: Civil, weekStart: int, i: int): (date: Civil)
    ensures IsDate(date)
  {
    FromDay(GridStart(view, weekStart) + i)
  }

  /** How many days of the month before come first. */
  function Lead(view: Civil, weekStart: int): int {
    MakeDay(view.year, view.month, 1) - GridStart(view, weekStart)
  }

  function MonthBefore(c: Civil): (int, int) {
    if c.month == 0 then (c.year - 1, 11) else (c.year, c.month - 1)
  }

  function MonthAfter(c: Civil): (int, int) {
    if c.month == 11 then (c.year + 1, 0) else (c.year, c.month + 1)
  }

  lemma PageStarts(view: Civil, weekStart: int)
    requires IsDate(view) && 0 <= weekStart <= 6 && !Misread(view.year)
    ensures 1 <= Lead(view, weekStart) <= 7 && WeekDay(GridStart(view, weekStart)) == weekStart
  {
    var last := UTCDate(view.year, view.month, 0);
    assert MakeDay(view.year, view.month, 1) == last + 1;
    WeekBegins(last, weekStart);
  }

  lemma WeekBegins(last: int, weekStart: int)
    requires 0 <= weekStart <= 6
    ensures var back := (WeekDay(last) - weekStart + 7) % 7; 0 <= back <= 6 && WeekDay(last - back) == weekStart
  {
  }

  /** The page, cell by cell: the end of the month before, the whole month, and the beginning of the month after,
      each day with its class. */
  lemma PageShows(view: Civil, weekStart: int, i: int)
    requires IsDate(view) && 0 <= weekStart <= 6 && !Misread(view.year) && 0 <= i < 42
    ensures
      var date := CellDate(view, weekStart, i);
      var lead, length := Lead(view, weekStart), DaysInMonth(view.year, view.month);
      && 1 <= lead <= 7 && lead + length < 42
      && (if i < lead then
            var (y, m) := MonthBefore(view);
            date == Civil(y, m, DaysInMonth(y, m) - lead + 1 + i) && ClassOf(view, date) == Old
          else if i < lead + length then
            date == Civil(view.year, view.month, i - lead + 1) && ClassOf(view, date) == Plain
          else
            var (y, m) := MonthAfter(view);
            date == Civil(y, m, i - lead - length + 1) && ClassOf(view, date) == New)
  {
    hide FromDay, MakeDay, GridStart;
    PageStarts(view, weekStart);
    var day := 1 - Lead(view, weekStart) + i;
    SameMonth(view, day);
    MakeDayDate(view.year, view.month, day);
    assert view.month / 12 == 0 && view.month % 12 == view.month;
  }

  lemma SameMonth(view: Civil, day: int)
    requires IsDate(view)
    ensures MakeDay(view.year, view.month, day) == MakeDay(view.year, view.month, 1) + day - 1
  {
  }

  /** The month is on its page exactly when its year is not one that UTCDate misreads. */
  lemma MonthIsShown(view: Civil, weekStart: int)
    requires IsDate(view) && 0 <= weekStart <= 6
    ensures (exists i :: 0 <= i < 42 && ClassOf(view, CellDate(view, weekStart, i)) == Plain) <==> !Misread(view.year)
  {
    hide CellDate, ClassOf;
    if Misread(view.year) {
      forall i | 0 <= i < 42 ensures ClassOf(view, CellDate(view, weekStart, i)) != Plain {
        CenturyOff(view, weekStart, i);
      }
    } else {
      PageShows(view, weekStart, 7);
      assert ClassOf(view, CellDate(view, weekStart, 7)) == Plain;
    }
  }

  /** For a year from 0 to 99 every day on the page is of another century. */
  lemma CenturyOff(view: Civil, weekStart: int, i: int)
    requires IsDate(view) && 0 <= weekStart <= 6 && Misread(view.year) && 0 <= i < 42
    ensures ClassOf(view, CellDate(view, weekStart, i)) == New
  {
    hide FromDay, MakeDay, DaysInMonth, WeekDay;
    var shown := Civil(view.year + 1900, view.month, 1);
    PageShows(shown, weekStart, i);
    assert GridStart(view, weekStart) == GridStart(shown, weekStart);
  }

  // ---------- clicking ----------

  /** The date a click on a cell sets. */
  method Click(viewDate: Date, cell: Cell) returns (date: Date)
    requires 1 <= cell.text
    ensures fresh(date) && date.time == ClickTime(viewDate.Civil(), cell)
  {
    var year, month := viewDate.Civil().year, viewDate.Civil().month;
    if cell.mark == Old {
      if month == 0 {
        month := 11;
        year := year - 1;
      } else {
        month := month - 1;
      }
    } else if cell.mark == New {
      if month == 11 {
        month := 0;
        year := year + 1;
      } else {
        month := month + 1;
      }
    }
    date := new Date(UTCDate(year, month, cell.text));
  }

  function ClickTime(view: Civil, cell: Cell): int {
    var (y, m) := match cell.mark
                  case Old => MonthBefore(view)
                  case New => MonthAfter(view)
                  case Plain => (view.year, view.month);
    UTCDate(y, m, cell.text)
  }

  /** When clicking a cell gives back its date. On the page of a month that UTCDate can name, every cell does whose
      own year it can name too. A month it misreads shows a page of the century it takes it for, all of it marked as
      new: there the cells of the next month do, as long as its year is misread as well. */
  predicate ClicksBack(view: Civil, date: Civil) {
    if Misread(view.year) then
      (date.year, date.month) == MonthAfter(view.(year := UTCYear(view.year))) && Misread(MonthAfter(view).0)
    else !Misread(date.year)
  }

  /** Clicking a cell gives back its date exactly when ClicksBack says so, on the page of any month. */
  lemma ClickGivesDate(view: Civil, weekStart: int, i: int)
    requires IsDate(view) && 0 <= weekStart <= 6 && 0 <= i < 42
    ensures
      var date := CellDate(view, weekStart, i);
      ClickTime(view, Cell(date.day, ClassOf(view, date))) == GridStart(view, weekStart) + i <==> ClicksBack(view, date)
  {
    hide FromDay, MakeDay, GridStart, DaysInMonth;
    if Misread(view.year) {
      CenturyOff(view, weekStart, i);
      ClickMisread(view, weekStart, i);
    } else {
      ClickNamed(view, weekStart, i);
    }
  }

  lemma ClickNamed(view: Civil, weekStart: int, i: int)
    requires IsDate(view) && 0 <= weekStart <= 6 && !Misread(view.year) && 0 <= i < 42
    ensures
      var date := CellDate(view, weekStart, i);
      ClickTime(view, Cell(date.day, ClassOf(view, date))) == GridStart(view, weekStart) + i <==> !Misread(date.year)
  {
    hide FromDay, MakeDay, GridStart, DaysInMonth;
    var time := GridStart(view, weekStart) + i;
    var date := FromDay(time);
    PageShows(view, weekStart, i);
    FromDayInverts(time);
    if Misread(date.year) {
      LongMonth(date);
      DaysInOrder(date, Civil(1900 + date.year, date.month, date.day));
    }
  }

  lemma ClickMisread(view: Civil, weekStart: int, i: int)
    requires IsDate(view) && 0 <= weekStart <= 6 && Misread(view.year) && 0 <= i < 42
    ensures
      var date := CellDate(view, weekStart, i);
      ClickTime(view, Cell(date.day, New)) == GridStart(view, weekStart) + i <==> ClicksBack(view, date)
  {
    hide FromDay, MakeDay, GridStart, DaysInMonth, ClassOf;
    var shown := Civil(UTCYear(view.year), view.month, 1);
    var time := GridStart(view, weekStart) + i;
    var date := FromDay(time);
    SamePage(view, weekStart);
    PageShows(shown, weekStart, i);
    FromDayInverts(time);
    var (y, m) := MonthAfter(view);
    var first := Civil(UTCYear(y), m, 1);
    SameMonth(first, date.day);
    if (date.year, date.month) == (first.year, first.month) {
      assert ClickTime(view, Cell(date.day, New)) == MakeDay(date.year, date.month, date.day);
    } else if Before(date, first) {
      DaysInOrder(date, first);
    } else {
      LongJanuary(date, 100);
      DaysInOrder(Civil(100, 0, date.day), date);
    }
  }

  lemma SamePage(view: Civil, weekStart: int)
    requires IsDate(view) && Misread(view.year)
    ensures GridStart(view, weekStart) == GridStart(Civil(UTCYear(view.year), view.month, 1), weekStart)
  {
    hide MakeDay, WeekDay;
  }

  lemma LongJanuary(c: Civil, year: int)
    requires IsDate(c)
    ensures IsDate(Civil(year, 0, c.day))
  {
  }

  lemma LongMonth(c: Civil)
    requires IsDate(c) && (c.month == 0 || c.month == 11)
    ensures IsDate(c.(year := 1900 + c.year))
  {
  }

  /** A page is filled and one of its cells is clicked: the date of the cell is set. */
  method FillAndClick(viewDate: Date, weekStart: int, i: nat) returns (cells: seq<Cell>, date: Date)
    requires 0 <= weekStart <= 6 && i < 42
    ensures |cells| == 42 && cells[i].text == CellDate(viewDate.Civil(), weekStart, i).day
    ensures
      var shown := CellDate(viewDate.Civil(), weekStart, i);
      date.Civil() == shown <==> ClicksBack(viewDate.Civil(), shown)
  {
    hide FromDay, GridStart, ClassOf, ClickTime, ClicksBack;
    cells := Fill(viewDate, weekStart);
    ClickGivesDate(viewDate.Civil(), weekStart, i);
    date := Click(viewDate, cells[i]);
    FromDayInverts(date.time);
    FromDayInverts(GridStart(viewDate.Civil(), weekStart) + i);
  }
}
