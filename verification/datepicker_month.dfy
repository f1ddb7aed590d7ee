/** moveMonth and moveYear of the date picker. */
module DatepickerMonth {
  import opened Calendar

  /** The month so many months away, with the day clamped to its length. */
  function MonthsAway(c: Civil, k: int): (r: Civil)
    requires IsDate(c)
    ensures IsDate(r)
  {
    var months := 12 * c.year + c.month + k;
    var y, m := months / 12, months % 12;
    Civil(y, m, if c.day <= DaysInMonth(y, m) then c.day else DaysInMonth(y, m))
  }

  /** A day too large for a month is in the next month, and that one is long enough for the day before it. */
  lemma TooLarge(year: int, month: int, day: int)
    requires 0 <= month < 12 && 1 <= day <= 31
    ensures Normalize(year, month, day).month == month <==> day <= DaysInMonth(year, month)
    ensures day <= DaysInMonth(year, month) ==> Normalize(year, month, day) == Civil(year, month, day)
    ensures day > DaysInMonth(year, month) ==>
              && month < 11 && Normalize(year, month, day) == Civil(year, month + 1, day - DaysInMonth(year, month))
              && Normalize(year, month + 1, day - 1) == Civil(year, month + 1, day - 1)
  {
    if day > DaysInMonth(year, month) {
      ShortMonth(year, month);
    }
  }

  /** The day of some months away is never more than that month has, nor than it was. */
  lemma ClampedDay(c: Civil, k: int, day: int)
    requires IsDate(c) && MonthsAway(c, k).day <= day <= c.day
    ensures day <= DaysInMonth(MonthsAway(c, k).year, MonthsAway(c, k).month) <==> day == MonthsAway(c, k).day
    ensures 1 <= day <= 31
  {
  }

  lemma NoMonthAway(c: Civil)
    requires IsDate(c)
    ensures MonthsAway(c, 0) == c
  {
  }

  lemma MonthsAwayMonth(c: Civil, k: int)
    requires IsDate(c)
    ensures 12 * MonthsAway(c, k).year + MonthsAway(c, k).month == 12 * c.year + c.month + k
            && MonthsAway(c, k).day <= c.day
    ensures MonthsAway(c, k).day < c.day ==> !IsDate(MonthsAway(c, k).(day := MonthsAway(c, k).day + 1))
  {
  }

  /** One month away, as setUTCMonth goes there. */
  lemma OneAway(c: Civil, step: int)
    requires IsDate(c) && (step == 1 || step == -1)
    ensures
      var r := MonthsAway(c, step);
      && r.year == c.year + (c.month + step) / 12 && r.month == (c.month + step) % 12 && r.day <= c.day
      && r.month == (if c.month + step < 0 || c.month + step > 11 then (c.month + step + 12) % 12 else c.month + step)
      && (step == -1 ==> r.month != c.month && (r.month < 11 ==> r.month + 1 == c.month))
  {
    assert 12 * c.year + c.month + step == 12 * (c.year + (c.month + step) / 12) + (c.month + step) % 12;
  }

  /** moveMonth( date, dir ), for any integer dir. */
  method MoveMonth(date: Date, dir: int) returns (moved: Date)
    ensures dir == 0 ==> moved == date
    ensures dir != 0 ==> fresh(moved)
    ensures moved.Civil() == MonthsAway(date.Civil(), dir)
    decreases if dir < 0 then -dir else dir
  {
    hide Normalize, FromDay, DaysInMonth, MonthsAway;
    if dir == 0 {
      NoMonthAway(date.Civil());
      return date;
    }
    moved := new Date(date.time);
    var c := moved.Civil();
    var mag := if dir < 0 then -dir else dir;
    var step := if dir > 0 then 1 else -1;
    var newMonth: int;
    if mag == 1 {
      OneAway(c, step);
      newMonth := c.month + step;
      moved.SetUTCMonth(newMonth);
      if newMonth < 0 || newMonth > 11 {
        newMonth := (newMonth + 12) % 12;
      }
    } else {
      moved := MoveOneByOne(moved, mag, step);
      MonthsAwayMonth(c, dir);
      newMonth := moved.Civil().month;
      moved.SetUTCDate(c.day);
    }
    ResetDay(moved, c, mag == 1 && step == -1, newMonth, dir);
  }

  /** The loop that moves one month at a time; what becomes of the day does not matter. */
  method MoveOneByOne(date: Date, mag: nat, step: int) returns (moved: Date)
    requires mag > 1 && (step == 1 || step == -1)
    ensures fresh(moved)
    ensures moved.Civil().year == MonthsAway(date.Civil(), mag * step).year
    ensures moved.Civil().month == MonthsAway(date.Civil(), mag * step).month
    decreases mag, 0
  {
    hide Normalize, FromDay, DaysInMonth, MonthsAway;
    var c := date.Civil();
    MonthsAwayMonth(c, mag * step);
    moved := date;
    for i := 0 to mag
      invariant i > 0 ==> fresh(moved)
      invariant 12 * moved.Civil().year + moved.Civil().month == 12 * c.year + c.month + i * step
    {
      MonthsAwayMonth(moved.Civil(), step);
      moved := MoveMonth(moved, step);
    }
  }

  /** The loop that resets the day: the day before, until it is in the new month. */
  method ResetDay(moved: Date, c: Civil, back: bool, newMonth: int, dir: int)
    requires IsDate(c) && newMonth == MonthsAway(c, dir).month && (back ==> dir == -1)
    requires moved.Civil() == Normalize(MonthsAway(c, dir).year, newMonth, c.day) && MonthsAway(c, dir).day <= c.day
    modifies moved
    ensures moved.Civil() == MonthsAway(c, dir)
  {
    hide Normalize, FromDay, DaysInMonth, MonthsAway;
    var target := MonthsAway(c, dir);
    var day := c.day;
    OneAway(c, -1);
    ClampedDay(c, dir, day);
    TooLarge(target.year, newMonth, day);
    while if back then moved.Civil().month == c.month else newMonth != moved.Civil().month
      invariant target.day <= day <= c.day && moved.Civil() == Normalize(target.year, newMonth, day)
      invariant 1 <= day <= 31 && (day <= DaysInMonth(target.year, newMonth) <==> day == target.day)
      invariant moved.Civil().month == newMonth <==> day == target.day
      invariant moved.Civil().month == newMonth || (newMonth < 11 && moved.Civil().month == newMonth + 1)
      decreases day
    {
      TooLarge(target.year, newMonth, day);
      day := day - 1;
      moved.SetUTCDate(day);
      moved.SetUTCMonth(newMonth);
      ClampedDay(c, dir, day);
      TooLarge(target.year, newMonth, day);
    }
    TooLarge(target.year, newMonth, day);
  }

  /** moveYear( date, dir ). */
  method MoveYear(date: Date, dir: int) returns (moved: Date)
    ensures dir == 0 ==> moved == date
    ensures dir != 0 ==> fresh(moved)
    ensures moved.Civil() == MonthsAway(date.Civil(), 12 * dir)
  {
    moved := MoveMonth(date, dir * 12);
  }

  /** Twelve months are a year: only the 29th of February may change. */
  lemma YearsAway(c: Civil, k: int)
    requires IsDate(c)
    ensures MonthsAway(c, 12 * k) ==
              if c.month == 1 && c.day == 29 && !IsLeapYear(c.year + k) then Civil(c.year + k, 1, 28)
              else Civil(c.year + k, c.month, c.day)
  {
    assert (12 * c.year + c.month + 12 * k) / 12 == c.year + k;
  }

  /** Going and coming back meets the same month, and the same day unless it was clamped on the way. */
  lemma ThereAndBack(c: Civil, k: int)
    requires IsDate(c)
    ensures
      var back := MonthsAway(MonthsAway(c, k), -k);
      back.year == c.year && back.month == c.month && (back == c <==> MonthsAway(c, k).day == c.day)
  {
    var there := MonthsAway(c, k);
    assert 12 * there.year + there.month == 12 * c.year + c.month + k;
  }

  /** The day is clamped once: one long move is not many short ones. */
  lemma ClampedOnce(c: Civil, j: int, k: int)
    requires IsDate(c)
    ensures
      var far := MonthsAway(c, j + k);
      var steps := MonthsAway(MonthsAway(c, j), k);
      && far.year == steps.year && far.month == steps.month
      && steps.day == if MonthsAway(c, j).day < far.day then MonthsAway(c, j).day else far.day
  {
    var there := MonthsAway(c, j);
    assert 12 * there.year + there.month == 12 * c.year + c.month + j;
  }
}
