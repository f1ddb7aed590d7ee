/** Dates as JavaScript keeps them: a day number, read and written through the Gregorian calendar. The rules are
    those of section 15.9.1 of ECMA-262 edition 5.1, without the time within a day. */
module Calendar {

  /** Months count from zero. */
  datatype Civil = Civil(year: int, month: int, day: int)

  predicate IsLeapYear(year: int) {
    (year % 4 == 0 && year % 100 != 0) || year % 400 == 0
  }

  function DaysInMonth(year: int, month: int): (n: nat)
    requires 0 <= month < 12
    ensures 28 <= n <= 31
  {
    if month == 1 then if IsLeapYear(year) then 29 else 28
    else if month == 3 || month == 5 || month == 8 || month == 10 then 30
    else 31
  }

  predicate IsDate(c: Civil) {
    0 <= c.month < 12 && 1 <= c.day <= DaysInMonth(c.year, c.month)
  }

  // ---------- day numbers ----------

  /** Day 0 is the first of January 1970. */
  function DayFromYear(year: int): int {
    365 * (year - 1970) + (year - 1969) / 4 - (year - 1901) / 100 + (year - 1601) / 400
  }

  function DaysBeforeMonth(year: int, month: nat): nat
    requires month <= 12
  {
    if month == 0 then 0 else DaysBeforeMonth(year, month - 1) + DaysInMonth(year, month - 1)
  }

  /** The day number of a year, month and day, of which month and day may be out of range. */
  function MakeDay(year: int, month: int, day: int): int {
    var y, m := year + month / 12, month % 12;
    DayFromYear(y) + DaysBeforeMonth(y, m) + day - 1
  }

  /** Day 0 was a Thursday; 0 is Sunday. */
  function WeekDay(n: int): int {
    (n + 4) % 7
  }

  lemma YearLength(year: int)
    ensures DaysBeforeMonth(year, 12) == if IsLeapYear(year) then 366 else 365
    ensures DayFromYear(year + 1) == DayFromYear(year) + DaysBeforeMonth(year, 12)
  {
    MonthsInYear(year);
    LeapDays(year);
  }

  lemma MonthsInYear(year: int)
    ensures DaysBeforeMonth(year, 12) == if IsLeapYear(year) then 366 else 365
  {
    var f := if IsLeapYear(year) then 1 else 0;
    assert DaysBeforeMonth(year, 3) == 90 + f by {
      assert DaysBeforeMonth(year, 1) == 31;
      assert DaysBeforeMonth(year, 2) == 59 + f;
    }
    assert DaysBeforeMonth(year, 6) == 181 + f by {
      assert DaysBeforeMonth(year, 4) == 120 + f;
      assert DaysBeforeMonth(year, 5) == 151 + f;
    }
    assert DaysBeforeMonth(year, 9) == 273 + f by {
      assert DaysBeforeMonth(year, 7) == 212 + f;
      assert DaysBeforeMonth(year, 8) == 243 + f;
    }
    assert DaysBeforeMonth(year, 10) == 304 + f;
    assert DaysBeforeMonth(year, 11) == 334 + f;
  }

  lemma LeapDays(year: int)
    ensures DayFromYear(year + 1) == DayFromYear(year) + if IsLeapYear(year) then 366 else 365
  {
    assert (year - 1968) / 4 == (year - 1969) / 4 + if year % 4 == 0 then 1 else 0;
    assert (year - 1900) / 100 == (year - 1901) / 100 + if year % 100 == 0 then 1 else 0;
    assert (year - 1600) / 400 == (year - 1601) / 400 + if year % 400 == 0 then 1 else 0;
    assert year % 400 == 0 ==> year % 100 == 0;
    assert year % 100 == 0 ==> year % 4 == 0;
  }

  // ---------- the calendar, independently ----------

  /** The Gregorian day number without a table of months: years begin with March, so that the leap day is the last, and
      from there the months have 153 days in every five. */
  function GregorianDay(year: int, month: int, day: int): int {
    BeforeMarch(if month < 2 then year - 1 else year) + SinceMarch((month + 10) % 12) + day - 1
  }

  /** The day number of the first of March. */
  function BeforeMarch(y: int): int {
    365 * y + y / 4 - y / 100 + y / 400 - 719468
  }

  function SinceMarch(months: int): int {
    (153 * months + 2) / 5
  }

  /** Where every month begins. */
  lemma MonthsBegin(year: int, m: int)
    requires 0 <= m < 12
    ensures m < 2 ==> DaysBeforeMonth(year, m) == SinceMarch(m + 10) - 306
    ensures m >= 2 ==> DaysBeforeMonth(year, m) == (if IsLeapYear(year) then 60 else 59) + SinceMarch(m - 2)
  {
    var f := if IsLeapYear(year) then 1 else 0;
    assert DaysBeforeMonth(year, 1) == 31;
    assert DaysBeforeMonth(year, 2) == 59 + f;
    assert DaysBeforeMonth(year, 3) == 90 + f;
    assert DaysBeforeMonth(year, 4) == 120 + f;
    assert DaysBeforeMonth(year, 5) == 151 + f;
    assert DaysBeforeMonth(year, 6) == 181 + f;
    assert DaysBeforeMonth(year, 7) == 212 + f;
    assert DaysBeforeMonth(year, 8) == 243 + f;
    assert DaysBeforeMonth(year, 9) == 273 + f;
    assert DaysBeforeMonth(year, 10) == 304 + f;
    assert DaysBeforeMonth(year, 11) == 334 + f;
    hide DaysBeforeMonth, IsLeapYear;
  }

  lemma YearBegins(year: int)
    ensures DayFromYear(year) == BeforeMarch(year - 1) + 306
  {
    var y := year - 1;
    assert (y - 4 * 492) / 4 == y / 4 - 492;
    assert (y - 100 * 19) / 100 == y / 100 - 19;
    assert (y - 400 * 4) / 400 == y / 400 - 4;
  }

  /** Leap years, and the beginnings of all years and months, are those of the Gregorian calendar: every date, of
      whatever year and with the day in or out of range, has its day number. */
  lemma MakeDayIsGregorian(year: int, month: int, day: int)
    requires 0 <= month < 12
    ensures MakeDay(year, month, day) == GregorianDay(year, month, day)
  {
    hide DaysBeforeMonth, DayFromYear, IsLeapYear, BeforeMarch, SinceMarch;
    assert year + month / 12 == year && month % 12 == month;
    assert (month + 10) % 12 == if month < 2 then month + 10 else month - 2;
    MonthsBegin(year, month);
    YearBegins(year);
    YearBegins(year + 1);
    LeapDays(year);
  }

  /** A month has the days there are until the next one begins. */
  lemma DaysUntilNext(year: int, month: int)
    requires 0 <= month < 12
    ensures DaysInMonth(year, month) ==
              if month < 11 then GregorianDay(year, month + 1, 1) - GregorianDay(year, month, 1)
              else GregorianDay(year + 1, 0, 1) - GregorianDay(year, 11, 1)
  {
    hide MakeDay, GregorianDay, DaysInMonth;
    MakeDayNext(year, month, 1 + DaysInMonth(year, month));
    MakeDayIsGregorian(year, month, 1 + DaysInMonth(year, month));
    MakeDayIsGregorian(year, month, 1);
    GregorianDayMore(year, month, DaysInMonth(year, month));
    if month < 11 {
      MakeDayIsGregorian(year, month + 1, 1);
    } else {
      MakeDayCarries(year, 12, 1);
      MakeDayIsGregorian(year + 1, 0, 1);
    }
  }

  lemma GregorianDayMore(year: int, month: int, more: int)
    ensures GregorianDay(year, month, 1 + more) == GregorianDay(year, month, 1) + more
  {
  }

  lemma GregorianRepeats(y: int)
    ensures BeforeMarch(y + 400) == BeforeMarch(y) + 146097
  {
    assert (y + 4 * 100) / 4 == y / 4 + 100;
    assert (y + 100 * 4) / 100 == y / 100 + 4;
    assert (y + 400 * 1) / 400 == y / 400 + 1;
  }

  lemma GregorianDayRepeats(year: int, month: int, day: int)
    ensures GregorianDay(year + 400, month, day) == GregorianDay(year, month, day) + 146097
  {
    hide BeforeMarch, SinceMarch;
    GregorianRepeats(if month < 2 then year - 1 else year);
  }

  lemma WeekRepeats(n: int)
    ensures WeekDay(n + 146097) == WeekDay(n)
  {
    assert n + 146097 == n + 7 * 20871;
  }

  /** The calendar, and the week with it, repeats after 400 years. */
  lemma FourCenturies(year: int, month: int, day: int)
    requires 0 <= month < 12
    ensures MakeDay(year + 400, month, day) == MakeDay(year, month, day) + 146097
    ensures WeekDay(MakeDay(year + 400, month, day)) == WeekDay(MakeDay(year, month, day))
  {
    hide MakeDay, GregorianDay, WeekDay;
    MakeDayIsGregorian(year, month, day);
    MakeDayIsGregorian(year + 400, month, day);
    GregorianDayRepeats(year, month, day);
    WeekRepeats(MakeDay(year, month, day));
  }

  /** The first of January 1970 was a Thursday, the first of August 2014 a Friday; 1900 was no leap year, 2000 was. */
  lemma KnownDays()
    ensures MakeDay(1970, 0, 1) == 0 && MakeDay(2014, 7, 1) == 16283
    ensures WeekDay(MakeDay(1970, 0, 1)) == 4 && WeekDay(MakeDay(2014, 7, 1)) == 5
    ensures DaysInMonth(1900, 1) == 28 && DaysInMonth(2000, 1) == 29
  {
    MakeDayIsGregorian(1970, 0, 1);
    MakeDayIsGregorian(2014, 7, 1);
    hide MakeDay;
  }

  /** The week goes on from day to day. */
  lemma WeekGoesOn(n: int)
    ensures 0 <= WeekDay(n) <= 6 && WeekDay(n + 1) == if WeekDay(n) == 6 then 0 else WeekDay(n) + 1
  {
  }

  // ---------- dates from day numbers ----------

  /** The date a year, month and day stand for, when the day may be out of range: the days of whole months are
      taken off or put on. */
  function Normalize(year: int, month: int, day: int): (c: Civil)
    requires 0 <= month < 12
    ensures IsDate(c)
    decreases if day < 1 then 1 - day else if day <= DaysInMonth(year, month) then 0 else day
  {
    if day < 1 then
      if month == 0 then Normalize(year - 1, 11, day + DaysInMonth(year - 1, 11))
      else Normalize(year, month - 1, day + DaysInMonth(year, month - 1))
    else if day <= DaysInMonth(year, month) then Civil(year, month, day)
    else if month == 11 then Normalize(year + 1, 0, day - DaysInMonth(year, month))
    else Normalize(year, month + 1, day - DaysInMonth(year, month))
  }

  /** Going on to the next month. */
  lemma MakeDayNext(year: int, month: int, day: int)
    requires 0 <= month < 12
    ensures MakeDay(year, month, day) == MakeDay(year, month + 1, day - DaysInMonth(year, month))
  {
    hide DayFromYear, DaysInMonth, IsLeapYear;
    assert month / 12 == 0 && month % 12 == month;
    assert DaysBeforeMonth(year, month + 1) == DaysBeforeMonth(year, month) + DaysInMonth(year, month);
    if month == 11 {
      YearLength(year);
      assert (month + 1) / 12 == 1 && (month + 1) % 12 == 0;
      assert DaysBeforeMonth(year + 1, 0) == 0;
    } else {
      assert (month + 1) / 12 == 0 && (month + 1) % 12 == month + 1;
    }
    hide DaysBeforeMonth;
  }

  lemma MakeDayCarries(year: int, month: int, day: int)
    ensures MakeDay(year, month, day) == MakeDay(year + month / 12, month % 12, day)
  {
  }

  lemma {:induction false} NormalizeKeepsDay(year: int, month: int, day: int)
    requires 0 <= month < 12
    ensures var c := Normalize(year, month, day); MakeDay(c.year, c.month, c.day) == MakeDay(year, month, day)
    decreases if day < 1 then 1 - day else if day <= DaysInMonth(year, month) then 0 else day
  {
    hide MakeDay;
    if day < 1 {
      var y, m := if month == 0 then year - 1 else year, if month == 0 then 11 else month - 1;
      NormalizeKeepsDay(y, m, day + DaysInMonth(y, m));
      MakeDayNext(y, m, day + DaysInMonth(y, m));
      MakeDayCarries(y, m + 1, day);
    } else if day > DaysInMonth(year, month) {
      var y, m := if month == 11 then year + 1 else year, if month == 11 then 0 else month + 1;
      NormalizeKeepsDay(y, m, day - DaysInMonth(year, month));
      MakeDayNext(year, month, day);
      MakeDayCarries(year, month + 1, day - DaysInMonth(year, month));
    }
  }

  predicate Before(a: Civil, b: Civil) {
    a.year < b.year || (a.year == b.year && (a.month < b.month || (a.month == b.month && a.day < b.day)))
  }

  lemma {:induction false} LaterMonth(year: int, m: nat, n: nat)
    requires m < n <= 12
    ensures DaysBeforeMonth(year, m) + DaysInMonth(year, m) <= DaysBeforeMonth(year, n)
    decreases n
  {
    if m + 1 < n {
      LaterMonth(year, m, n - 1);
    }
  }

  lemma {:induction false} LaterYear(a: int, b: int)
    requires a < b
    ensures DayFromYear(a) + DaysBeforeMonth(a, 12) <= DayFromYear(b)
    decreases b - a
  {
    YearLength(b - 1);
    if a + 1 < b {
      LaterYear(a, b - 1);
    }
  }

  /** Day numbers are in the order of the dates. */
  lemma DaysInOrder(a: Civil, b: Civil)
    requires IsDate(a) && IsDate(b) && Before(a, b)
    ensures MakeDay(a.year, a.month, a.day) < MakeDay(b.year, b.month, b.day)
  {
    hide DayFromYear, DaysInMonth;
    LaterMonth(a.year, a.month, 12);
    if a.year < b.year {
      LaterYear(a.year, b.year);
    } else if a.month < b.month {
      LaterMonth(a.year, a.month, b.month);
    }
  }

  lemma OneDate(a: Civil, b: Civil)
    requires IsDate(a) && IsDate(b) && MakeDay(a.year, a.month, a.day) == MakeDay(b.year, b.month, b.day)
    ensures a == b
  {
    if Before(a, b) {
      DaysInOrder(a, b);
    } else if Before(b, a) {
      DaysInOrder(b, a);
    }
  }

  /** The date of a day number. */
  function FromDay(n: int): (c: Civil)
    ensures IsDate(c)
  {
    Normalize(1970, 0, n + 1)
  }

  lemma FromDayInverts(n: int)
    ensures var c := FromDay(n); MakeDay(c.year, c.month, c.day) == n
  {
    NormalizeKeepsDay(1970, 0, n + 1);
    assert DayFromYear(1970) == 0;
  }

  /** A date set from a year, a month and a day that may be out of range is the one their day number names. */
  lemma MakeDayDate(year: int, month: int, day: int)
    ensures FromDay(MakeDay(year, month, day)) == Normalize(year + month / 12, month % 12, day)
  {
    hide MakeDay, Normalize, FromDay;
    var y, m := year + month / 12, month % 12;
    MakeDayCarries(year, month, day);
    NormalizeKeepsDay(y, m, day);
    FromDayInverts(MakeDay(year, month, day));
    OneDate(FromDay(MakeDay(year, month, day)), Normalize(y, m, day));
  }

  /** Months shorter than 31 days are followed by one of 31 in the same year. */
  lemma ShortMonth(year: int, month: int)
    requires 0 <= month < 12 && DaysInMonth(year, month) < 31
    ensures month < 11 && DaysInMonth(year, month + 1) == 31
  {
  }

  // ---------- Date objects ----------

  class Date {
    var time: int    // in days

    constructor (time: int)
      ensures this.time == time
    {
      this.time := time;
    }

    function Civil(): (c: Civil)
      reads this
      ensures IsDate(c)
    {
      FromDay(time)
    }

    method SetUTCDate(day: int)
      modifies this
      ensures Civil() == Normalize(old(Civil()).year, old(Civil()).month, day)
      ensures time == MakeDay(old(Civil()).year, old(Civil()).month, day)
    {
      hide FromDay, MakeDay, Normalize;
      var c := Civil();
      MakeDayDate(c.year, c.month, day);
      time := MakeDay(c.year, c.month, day);
    }

    method SetUTCMonth(month: int)
      modifies this
      ensures Civil() == Normalize(old(Civil()).year + month / 12, month % 12, old(Civil()).day)
    {
      hide FromDay, MakeDay, Normalize;
      var c := Civil();
      MakeDayDate(c.year, month, c.day);
      time := MakeDay(c.year, month, c.day);
    }

    method SetUTCFullYear(year: int)
      modifies this
      ensures Civil() == Normalize(year, old(Civil()).month, old(Civil()).day)
    {
      hide FromDay, MakeDay, Normalize;
      var c := Civil();
      MakeDayDate(year, c.month, c.day);
      time := MakeDay(year, c.month, c.day);
    }
  }

  /** Date.UTC takes the years 0 to 99 for 1900 to 1999. */
  function UTCYear(year: int): int {
    if 0 <= year <= 99 then 1900 + year else year
  }

  function UTCDate(year: int, month: int, day: int): int {
    MakeDay(UTCYear(year), month, day)
  }

  /** What Date.UTC gives for an ordinary year, and for the first hundred. */
  lemma UTCDates(year: int, month: int, day: int)
    requires 0 <= month < 12
    ensures year < 0 || year >= 100 ==> UTCDate(year, month, day) == GregorianDay(year, month, day)
    ensures 0 <= year < 100 ==> UTCDate(year, month, day) == GregorianDay(1900 + year, month, day)
  {
    MakeDayIsGregorian(year, month, day);
    MakeDayIsGregorian(1900 + year, month, day);
    hide MakeDay, GregorianDay;
  }
}
