/** Relative dates such as "+1d -2m", which parseDate counts from today. */
module DatepickerRelative {
  import opened Calendar
  import opened DatepickerGrid
  import opened DatepickerMonth
  import opened DatepickerNumerals

  predicate IsBlank(c: char) {
    c == ' ' || c == ',' || '\t' <= c <= '\r' || c == '\U{a0}' || c == '\U{feff}'
  }

  function BlankRun(s: string): (n: nat)
    ensures n <= |s|
  {
    if |s| > 0 && IsBlank(s[0]) then BlankRun(s[1..]) + 1 else 0
  }

  /** The text is a relative date such as "+1d -2m". */
  predicate IsRelative(s: string)
    decreases |s|
  {
    && |s| > 0 && (s[0] == '+' || s[0] == '-')
    && var n := 1 + DigitRun(s[1..]);
       && 1 < n < |s| && s[n] in "dmwy"
       && (n + 1 == |s| || (BlankRun(s[n + 1..]) > 0 && IsRelative(s[n + 1..][BlankRun(s[n + 1..])..])))
  }

  /** One part of a relative date. */
  datatype Move = Move(dir: int, unit: char)

  function Moves(s: string): seq<Move>
    requires IsRelative(s)
    decreases |s|
  {
    var n := 1 + DigitRun(s[1..]);
    var size: int := Value(s[1..][..n - 1]);
    var rest := s[n + 1..];
    [Move(if s[0] == '-' then -size else size, s[n])]
    + if |rest| == 0 then [] else Moves(rest[BlankRun(rest)..])
  }

  function Moved(c: Civil, move: Move): (r: Civil)
    requires IsDate(c)
    ensures IsDate(r)
  {
    if move.unit == 'd' then Normalize(c.year, c.month, c.day + move.dir)
    else if move.unit == 'w' then Normalize(c.year, c.month, c.day + move.dir * 7)
    else if move.unit == 'm' then MonthsAway(c, move.dir)
    else if move.unit == 'y' then MonthsAway(c, 12 * move.dir)
    else c
  }

  function MovedAll(c: Civil, moves: seq<Move>): (r: Civil)
    requires IsDate(c)
    ensures IsDate(r)
  {
    if |moves| == 0 then c else Moved(MovedAll(c, moves[..|moves| - 1]), moves[|moves| - 1])
  }

  /** Counting from today, and then through UTCDate. */
  function RelativeDate(text: string, today: Civil): (r: Civil)
    requires IsRelative(text)
    ensures IsDate(r)
  {
    var c := MovedAll(FromDay(MakeDay(today.year, today.month, today.day)), Moves(text));
    FromDay(UTCDate(c.year, c.month, c.day))
  }

  method ParseRelative(text: string, today: Civil) returns (date: Date)
    requires IsRelative(text)
    ensures fresh(date) && date.Civil() == RelativeDate(text, today)
  {
    hide FromDay, Normalize, MakeDay, MonthsAway, IsRelative, Moves;
    var parts := Moves(text);
    date := new Date(MakeDay(today.year, today.month, today.day));
    ghost var start := date.Civil();
    for i := 0 to |parts|
      invariant fresh(date) && date.Civil() == MovedAll(start, parts[..i])
    {
      assert parts[..i + 1][..i] == parts[..i];
      assert MovedAll(start, parts[..i + 1]) == Moved(MovedAll(start, parts[..i]), parts[i]);
      var part := parts[i];
      match part.unit {
        case 'd' => date.SetUTCDate(date.Civil().day + part.dir);
        case 'm' =>
          var moved := MoveMonth(date, part.dir);
          date := moved;
        case 'w' => date.SetUTCDate(date.Civil().day + part.dir * 7);
        case 'y' =>
          var moved := MoveYear(date, part.dir);
          date := moved;
        case _ =>
      }
    }
    assert parts[..|parts|] == parts;
    var c := date.Civil();
    date := new Date(UTCDate(c.year, c.month, c.day));
  }

  lemma SameDate(c: Civil)
    requires IsDate(c)
    ensures FromDay(MakeDay(c.year, c.month, c.day)) == c
  {
    hide FromDay, MakeDay;
    FromDayInverts(MakeDay(c.year, c.month, c.day));
    OneDate(FromDay(MakeDay(c.year, c.month, c.day)), c);
  }

  // ---------- what a relative date means ----------

  /** One part, as it is written. */
  function Written(move: Move): string {
    [if move.dir < 0 then '-' else '+'] + Numeral(if move.dir < 0 then -move.dir else move.dir) + [move.unit]
  }

  /** Parts with a blank between them. */
  function WrittenAll(moves: seq<Move>): string {
    if |moves| == 0 then ""
    else if |moves| == 1 then Written(moves[0])
    else Written(moves[0]) + (" " + WrittenAll(moves[1..]))
  }

  predicate Units(moves: seq<Move>) {
    forall i :: 0 <= i < |moves| ==> moves[i].unit in "dmwy"
  }

  /** The digits of a part, in front of its unit and of whatever follows. */
  lemma SizeIsRead(move: Move, rest: string)
    requires move.unit in "dmwy"
    ensures
      var s := Written(move) + rest;
      var n := 1 + DigitRun(s[1..]);
      && 1 < n < |s| && s[n] == move.unit && s[n + 1..] == rest && (s[0] == '+' || s[0] == '-')
      && move.dir == (if s[0] == '-' then -(Value(s[1..][..n - 1]) as int) else Value(s[1..][..n - 1]))
  {
    hide Value;
    var size: nat := if move.dir < 0 then -move.dir else move.dir;
    var digits := Numeral(size);
    var s, n := Written(move) + rest, |digits|;
    assert s[1..] == digits + ([move.unit] + rest);
    assert s[1..][..n] == digits && s[1..][n] == move.unit;
    ValueOfNumeral(size);
    RunOfDigits(s[1..], n);
    hide Numeral;
  }

  lemma OnePartRead(s: string, move: Move, rest: string)
    requires |s| > 0 && (s[0] == '+' || s[0] == '-') && move.unit in "dmwy"
    requires
      var n := 1 + DigitRun(s[1..]);
      && 1 < n < |s| && s[n] == move.unit && s[n + 1..] == rest
      && move.dir == if s[0] == '-' then -(Value(s[1..][..n - 1]) as int) else Value(s[1..][..n - 1])
    requires |rest| == 0 || (BlankRun(rest) > 0 && IsRelative(rest[BlankRun(rest)..]))
    ensures IsRelative(s) && Moves(s) == [move] + if |rest| == 0 then [] else Moves(rest[BlankRun(rest)..])
  {
    hide DigitRun, Value, BlankRun;
  }

  /** A relative date is read part by part. */
  lemma {:induction false} WrittenAreRead(moves: seq<Move>)
    requires |moves| > 0 && Units(moves)
    ensures IsRelative(WrittenAll(moves)) && Moves(WrittenAll(moves)) == moves
  {
    hide Written, Value, DigitRun, IsRelative, Moves;
    var rest := if |moves| == 1 then "" else " " + WrittenAll(moves[1..]);
    var s := Written(moves[0]) + rest;
    assert WrittenAll(moves) == s;
    SizeIsRead(moves[0], rest);
    if |moves| > 1 {
      WrittenAreRead(moves[1..]);
      NoBlankInFront(WrittenAll(moves[1..]));
      assert rest[1..] == WrittenAll(moves[1..]);
      assert BlankRun(rest) == 1;
    }
    hide WrittenAll, BlankRun;
    OnePartRead(s, moves[0], rest);
  }

  lemma NoBlankInFront(s: string)
    requires IsRelative(s)
    ensures BlankRun(s) == 0
  {
  }

  /** Days and weeks are days, in either direction and however many. */
  lemma DaysAway(c: Civil, move: Move)
    requires IsDate(c) && (move.unit == 'd' || move.unit == 'w')
    ensures
      var r := Moved(c, move);
      MakeDay(r.year, r.month, r.day)
        == MakeDay(c.year, c.month, c.day) + (if move.unit == 'd' then move.dir else 7 * move.dir)
  {
    hide Normalize;
    var day := c.day + if move.unit == 'd' then move.dir else move.dir * 7;
    NormalizeKeepsDay(c.year, c.month, day);
  }

  /** Months and years are so many months away, on the day it was or else on the last the month has. */
  lemma MonthsAreAway(c: Civil, move: Move)
    requires IsDate(c) && (move.unit == 'm' || move.unit == 'y')
    ensures
      var r := Moved(c, move);
      && 12 * r.year + r.month == 12 * c.year + c.month + (if move.unit == 'm' then move.dir else 12 * move.dir)
      && r.day <= c.day && (r.day < c.day ==> !IsDate(r.(day := r.day + 1)))
  {
    hide DaysInMonth;
    var k := if move.unit == 'm' then move.dir else 12 * move.dir;
    MonthsAwayMonth(c, k);
  }

  /** The parts of a relative date take effect one after the other, from today, and the date is reached if and only if
      it is in a year that UTCDate does not misread. */
  lemma RelativeReaches(moves: seq<Move>, today: Civil)
    requires IsDate(today) && |moves| > 0 && Units(moves)
    ensures IsRelative(WrittenAll(moves))
    ensures RelativeDate(WrittenAll(moves), today) == MovedAll(today, moves) <==> !Misread(MovedAll(today, moves).year)
  {
    hide FromDay, MakeDay, IsRelative, Moves, WrittenAll, MovedAll;
    WrittenAreRead(moves);
    var c := MovedAll(today, moves);
    SameDate(today);
    SameDate(c);
    if Misread(c.year) {
      CenturyLater(c);
    }
  }

  /** Any number of days on is just that many. */
  lemma DaysFromToday(k: int, today: Civil)
    requires IsDate(today)
    ensures
      var r := MovedAll(today, [Move(k, 'd')]);
      MakeDay(r.year, r.month, r.day) == MakeDay(today.year, today.month, today.day) + k
  {
    hide MakeDay, Moved;
    assert [Move(k, 'd')][..0] == [];
    DaysAway(today, Move(k, 'd'));
  }

  /** The same day and month nineteen hundred years later are another date. */
  lemma CenturyLater(c: Civil)
    requires IsDate(c) && Misread(c.year)
    ensures FromDay(MakeDay(c.year + 1900, c.month, c.day)) != c
  {
    hide FromDay, MakeDay;
    MakeDayDate(c.year + 1900, c.month, c.day);
  }
}
