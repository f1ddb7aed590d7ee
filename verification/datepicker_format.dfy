/** formatDate and parseDate of the date picker, for the numeric parts of a format. */
module DatepickerFormat {
  import opened Common
  import opened Calendar
  import opened DatepickerMonth
  import opened DatepickerNumerals
  import opened DatepickerRelative

  /** d, dd, m, mm, yy and yyyy. */
  datatype Part = Day | Day2 | Month | Month2 | Year2 | Year4

  /** What parseFormat returns. */
  datatype Format = Format(separators: seq<string>, parts: seq<Part>)

  // ---------- formatDate ----------

  function Text(part: Part, c: Civil): string
    requires IsDate(c)
  {
    match part
    case Day => Numeral(c.day)
    case Day2 => Padded(c.day)
    case Month => Numeral(c.month + 1)
    case Month2 => Padded(c.month + 1)
    case Year2 => var y := YearText(c.year); if |y| < 2 then "" else y[2..]
    case Year4 => YearText(c.year)
  }

  function YearText(year: int): string {
    if year < 0 then "-" + Numeral(-year) else Numeral(year)
  }

  /** What each part of a format shows: one or two digits for d and m, always two for dd and mm, the last two of a year
      of four digits for yy, and the whole year, with its sign, for yyyy. */
  lemma TextMeans(c: Civil)
    requires IsDate(c)
    ensures AllDigits(Text(Day, c)) && Value(Text(Day, c)) == c.day && Text(Day, c)[0] != '0'
    ensures |Text(Day2, c)| == 2 && AllDigits(Text(Day2, c)) && Value(Text(Day2, c)) == c.day
    ensures AllDigits(Text(Month, c)) && Value(Text(Month, c)) == c.month + 1 && Text(Month, c)[0] != '0'
    ensures |Text(Month2, c)| == 2 && AllDigits(Text(Month2, c)) && Value(Text(Month2, c)) == c.month + 1
    ensures 1000 <= c.year <= 9999 ==>
              |Text(Year2, c)| == 2 && AllDigits(Text(Year2, c)) && Value(Text(Year2, c)) == c.year % 100
    ensures c.year >= 0 ==> AllDigits(Text(Year4, c)) && Value(Text(Year4, c)) == c.year
    ensures c.year > 0 ==> Text(Year4, c)[0] != '0'
    ensures c.year < 0 ==>
              var t := Text(Year4, c); t[0] == '-' && AllDigits(t[1..]) && Value(t[1..]) == -c.year && t[1] != '0'
  {
    hide Numeral, Value, DaysInMonth;
    ValueOfNumeral(c.day);
    ValueOfPadded(c.day);
    NumeralShape(c.day);
    ValueOfNumeral(c.month + 1);
    ValueOfPadded(c.month + 1);
    NumeralShape(c.month + 1);
    YearTextMeans(c.year);
  }

  lemma YearTextMeans(year: int)
    ensures year >= 0 ==> AllDigits(YearText(year)) && Value(YearText(year)) == year
    ensures year > 0 ==> YearText(year)[0] != '0'
    ensures year < 0 ==>
              var t := YearText(year); t[0] == '-' && AllDigits(t[1..]) && Value(t[1..]) == -year && t[1] != '0'
    ensures 1000 <= year <= 9999 ==>
              var t := YearText(year); |t| == 4 && AllDigits(t[2..]) && Value(t[2..]) == year % 100
  {
    hide Numeral, Value;
    var n := if year < 0 then -year else year;
    ValueOfNumeral(n);
    NumeralShape(n);
    if year < 0 {
      assert YearText(year)[1..] == Numeral(n);
    } else if 1000 <= year <= 9999 {
      LastTwo(Numeral(n));
    }
  }

  /** The separators and parts from some place on. */
  function FormattedFrom(c: Civil, f: Format, i: nat): string
    requires IsDate(c) && i <= |f.parts|
    decreases |f.parts| - i
  {
    (if i < |f.separators| then f.separators[i] else "")
    + (if i < |f.parts| then Text(f.parts[i], c) + FormattedFrom(c, f, i + 1) else "")
  }

  function SeparatorAt(f: Format, i: nat): string {
    if i < |f.separators| then f.separators[i] else ""
  }

  function TextAt(c: Civil, f: Format, i: nat): string
    requires IsDate(c)
  {
    if i < |f.parts| then Text(f.parts[i], c) else ""
  }

  /** What is still to come from some place on. */
  function ToCome(c: Civil, f: Format, i: nat): string
    requires IsDate(c)
  {
    if i <= |f.parts| then FormattedFrom(c, f, i) else ""
  }

  lemma OneMore(c: Civil, f: Format, i: nat, sofar: string)
    requires IsDate(c) && i <= |f.parts|
    ensures sofar + ToCome(c, f, i) == sofar + SeparatorAt(f, i) + TextAt(c, f, i) + ToCome(c, f, i + 1)
  {
    hide Text;
    var a, b, rest := SeparatorAt(f, i), TextAt(c, f, i), ToCome(c, f, i + 1);
    assert ToCome(c, f, i) == a + (b + rest);
    ConcatAssoc(sofar + a, b, rest);
    ConcatAssoc(sofar, a, b + rest);
  }

  method FormatDate(date: Date, f: Format) returns (s: string)
    ensures s == FormattedFrom(date.Civil(), f, 0)
  {
    hide FromDay, Text, FormattedFrom;
    var c := date.Civil();
    var seps := f.separators;
    s := "";
    assert "" + ToCome(c, f, 0) == FormattedFrom(c, f, 0);
    for i := 0 to |f.parts| + 1
      invariant seps == if i <= |f.separators| then f.separators[i..] else []
      invariant s + ToCome(c, f, i) == FormattedFrom(c, f, 0)
    {
      OneMore(c, f, i, s);
      hide ToCome;
      var sep := "";
      if |seps| > 0 {
        sep := seps[0];
        seps := seps[1..];
      }
      assert sep == SeparatorAt(f, i);
      s := s + sep;
      s := s + TextAt(c, f, i);
    }
    assert s + "" == s;
  }

  /** Separators and parts alternate. */
  lemma ThreePartsAlternate(c: Civil, f: Format)
    requires IsDate(c) && |f.parts| == 3 && |f.separators| == 4
    ensures FormattedFrom(c, f, 0) ==
              f.separators[0] + (Text(f.parts[0], c)
              + (f.separators[1] + (Text(f.parts[1], c) + (f.separators[2] + (Text(f.parts[2], c) + f.separators[3])))))
  {
    hide Text;
    assert FormattedFrom(c, f, 3) == f.separators[3];
    assert FormattedFrom(c, f, 2) == f.separators[2] + (Text(f.parts[2], c) + FormattedFrom(c, f, 3));
    assert FormattedFrom(c, f, 1) == f.separators[1] + (Text(f.parts[1], c) + FormattedFrom(c, f, 2));
  }

  lemma Texts2014()
    ensures Numeral(2014) == "2014" && Numeral(5) == "5" && Numeral(8) == "8"
  {
    assert Numeral(2) == "2";
    assert Numeral(20) == Numeral(2) + "0";
    assert Numeral(201) == Numeral(20) + "1";
    assert Numeral(2014) == Numeral(201) + "4";
  }

  /** The fifth of August 2014, in two formats. */
  lemma Formatted2014()
    ensures FormattedFrom(Civil(2014, 7, 5), Format(["", "/", "/", ""], [Day2, Month2, Year4]), 0) == "05/08/2014"
    ensures FormattedFrom(Civil(2014, 7, 5), Format(["", ".", ".", ""], [Day, Month, Year2]), 0) == "5.8.14"
  {
    hide Numeral, FormattedFrom;
    Texts2014();
    var c, f, g := Civil(2014, 7, 5), Format(["", "/", "/", ""], [Day2, Month2, Year4]),
                   Format(["", ".", ".", ""], [Day, Month, Year2]);
    ThreePartsAlternate(c, f);
    ThreePartsAlternate(c, g);
    assert Text(Day2, c) == "05" && Text(Month2, c) == "08" && Text(Year4, c) == "2014";
    assert Text(Day, c) == "5" && Text(Month, c) == "8" && Text(Year2, c) == "14";
    hide Text;
    assert FormattedFrom(c, f, 0) == "" + ("05" + ("/" + ("08" + ("/" + ("2014" + "")))));
    assert FormattedFrom(c, g, 0) == "" + ("5" + ("." + ("8" + ("." + ("14" + "")))));
  }

  // ---------- parseDate ----------

  /** The characters that the pattern nonpunctuation leaves out. */
  predicate IsSeparator(c: char) {
    || ' ' <= c <= '/' || ':' <= c <= '@' || c == '[' || '\U{3400}' <= c <= '\U{9fff}'
    || c == '`' || '{' <= c <= '~' || c == '\t' || c == '\n' || c == '\r'
  }

  /** Among the printable characters of ASCII, all are separators but digits, letters and four others. */
  lemma SeparatorsOfAscii(c: char)
    requires ' ' <= c <= '~'
    ensures !IsSeparator(c) <==> IsDigit(c) || 'a' <= c <= 'z' || 'A' <= c <= 'Z' || c in "\\]^_"
  {
  }

  predicate AllSeparators(s: string) {
    forall i :: 0 <= i < |s| ==> IsSeparator(s[i])
  }

  function TokenRun(s: string): (n: nat)
    ensures n <= |s| && (n < |s| ==> IsSeparator(s[n])) && forall i :: 0 <= i < n ==> !IsSeparator(s[i])
  {
    if |s| > 0 && !IsSeparator(s[0]) then TokenRun(s[1..]) + 1 else 0
  }

  /** date.match( nonpunctuation ): the longest stretches without a separator. */
  function Tokens(s: string): seq<string>
    decreases |s|
  {
    if |s| == 0 then []
    else if IsSeparator(s[0]) then Tokens(s[1..])
    else [s[..TokenRun(s)]] + Tokens(s[TokenRun(s)..])
  }

  /** parsed: later parts of the same name win. */
  function ParsedUpTo(parts: seq<Part>, tokens: seq<string>, n: nat): map<Part, Option<nat>>
    requires n <= |parts| && |parts| == |tokens|
  {
    if n == 0 then map[] else ParsedUpTo(parts, tokens, n - 1)[parts[n - 1] := ParseInt(tokens[n - 1])]
  }

  /** The month setter's own clamping. */
  function WithMonth(c: Civil, v: int): (r: Civil)
    requires IsDate(c)
    ensures IsDate(r)
  {
    var m := (v - 1) % 12;
    Civil(c.year, m, if c.day <= DaysInMonth(c.year, m) then c.day else DaysInMonth(c.year, m))
  }

  function SetPart(c: Civil, part: Part, v: nat): (r: Civil)
    requires IsDate(c)
    ensures IsDate(r)
  {
    match part
    case Year4 => Normalize(v, c.month, c.day)
    case Year2 => Normalize(2000 + v, c.month, c.day)
    case Month => WithMonth(c, v)
    case Month2 => WithMonth(c, v)
    case Day => Normalize(c.year, c.month, v)
    case Day2 => Normalize(c.year, c.month, v)
  }

  const SETTERS_ORDER := [Year4, Year2, Month, Month2, Day, Day2]

  function SetUpTo(c: Civil, parsed: map<Part, Option<nat>>, n: nat): (r: Civil)
    requires IsDate(c) && n <= 6
    ensures IsDate(r)
  {
    if n == 0 then c
    else
      var before, s := SetUpTo(c, parsed, n - 1), SETTERS_ORDER[n - 1];
      if s in parsed && parsed[s].Some? then SetPart(before, s, parsed[s].value) else before
  }

  function ParsedDate(text: string, f: Format, today: Civil): (r: Civil)
    ensures IsDate(r)
  {
    var tokens := Tokens(text);
    var start := FromDay(UTCDate(today.year, today.month, today.day));
    if |tokens| == |f.parts| then SetUpTo(start, ParsedUpTo(f.parts, tokens, |f.parts|), 6) else start
  }

  /** What parseDate gives. */
  function DateOf(text: string, f: Format, today: Civil): (r: Civil)
    ensures IsDate(r)
  {
    if IsRelative(text) then RelativeDate(text, today) else ParsedDate(text, f, today)
  }

  /** The setter of m, with its loops. */
  method SetMonth(date: Date, v: int)
    modifies date
    ensures date.Civil() == WithMonth(old(date.Civil()), v)
  {
    hide FromDay, Normalize, DaysInMonth;
    var c := date.Civil();
    var m := v - 1;
    while m < 0
      invariant m % 12 == (v - 1) % 12
    {
      m := m + 12;
    }
    m := m % 12;
    DayInRange(c);
    TooLarge(c.year, m, c.day);
    date.SetUTCMonth(m);
    while date.Civil().month != m
      invariant c.day <= DaysInMonth(c.year, m) ==> date.Civil() == Civil(c.year, m, c.day)
      invariant c.day > DaysInMonth(c.year, m) ==>
                  date.Civil() == Civil(c.year, m, DaysInMonth(c.year, m)) ||
                  (m < 11 && date.Civil().year == c.year && date.Civil().month == m + 1)
      decreases if date.Civil().month == m then 0 else date.Civil().day
    {
      OneDayBack(date.Civil());
      date.SetUTCDate(date.Civil().day - 1);
    }
  }

  lemma DayInRange(c: Civil)
    requires IsDate(c)
    ensures 1 <= c.day <= 31
  {
  }

  lemma OneDayBack(c: Civil)
    requires IsDate(c)
    ensures Normalize(c.year, c.month, c.day - 1) ==
              if c.day > 1 then Civil(c.year, c.month, c.day - 1)
              else if c.month > 0 then Civil(c.year, c.month - 1, DaysInMonth(c.year, c.month - 1))
              else Civil(c.year - 1, 11, 31)
  {
  }

  /** parseDate. The date begins as today's. */
  method ParseDate(text: string, f: Format, today: Civil) returns (date: Date)
    ensures fresh(date) && date.Civil() == DateOf(text, f, today)
  {
    hide IsRelative, RelativeDate, ParsedDate;
    if IsRelative(text) {
      date := ParseRelative(text, today);
    } else {
      date := ParseParts(text, f, today);
    }
  }

  /** Tokens are matched with the parts of the format, and the setters run in their order. */
  method ParseParts(text: string, f: Format, today: Civil) returns (date: Date)
    ensures fresh(date) && date.Civil() == ParsedDate(text, f, today)
  {
    hide FromDay, Normalize, MakeDay, Tokens, SetPart, ParseInt;
    var parts := Tokens(text);
    date := new Date(UTCDate(today.year, today.month, today.day));
    ghost var start := date.Civil();
    if |parts| == |f.parts| {
      var parsed: map<Part, Option<nat>> := map[];
      for i := 0 to |f.parts|
        invariant parsed == ParsedUpTo(f.parts, parts, i)
      {
        parsed := parsed[f.parts[i] := ParseInt(parts[i])];
      }
      for i := 0 to 6
        invariant fresh(date) && date.Civil() == SetUpTo(start, parsed, i)
      {
        var s := SETTERS_ORDER[i];
        if s in parsed && parsed[s].Some? {
          var copy := new Date(date.time);
          CallSetter(copy, s, parsed[s].value);
          date := copy;
        }
      }
    }
  }

  /** setters_map[ s ]( date, v ). */
  method CallSetter(date: Date, part: Part, v: nat)
    modifies date
    ensures date.Civil() == SetPart(old(date.Civil()), part, v)
  {
    hide FromDay, Normalize;
    match part {
      case Year4 => date.SetUTCFullYear(v);
      case Year2 => date.SetUTCFullYear(2000 + v);
      case Month => SetMonth(date, v);
      case Month2 => SetMonth(date, v);
      case Day => date.SetUTCDate(v);
      case Day2 => date.SetUTCDate(v);
    }
  }

  // ---------- formatting, then parsing ----------

  /** A format with a day, a month and a year, with something between them, and nothing but separators around them. */
  predicate ThreeParts(f: Format) {
    && |f.parts| == 3 && |f.separators| == 4
    && (forall i :: 0 <= i < 4 ==> AllSeparators(f.separators[i]))
    && |f.separators[1]| > 0 && |f.separators[2]| > 0
    && (Year4 in f.parts || Year2 in f.parts)
    && (Month in f.parts || Month2 in f.parts) && (Day in f.parts || Day2 in f.parts)
  }

  /** The two digits of a year are shown if it has four. */
  predicate Shown(part: Part, c: Civil) {
    part == Year2 ==> 1000 <= c.year <= 9999
  }

  predicate AllShown(parts: seq<Part>, c: Civil) {
    forall i :: 0 <= i < |parts| ==> Shown(parts[i], c)
  }

  /** The digits of a part, without a sign. */
  function Digits(part: Part, c: Civil): (s: string)
    requires IsDate(c) && Shown(part, c)
    ensures |s| > 0 && AllDigits(s)
  {
    match part
    case Year2 => YearTextMeans(c.year); YearText(c.year)[2..]
    case Year4 => Numeral(if c.year < 0 then -c.year else c.year)
    case Month => Numeral(c.month + 1)
    case Month2 => Padded(c.month + 1)
    case Day => Numeral(c.day)
    case Day2 => Padded(c.day)
  }

  function Number(part: Part, c: Civil): nat
    requires IsDate(c) && Shown(part, c)
  {
    match part
    case Year2 => c.year % 100
    case Year4 => if c.year < 0 then -c.year else c.year
    case Month => c.month + 1
    case Month2 => c.month + 1
    case Day => c.day
    case Day2 => c.day
  }

  lemma NumberIsRead(part: Part, c: Civil)
    requires IsDate(c) && Shown(part, c)
    ensures ParseInt(Digits(part, c)) == Some(Number(part, c))
  {
    hide Numeral, Padded, Value;
    YearTextMeans(c.year);
    var s := Digits(part, c);
    DigitRunOfDigits(s);
    assert s[..|s|] == s;
    ValueOfNumeral(Number(part, c));
    ValueOfPadded(Number(part, c));
  }

  lemma {:induction false} SkipSeparators(sep: string, rest: string)
    requires AllSeparators(sep)
    ensures Tokens(sep + rest) == Tokens(rest)
  {
    if |sep| == 0 {
      assert sep + rest == rest;
    } else {
      assert (sep + rest)[0] == sep[0] && (sep + rest)[1..] == sep[1..] + rest;
      SkipSeparators(sep[1..], rest);
    }
  }

  lemma {:induction false} TokenRunOf(run: string, rest: string)
    requires (forall i :: 0 <= i < |run| ==> !IsSeparator(run[i])) && (|rest| > 0 ==> IsSeparator(rest[0]))
    ensures TokenRun(run + rest) == |run|
  {
    if |run| == 0 {
      assert run + rest == rest;
    } else {
      assert (run + rest)[0] == run[0] && (run + rest)[1..] == run[1..] + rest;
      TokenRunOf(run[1..], rest);
    }
  }

  lemma TakeToken(run: string, rest: string)
    requires |run| > 0 && AllDigits(run) && (|rest| > 0 ==> IsSeparator(rest[0]))
    ensures Tokens(run + rest) == [run] + Tokens(rest)
  {
    hide Tokens;
    TokenRunOf(run, rest);
    assert (run + rest)[0] == run[0] && (run + rest)[..|run|] == run && (run + rest)[|run|..] == rest;
    assert Tokens(run + rest) == [run] + Tokens(rest) by {
      OneToken(run + rest);
    }
  }

  lemma OneToken(s: string)
    requires |s| > 0 && !IsSeparator(s[0])
    ensures Tokens(s) == [s[..TokenRun(s)]] + Tokens(s[TokenRun(s)..])
  {
  }

  /** What follows a part begins with a separator, if there is anything. */
  lemma BeginsWithSeparator(c: Civil, f: Format, i: nat)
    requires IsDate(c) && ThreeParts(f) && 1 <= i <= 3
    ensures var rest := FormattedFrom(c, f, i); |rest| > 0 ==> IsSeparator(rest[0])
  {
    hide Text;
    var rest := FormattedFrom(c, f, i);
    if |f.separators[i]| > 0 {
      assert rest[0] == f.separators[i][0];
    }
  }

  /** A sign is read as a separator. */
  lemma TokensOfText(part: Part, c: Civil, sep: string, rest: string)
    requires IsDate(c) && Shown(part, c) && AllSeparators(sep) && (|rest| > 0 ==> IsSeparator(rest[0]))
    ensures Tokens(sep + (Text(part, c) + rest)) == [Digits(part, c)] + Tokens(rest)
  {
    hide Tokens, Numeral, Padded, Value;
    YearTextMeans(c.year);
    SkipSeparators(sep, Text(part, c) + rest);
    TakeToken(Digits(part, c), rest);
    if part == Year4 && c.year < 0 {
      SkipSeparators("-", Digits(part, c) + rest);
      assert Text(part, c) + rest == "-" + (Digits(part, c) + rest);
    }
  }

  /** The tokens of a formatted date are the digits of its parts. */
  lemma TokensOfFormatted(c: Civil, f: Format)
    requires IsDate(c) && ThreeParts(f) && AllShown(f.parts, c)
    ensures Tokens(FormattedFrom(c, f, 0)) == [Digits(f.parts[0], c), Digits(f.parts[1], c), Digits(f.parts[2], c)]
  {
    hide Tokens, Text, Digits;
    BeginsWithSeparator(c, f, 1);
    BeginsWithSeparator(c, f, 2);
    BeginsWithSeparator(c, f, 3);
    TokensOfText(f.parts[0], c, f.separators[0], FormattedFrom(c, f, 1));
    TokensOfText(f.parts[1], c, f.separators[1], FormattedFrom(c, f, 2));
    TokensOfText(f.parts[2], c, f.separators[2], FormattedFrom(c, f, 3));
    SkipSeparators(f.separators[3], "");
    assert FormattedFrom(c, f, 3) == f.separators[3] + "";
    assert Tokens("") == [] by {
      NoTokens();
    }
  }

  lemma NoTokens()
    ensures Tokens("") == []
  {
  }

  /** What is parsed of a formatted date: each part's number. */
  lemma ParsedOfFormatted(c: Civil, f: Format)
    requires IsDate(c) && ThreeParts(f) && AllShown(f.parts, c)
    ensures |Tokens(FormattedFrom(c, f, 0))| == 3
    ensures
      ParsedUpTo(f.parts, Tokens(FormattedFrom(c, f, 0)), 3) ==
        map[f.parts[0] := Some(Number(f.parts[0], c))][f.parts[1] := Some(Number(f.parts[1], c))]
           [f.parts[2] := Some(Number(f.parts[2], c))]
  {
    hide Tokens, ParseInt, FormattedFrom, Digits, Number;
    TokensOfFormatted(c, f);
    NumberIsRead(f.parts[0], c);
    NumberIsRead(f.parts[1], c);
    NumberIsRead(f.parts[2], c);
    var tokens := Tokens(FormattedFrom(c, f, 0));
    assert ParsedUpTo(f.parts, tokens, 1) == map[f.parts[0] := Some(Number(f.parts[0], c))];
    assert ParsedUpTo(f.parts, tokens, 2)
        == map[f.parts[0] := Some(Number(f.parts[0], c))][f.parts[1] := Some(Number(f.parts[1], c))];
  }

  /** Setting the year, then the month, then the day reaches the date from any other. */
  lemma SettersReach(c: Civil, year: nat, today: Civil, monthPart: Part, dayPart: Part)
    requires IsDate(c) && IsDate(today) && (year == c.year || year == -c.year)
    requires (monthPart == Month || monthPart == Month2) && (dayPart == Day || dayPart == Day2)
    ensures
      SetPart(SetPart(SetPart(today, Year4, year), monthPart, c.month + 1), dayPart, c.day) == c.(year := year)
  {
    hide Normalize, DaysInMonth;
    DayInRange(today);
    DayInRange(c);
    TooLarge(year, today.month, today.day);
    var first := SetPart(today, Year4, year);
    assert first.year == year;
    var second := SetPart(first, monthPart, c.month + 1);
    assert second.year == year && second.month == c.month;
    SignDoesNotMatter(c.year, c.month);
    TooLarge(year, c.month, c.day);
  }

  /** Leap years are the same before and after year 0. */
  lemma SignDoesNotMatter(year: int, month: int)
    requires 0 <= month < 12
    ensures DaysInMonth(-year, month) == DaysInMonth(year, month)
  {
    Divides4(year);
    Divides100(year);
    Divides400(year);
    var negative := -year;
    assert IsLeapYear(negative) == IsLeapYear(year);
    hide IsLeapYear;
  }

  lemma Divides4(n: int)
    ensures (-n) % 4 == 0 <==> n % 4 == 0
  {
  }

  lemma Divides100(n: int)
    ensures (-n) % 100 == 0 <==> n % 100 == 0
  {
  }

  lemma Divides400(n: int)
    ensures (-n) % 400 == 0 <==> n % 400 == 0
  {
  }

  /** All six setters, of which three have something to set. */
  lemma SixSetters(today: Civil, parsed: map<Part, Option<nat>>, yearPart: Part, m: Part, d: Part, year: nat,
                   month: nat, day: nat)
    requires IsDate(today) && (m == Month || m == Month2) && (d == Day || d == Day2)
    requires yearPart == Year4 || yearPart == Year2
    requires parsed == map[yearPart := Some(year), m := Some(month), d := Some(day)]
    ensures SetUpTo(today, parsed, 6) == SetPart(SetPart(SetPart(today, yearPart, year), m, month), d, day)
  {
    hide SetPart;
    var y := SetPart(today, yearPart, year);
    var ym := SetPart(y, m, month);
    assert SetUpTo(today, parsed, 0) == today;
    assert SetUpTo(today, parsed, 1) == if yearPart == Year4 then y else today;
    assert SetUpTo(today, parsed, 2) == y;
    assert SetUpTo(today, parsed, 4) == ym by {
      assert SetUpTo(today, parsed, 3) == if m == Month then ym else y;
    }
    assert SetUpTo(today, parsed, 5) == if d == Day then SetPart(ym, d, day) else ym;
  }

  /** The order of the parts does not matter for what is parsed. */
  lemma InAnyOrder(c: Civil, parts: seq<Part>, y: Part, m: Part, d: Part)
    requires IsDate(c) && |parts| == 3 && AllShown(parts, c) && (y == Year4 || y == Year2)
    requires y in parts && m in parts && d in parts && (m == Month || m == Month2) && (d == Day || d == Day2)
    ensures
      map[parts[0] := Some(Number(parts[0], c))]
         [parts[1] := Some(Number(parts[1], c))][parts[2] := Some(Number(parts[2], c))]
        == map[y := Some(Number(y, c)), m := Some(c.month + 1), d := Some(c.day)]
  {
  }

  lemma Permuted(f: Format, y: Part, m: Part, d: Part)
    requires ThreeParts(f) && y in f.parts && m in f.parts && d in f.parts
    requires (y == Year4 || y == Year2) && (m == Month || m == Month2) && (d == Day || d == Day2)
    ensures
      || f.parts == [y, m, d] || f.parts == [y, d, m] || f.parts == [m, y, d]
      || f.parts == [m, d, y] || f.parts == [d, m, y] || f.parts == [d, y, m]
  {
  }

  /** What parsing what was formatted sets, whatever day it is today. */
  lemma ParsedIsSet(c: Civil, f: Format, today: Civil, y: Part, m: Part, d: Part)
    requires IsDate(c) && ThreeParts(f) && AllShown(f.parts, c)
    requires y in f.parts && m in f.parts && d in f.parts
    requires (y == Year4 || y == Year2) && (m == Month || m == Month2) && (d == Day || d == Day2)
    ensures Shown(y, c)
    ensures
      var start := FromDay(UTCDate(today.year, today.month, today.day));
      ParsedDate(FormattedFrom(c, f, 0), f, today) ==
        SetPart(SetPart(SetPart(start, y, Number(y, c)), m, c.month + 1), d, c.day)
  {
    hide Tokens, FormattedFrom, SetUpTo, SetPart, ParsedUpTo, FromDay, MakeDay, DaysInMonth, Number;
    var start := FromDay(UTCDate(today.year, today.month, today.day));
    ParsedOfFormatted(c, f);
    var parsed := ParsedUpTo(f.parts, Tokens(FormattedFrom(c, f, 0)), 3);
    InAnyOrder(c, f.parts, y, m, d);
    SixSetters(start, parsed, y, m, d, Number(y, c), c.month + 1, c.day);
  }

  /** Parsing what was formatted gives the date back, whatever day it is today, exactly when the year is not
      negative, because the sign of a year is read as punctuation, or, with only its last two digits shown, when it is
      one of 2000 to 2099. */
  lemma ParseInvertsFormat(c: Civil, f: Format, today: Civil)
    requires IsDate(c) && ThreeParts(f) && AllShown(f.parts, c)
    ensures
      var back := ParsedDate(FormattedFrom(c, f, 0), f, today);
      && (Year4 in f.parts ==>
            back == c.(year := if c.year < 0 then -c.year else c.year) && (back == c <==> c.year >= 0))
      && (Year2 in f.parts ==>
            back == c.(year := 2000 + c.year % 100) && (back == c <==> 2000 <= c.year <= 2099))
  {
    hide FormattedFrom, SetPart, FromDay, MakeDay, DaysInMonth, ParsedDate;
    var start := FromDay(UTCDate(today.year, today.month, today.day));
    var y := if Year4 in f.parts then Year4 else Year2;
    var m := if Month in f.parts then Month else Month2;
    var d := if Day in f.parts then Day else Day2;
    Permuted(f, y, m, d);
    ParsedIsSet(c, f, today, y, m, d);
    if y == Year4 {
      SettersReach(c, if c.year < 0 then -c.year else c.year, start, m, d);
    } else {
      ThisCentury(c);
      SettersReach(c.(year := 2000 + c.year % 100), 2000 + c.year % 100, start, m, d);
      ShortYear(start, c.year % 100);
    }
  }

  lemma ShortYear(c: Civil, v: nat)
    requires IsDate(c)
    ensures SetPart(c, Year2, v) == SetPart(c, Year4, 2000 + v)
  {
  }

  /** A leap day is one in this century too. */
  lemma ThisCentury(c: Civil)
    requires IsDate(c) && 1000 <= c.year <= 9999
    ensures IsDate(c.(year := 2000 + c.year % 100))
  {
    var r := c.year % 100;
    assert c.year == 100 * (c.year / 100) + r;
    assert c.year % 4 == r % 4;
    assert (2000 + r) % 4 == r % 4 && (r == 0 ==> (2000 + r) % 400 == 0) && (2000 + r) % 100 == r;
    assert IsLeapYear(c.year) ==> IsLeapYear(2000 + r);
    hide IsLeapYear;
  }

  /** Text with too few or too many tokens, such as none, is today's date. */
  lemma TodayUnlessMatched(text: string, f: Format, today: Civil)
    requires IsDate(today) && (today.year < 0 || today.year >= 100) && |Tokens(text)| != |f.parts|
    ensures ParsedDate(text, f, today) == today
  {
    hide Tokens, FromDay;
    SameDate(today);
  }

  // ---------- any numbers in a text ----------

  /** A token is a number if it begins with a digit. */
  lemma NumberIfDigitFirst(s: string)
    ensures ParseInt(s).None? <==> |s| == 0 || !IsDigit(s[0])
  {
  }

  /** Setting any year, month and day in that order: months wrap around within the year, days are carried. */
  lemma SettersCarry(today: Civil, year: int, v: nat, yearPart: Part, monthPart: Part, month: nat, dayPart: Part,
                     day: nat)
    requires IsDate(today) && ((yearPart == Year4 && year == v) || (yearPart == Year2 && year == 2000 + v))
    requires (monthPart == Month || monthPart == Month2) && (dayPart == Day || dayPart == Day2)
    ensures
      var r := SetPart(SetPart(SetPart(today, yearPart, v), monthPart, month), dayPart, day);
      MakeDay(r.year, r.month, r.day) == GregorianDay(year, (month - 1) % 12, day)
  {
    hide Normalize, DaysInMonth, MakeDay, GregorianDay;
    DayInRange(today);
    TooLarge(year, today.month, today.day);
    var first := SetPart(today, yearPart, v);
    assert first.year == year;
    var second := SetPart(first, monthPart, month);
    assert second.year == year && second.month == (month - 1) % 12;
    NormalizeKeepsDay(year, second.month, day);
    MakeDayIsGregorian(year, second.month, day);
  }

  /** Three numbers in a text set the date they stand for, valid or not, whatever day it is today. */
  lemma NumbersAreReached(text: string, f: Format, today: Civil, y: Part, m: Part, d: Part, year: nat, month: nat,
                          day: nat)
    requires IsDate(today) && |f.parts| == 3 && |Tokens(text)| == 3 && y in f.parts && m in f.parts && d in f.parts
    requires (y == Year4 || y == Year2) && (m == Month || m == Month2) && (d == Day || d == Day2)
    requires forall i :: 0 <= i < 3 ==>
               var n := if f.parts[i] == y then year else if f.parts[i] == m then month else day;
               ParseInt(Tokens(text)[i]) == Some(n)
    ensures
      var r := ParsedDate(text, f, today);
      MakeDay(r.year, r.month, r.day) == GregorianDay(if y == Year4 then year else 2000 + year, (month - 1) % 12, day)
  {
    hide Tokens, SetUpTo, SetPart, FromDay, MakeDay, DaysInMonth, ParseInt, GregorianDay;
    var start := FromDay(UTCDate(today.year, today.month, today.day));
    ThreeParsed(f.parts, Tokens(text), y, m, d, year, month, day);
    hide ParsedUpTo;
    SixSetters(start, ParsedUpTo(f.parts, Tokens(text), 3), y, m, d, year, month, day);
    SettersCarry(start, if y == Year4 then year else 2000 + year, year, y, m, month, d, day);
  }

  lemma ThreeParsed(parts: seq<Part>, tokens: seq<string>, y: Part, m: Part, d: Part, year: nat, month: nat, day: nat)
    requires |parts| == 3 && |tokens| == 3 && y in parts && m in parts && d in parts
    requires (y == Year4 || y == Year2) && (m == Month || m == Month2) && (d == Day || d == Day2)
    requires forall i :: 0 <= i < 3 ==>
               var n := if parts[i] == y then year else if parts[i] == m then month else day;
               ParseInt(tokens[i]) == Some(n)
    ensures ParsedUpTo(parts, tokens, 3) == map[y := Some(year), m := Some(month), d := Some(day)]
  {
    hide ParseInt;
    assert parts == [y, m, d] || parts == [y, d, m] || parts == [m, y, d] || parts == [m, d, y] || parts == [d, m, y]
           || parts == [d, y, m];
    assert ParsedUpTo(parts, tokens, 0) == map[];
    assert ParsedUpTo(parts, tokens, 1) == map[parts[0] := ParseInt(tokens[0])];
    assert ParsedUpTo(parts, tokens, 2) == map[parts[0] := ParseInt(tokens[0])][parts[1] := ParseInt(tokens[1])];
  }

  /** A part whose token is not a number is as if it were not there. */
  lemma {:induction false} NotANumber(c: Civil, parsed: map<Part, Option<nat>>, part: Part, n: nat)
    requires IsDate(c) && n <= 6 && part !in parsed
    ensures SetUpTo(c, parsed[part := None], n) == SetUpTo(c, parsed, n)
    decreases n
  {
    hide SetPart;
    if n > 0 {
      NotANumber(c, parsed, part, n - 1);
    }
  }

  // ---------- a formatted date is not a relative one ----------

  predicate DigitsAndSeparators(s: string) {
    forall i :: 0 <= i < |s| ==> IsDigit(s[i]) || IsSeparator(s[i])
  }

  lemma {:induction false} FormattedChars(c: Civil, f: Format, i: nat)
    requires IsDate(c) && ThreeParts(f) && i <= 3
    ensures DigitsAndSeparators(FormattedFrom(c, f, i))
    decreases 3 - i
  {
    hide Numeral, Padded;
    if i < 3 {
      FormattedChars(c, f, i + 1);
      assert DigitsAndSeparators(Text(f.parts[i], c));
    }
  }

  lemma NotRelative(s: string)
    requires DigitsAndSeparators(s)
    ensures !IsRelative(s)
  {
    if |s| > 0 {
      var n := 1 + DigitRun(s[1..]);
      if n < |s| {
        assert IsDigit(s[n]) || IsSeparator(s[n]);
      }
    }
  }

  /** The two methods one after the other. */
  method FormatThenParse(date: Date, f: Format, today: Civil) returns (text: string, back: Date)
    requires ThreeParts(f)
    ensures Year4 in f.parts ==> (back.Civil() == date.Civil() <==> date.Civil().year >= 0)
    ensures Year2 in f.parts && 1000 <= date.Civil().year <= 9999 ==>
              (back.Civil() == date.Civil() <==> 2000 <= date.Civil().year <= 2099)
  {
    hide FromDay, FormattedFrom, ParsedDate, IsRelative, Number;
    text := FormatDate(date, f);
    FormattedChars(date.Civil(), f, 0);
    NotRelative(text);
    back := ParseDate(text, f, today);
    if AllShown(f.parts, date.Civil()) {
      ParseInvertsFormat(date.Civil(), f, today);
    } else {
      var m := if Month in f.parts then Month else Month2;
      var d := if Day in f.parts then Day else Day2;
      Permuted(f, if Year4 in f.parts then Year4 else Year2, m, d);
    }
  }
}
