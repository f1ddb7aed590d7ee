/** Decimal numerals. */
module DatepickerNumerals {
  import opened Common

  predicate IsDigit(c: char) {
    '0' <= c <= '9'
  }

  function Digit(n: nat): (c: char)
    requires n < 10
    ensures IsDigit(c) && DigitValue(c) == n
  {
    "0123456789"[n]
  }

  function DigitValue(c: char): nat
    requires IsDigit(c)
  {
    (c - '0') as int
  }

  predicate AllDigits(s: string) {
    forall i :: 0 <= i < |s| ==> IsDigit(s[i])
  }

  function Numeral(n: nat): (s: string)
    ensures |s| > 0 && AllDigits(s)
  {
    if n < 10 then [Digit(n)] else Numeral(n / 10) + [Digit(n % 10)]
  }

  function Value(s: string): nat
    requires AllDigits(s)
  {
    if |s| == 0 then 0 else 10 * Value(s[..|s| - 1]) + DigitValue(s[|s| - 1])
  }

  lemma {:induction false} ValueOfNumeral(n: nat)
    ensures Value(Numeral(n)) == n
  {
    if n >= 10 {
      ValueOfNumeral(n / 10);
      assert Numeral(n)[..|Numeral(n)| - 1] == Numeral(n / 10);
    }
  }

  lemma {:induction false} LeadingZero(s: string)
    requires AllDigits(s)
    ensures Value("0" + s) == Value(s)
    decreases |s|
  {
    if |s| > 0 {
      LeadingZero(s[..|s| - 1]);
      assert ("0" + s)[..|s|] == "0" + s[..|s| - 1];
    } else {
      assert "0" + s == "0" && "0"[..0] == "";
    }
  }

  /** A numeral has no leading zero, and so many digits. */
  lemma {:induction false} NumeralShape(n: nat)
    ensures n > 0 ==> Numeral(n)[0] != '0'
    ensures |Numeral(n)| == 1 <==> n < 10
    ensures |Numeral(n)| <= 2 <==> n < 100
    ensures |Numeral(n)| <= 3 <==> n < 1000
    ensures |Numeral(n)| <= 4 <==> n < 10000
  {
    if n < 10 {
      assert n > 0 ==> DigitValue('0') != n;
    } else {
      NumeralShape(n / 10);
    }
  }

  lemma DigitSize(c: char)
    requires IsDigit(c)
    ensures DigitValue(c) < 10
  {
  }

  lemma HundredsGo(n: nat, a: nat, b: nat)
    requires n == 100 * a + b && b < 100
    ensures n % 100 == b
  {
  }

  lemma LastDigit(s: string)
    requires AllDigits(s) && |s| > 0
    ensures Value(s) == 10 * Value(s[..|s| - 1]) + DigitValue(s[|s| - 1]) && DigitValue(s[|s| - 1]) < 10
  {
    DigitSize(s[|s| - 1]);
  }

  lemma LastTwoDigits(s: string)
    requires AllDigits(s) && |s| >= 2
    ensures Value(s) == 100 * Value(s[..|s| - 2]) + Value(s[|s| - 2..]) && Value(s[|s| - 2..]) < 100
  {
    var n := |s| - 2;
    var tail := s[n..];
    LastDigit(s);
    LastDigit(s[..n + 1]);
    LastDigit(tail);
    LastDigit(tail[..1]);
    assert Value(tail[..1][..0]) == 0;
    assert s[..n + 1][..n] == s[..n] && tail[..1][0] == s[n] && tail[1] == s[n + 1];
    hide Value, DigitValue;
  }

  /** The last two digits are the rest by a hundred. */
  lemma LastTwo(s: string)
    requires AllDigits(s) && |s| >= 2
    ensures Value(s[|s| - 2..]) == Value(s) % 100
  {
    LastTwoDigits(s);
    hide Value, AllDigits;
    HundredsGo(Value(s), Value(s[..|s| - 2]), Value(s[|s| - 2..]));
  }

  function Padded(n: nat): (s: string)
    ensures |s| > 0 && AllDigits(s)
  {
    (if n < 10 then "0" else "") + Numeral(n)
  }

  lemma ValueOfPadded(n: nat)
    ensures Value(Padded(n)) == n
  {
    ValueOfNumeral(n);
    if n < 10 {
      LeadingZero(Numeral(n));
    } else {
      assert "" + Numeral(n) == Numeral(n);
    }
  }

  function DigitRun(s: string): (n: nat)
    ensures n <= |s| && AllDigits(s[..n]) && (n < |s| ==> !IsDigit(s[n]))
  {
    if |s| > 0 && IsDigit(s[0]) then DigitRun(s[1..]) + 1 else 0
  }

  /** What follows the digits of a token is not read. */
  lemma DigitsAreRead(digits: string, rest: string)
    requires |digits| > 0 && AllDigits(digits) && (|rest| > 0 ==> !IsDigit(rest[0]))
    ensures ParseInt(digits + rest) == Some(Value(digits))
  {
    var s, n := digits + rest, |digits|;
    assert s[..n] == digits;
    if |rest| == 0 {
      assert s == digits;
      DigitRunOfDigits(s);
    } else {
      RunOfDigits(s, n);
    }
  }

  lemma {:induction false} RunOfDigits(s: string, n: nat)
    requires n < |s| && AllDigits(s[..n]) && !IsDigit(s[n])
    ensures DigitRun(s) == n
  {
    if n > 0 {
      assert s[..n][0] == s[0] && s[1..][..n - 1] == s[..n][1..];
      RunOfDigits(s[1..], n - 1);
    }
  }

  /** parseInt( s, 10 ) of a token, which has no sign and no blanks; None is NaN. */
  function ParseInt(s: string): Option<nat> {
    if DigitRun(s) == 0 then None else Some(Value(s[..DigitRun(s)]))
  }

  lemma {:induction false} DigitRunOfDigits(s: string)
    requires AllDigits(s)
    ensures DigitRun(s) == |s|
  {
    if |s| > 0 {
      DigitRunOfDigits(s[1..]);
    }
  }
}
