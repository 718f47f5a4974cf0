/** Calendar dates, as used for transaction dates.

    A date is a (year, month, day) triple of the proleptic Gregorian
    calendar with years 1 to 9999. Dates are read and written in the fixed
    `yyyy-MM-dd` form; `ParseDate` and `FormatDate` are inverse to each
    other on valid dates. */
module Dates {
  import opened Core

  datatype Date = Date(year: int, month: int, day: int)

  predicate IsLeapYear(year: int) {
    year % 4 == 0 && (year % 100 != 0 || year % 400 == 0)
  }

  function DaysInMonth(year: int, month: int): (n: int)
    requires 1 <= month <= 12
    ensures 28 <= n <= 31
    ensures n == 29 <==> month == 2 && IsLeapYear(year)
  {
    if month == 2 then (if IsLeapYear(year) then 29 else 28)
    else if month == 4 || month == 6 || month == 9 || month == 11 then 30
    else 31
  }

  predicate ValidDate(d: Date) {
    1 <= d.year <= 9999 && 1 <= d.month <= 12 && 1 <= d.day <= DaysInMonth(d.year, d.month)
  }

  function DigitChar(n: int): (c: char)
    requires 0 <= n <= 9
    ensures '0' <= c <= '9'
  {
    ('0' as int + n) as char
  }

  function DigitValue(c: char): (r: Option<int>)
    ensures r.Some? <==> '0' <= c <= '9'
    ensures r.Some? ==> 0 <= r.value <= 9 && DigitChar(r.value) == c
  {
    if '0' <= c <= '9' then Some(c as int - '0' as int) else None
  }

  function Pow10(n: nat): (p: nat)
    ensures p >= 1
  {
    if n == 0 then 1 else 10 * Pow10(n - 1)
  }

  predicate AllDigits(s: string) {
    forall i :: 0 <= i < |s| ==> '0' <= s[i] <= '9'
  }

  /** `n` written in exactly `width` decimal digits, keeping the low-order
      digits and padding with leading zeros. */
  function FormatFixed(n: nat, width: nat): (s: string)
    ensures |s| == width
    ensures AllDigits(s)
  {
    if width == 0 then "" else FormatFixed(n / 10, width - 1) + [DigitChar(n % 10)]
  }

  /** Appending a digit to a formatted number formats ten times the number
      plus the digit. */
  lemma FormatFixedAppend(p: nat, width: nat, d: int)
    requires p < Pow10(width) && 0 <= d <= 9
    ensures 10 * p + d < Pow10(width + 1)
    ensures FormatFixed(10 * p + d, width + 1) == FormatFixed(p, width) + [DigitChar(d)]
  {
    var n := 10 * p + d;
    assert n / 10 == p && n % 10 == d;
  }

  /** The value of a string of decimal digits; `None` if any character is
      not a digit. */
  function ParseDigits(s: string): (r: Option<nat>)
    ensures r.Some? <==> AllDigits(s)
    ensures r.Some? ==> r.value < Pow10(|s|) && FormatFixed(r.value, |s|) == s
  {
    if |s| == 0 then Some(0)
    else
      var init := s[..|s| - 1];
      assert s == init + [s[|s| - 1]];
      assert AllDigits(s) <==> AllDigits(init) && '0' <= s[|s| - 1] <= '9';
      match (ParseDigits(init), DigitValue(s[|s| - 1]))
      case (Some(p), Some(d)) =>
        FormatFixedAppend(p, |init|, d);
        Some(10 * p + d)
      case _ => None
  }

  /** Formatting a number that fits the width and reading it back gives the
      number. */
  lemma {:induction false} ParseFormatFixed(n: nat, width: nat)
    requires n < Pow10(width)
    ensures ParseDigits(FormatFixed(n, width)) == Some(n)
  {
    if width > 0 {
      var s := FormatFixed(n, width);
      ParseFormatFixed(n / 10, width - 1);
      assert s[..|s| - 1] == FormatFixed(n / 10, width - 1);
      assert s[|s| - 1] == DigitChar(n % 10);
    }
  }

  /** Date fields small enough for the `yyyy-MM-dd` form. */
  predicate Formattable(d: Date) {
    0 <= d.year < 10000 && 0 <= d.month < 100 && 0 <= d.day < 100
  }

  /** A date in `yyyy-MM-dd` form. */
  function FormatDate(d: Date): (s: string)
    requires Formattable(d)
    ensures |s| == 10 && s[4] == '-' && s[7] == '-'
  {
    FormatFixed(d.year, 4) + "-" + FormatFixed(d.month, 2) + "-" + FormatFixed(d.day, 2)
  }

  /** Reads a `yyyy-MM-dd` date; `None` for any other text or an invalid
      calendar date. */
  function ParseDate(token: string): (r: Option<Date>)
    ensures r.Some? ==> ValidDate(r.value) && FormatDate(r.value) == token
  {
    if |token| != 10 || token[4] != '-' || token[7] != '-' then None
    else
      match (ParseDigits(token[..4]), ParseDigits(token[5..7]), ParseDigits(token[8..]))
      case (Some(y), Some(m), Some(d)) =>
        if ValidDate(Date(y, m, d)) then
          assert token == token[..4] + "-" + token[5..7] + "-" + token[8..];
          Some(Date(y, m, d))
        else None
      case _ => None
  }

  /** Formatting a date and parsing it back gives the date exactly when it
      is a valid calendar date. */
  lemma ParseFormatDate(d: Date)
    requires Formattable(d)
    ensures ParseDate(FormatDate(d)) == if ValidDate(d) then Some(d) else None
  {
    var s := FormatDate(d);
    assert Pow10(2) == 100 && Pow10(4) == 10000;
    ParseFormatFixed(d.year, 4);
    ParseFormatFixed(d.month, 2);
    ParseFormatFixed(d.day, 2);
    assert s[..4] == FormatFixed(d.year, 4);
    assert s[5..7] == FormatFixed(d.month, 2);
    assert s[8..] == FormatFixed(d.day, 2);
  }

  /** February 29th of a year reads back as that date exactly in leap
      years: every fourth year, except century years not divisible by 400. */
  lemma FebruaryTwentyNinth(d: Date)
    requires 1 <= d.year <= 9999 && d.month == 2 && d.day == 29
    ensures ParseDate(FormatDate(d)) == (if IsLeapYear(d.year) then Some(d) else None)
  {
    ParseFormatDate(d);
  }
}
