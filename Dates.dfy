/** Calendar dates and their `YYYY-MM-DD` text form (`strftime('%Y-%m-%d')`). Parsing
    arbitrary spreadsheet text into a date is the spreadsheet library's job and is a
    parameter of the pipelines; `ParseIso` here reads back only the canonical form,
    and is the inverse of `FormatDate`. */
module Dates {
  import opened Wrappers

  datatype Date = Date(year: int, month: int, day: int)

  predicate LeapYear(y: int)
  {
    y % 4 == 0 && (y % 100 != 0 || y % 400 == 0)
  }

  function DaysInMonth(y: int, m: int): int
  {
    if m == 2 then (if LeapYear(y) then 29 else 28)
    else if m == 4 || m == 6 || m == 9 || m == 11 then 30
    else 31
  }

  /** A day of the proleptic Gregorian calendar with a four-digit year. */
  predicate ValidDate(d: Date)
  {
    1 <= d.year <= 9999 && 1 <= d.month <= 12 && 1 <= d.day <= DaysInMonth(d.year, d.month)
  }

  type CalendarDate = d: Date | ValidDate(d) witness Date(2000, 1, 1)

  predicate IsDigit(c: char)
  {
    '0' <= c <= '9'
  }

  predicate AllDigits(s: string)
  {
    forall i :: 0 <= i < |s| ==> IsDigit(s[i])
  }

  function DigitChar(n: nat): (c: char)
    requires n < 10
    ensures IsDigit(c) && c as int - '0' as int == n
  {
    (('0' as int) + n) as char
  }

  function Pow10(w: nat): (p: nat)
    ensures p >= 1
  {
    if w == 0 then 1 else 10 * Pow10(w - 1)
  }

  /** `n` in decimal, zero-padded to exactly `w` digits (the low `w` digits of `n`). */
  function Pad(n: nat, w: nat): (s: string)
    ensures |s| == w && AllDigits(s)
  {
    if w == 0 then [] else Pad(n / 10, w - 1) + [DigitChar(n % 10)]
  }

  /** The number a string of decimal digits denotes. */
  function DigitsValue(s: string): nat
    requires AllDigits(s)
  {
    if s == [] then 0
    else 10 * DigitsValue(s[..|s| - 1]) + (s[|s| - 1] as int - '0' as int)
  }

  lemma {:induction false} DigitsOfPad(n: nat, w: nat)
    requires n < Pow10(w)
    ensures DigitsValue(Pad(n, w)) == n
  {
    if w > 0 {
      DigitsOfPad(n / 10, w - 1);
      var s := Pad(n, w);
      assert s[..|s| - 1] == Pad(n / 10, w - 1);
    }
  }

  lemma {:induction false} PadOfDigits(s: string)
    requires AllDigits(s)
    ensures DigitsValue(s) < Pow10(|s|) && Pad(DigitsValue(s), |s|) == s
  {
    if s != [] {
      var init := s[..|s| - 1];
      PadOfDigits(init);
      var v := DigitsValue(s);
      var c := s[|s| - 1];
      assert v / 10 == DigitsValue(init) && v % 10 == c as int - '0' as int;
      assert DigitChar(v % 10) == c;
      assert s == init + [c];
    }
  }

  /** `YYYY-MM-DD`: ten characters, dashes at positions 4 and 7, digits elsewhere. */
  function FormatDate(d: CalendarDate): (s: string)
    ensures |s| == 10 && s[4] == '-' && s[7] == '-'
    ensures AllDigits(s[..4]) && AllDigits(s[5..7]) && AllDigits(s[8..])
  {
    var s := Pad(d.year, 4) + "-" + Pad(d.month, 2) + "-" + Pad(d.day, 2);
    assert s[..4] == Pad(d.year, 4) && s[5..7] == Pad(d.month, 2) && s[8..] == Pad(d.day, 2);
    s
  }

  /** Reads a canonical `YYYY-MM-DD` string; anything else, or a day that does not
      exist, is rejected. */
  function ParseIso(s: string): Option<CalendarDate>
  {
    if |s| == 10 && s[4] == '-' && s[7] == '-'
       && AllDigits(s[..4]) && AllDigits(s[5..7]) && AllDigits(s[8..])
    then
      var d := Date(DigitsValue(s[..4]), DigitsValue(s[5..7]), DigitsValue(s[8..]));
      if ValidDate(d) then Some(d) else None
    else None
  }

  /** Formatting loses nothing: the date is read back from its text. */
  lemma ParseFormat(d: CalendarDate)
    ensures ParseIso(FormatDate(d)) == Some(d)
  {
    var s := FormatDate(d);
    assert s[..4] == Pad(d.year, 4) && s[5..7] == Pad(d.month, 2) && s[8..] == Pad(d.day, 2);
    DigitsOfPad(d.year, 4);
    DigitsOfPad(d.month, 2);
    DigitsOfPad(d.day, 2);
  }

  /** Only the canonical text of a date is read as that date, so formatting is a
      bijection between dates and the strings `ParseIso` accepts. */
  lemma FormatParse(s: string)
    requires ParseIso(s).Some?
    ensures FormatDate(ParseIso(s).value) == s
  {
    var d := ParseIso(s).value;
    var y, m, dd := s[..4], s[5..7], s[8..];
    assert d.year == DigitsValue(y) && d.month == DigitsValue(m) && d.day == DigitsValue(dd);
    PadOfDigits(y);
    PadOfDigits(m);
    PadOfDigits(dd);
    assert Pad(d.year, 4) == y && Pad(d.month, 2) == m && Pad(d.day, 2) == dd;
    assert s == y + "-" + m + "-" + dd;
  }

  lemma PadYear2024()
    ensures Pad(2024, 4) == "2024"
  {
    assert Pad(2, 1) == "2";
    assert Pad(20, 2) == "20";
    assert Pad(202, 3) == "202";
  }

  /** The first of May 2024 is written `2024-05-01`. */
  lemma FormatMayDay2024()
    ensures FormatDate(Date(2024, 5, 1)) == "2024-05-01"
  {
    PadYear2024();
    assert Pad(5, 2) == "05" && Pad(1, 2) == "01";
  }

  /** Distinct dates have distinct texts. */
  lemma FormatInjective(d1: CalendarDate, d2: CalendarDate)
    requires FormatDate(d1) == FormatDate(d2)
    ensures d1 == d2
  {
    ParseFormat(d1);
    ParseFormat(d2);
  }
}
