/**
 * Calendar dates as Go's time.Parse reads them with the layout
 * "2006-01-02": four year digits, a dash, two month digits, a dash, two
 * day digits and nothing more, naming a day that exists in the proleptic
 * Gregorian calendar.
 */
module Calendar {
  import opened Wrappers
  import opened Strconv

  datatype Date = Date(year: int, month: int, day: int)

  /** Go's isLeap: every fourth year, except centuries not divisible by 400. */
  predicate IsLeap(year: int)
  {
    year % 4 == 0 && (year % 100 != 0 || year % 400 == 0)
  }

  /** Go's daysIn: the number of days of `month` in `year`. */
  function DaysIn(month: int, year: int): (n: int)
    requires 1 <= month <= 12
    ensures 28 <= n <= 31
    ensures month == 2 ==> (n == 29 <==> IsLeap(year))
  {
    if month == 2 then (if IsLeap(year) then 29 else 28)
    else if month == 4 || month == 6 || month == 9 || month == 11 then 30
    else 31
  }

  predicate ValidDate(d: Date)
  {
    1 <= d.month <= 12 && 1 <= d.day <= DaysIn(d.month, d.year)
  }

  /** The date `s` names under the layout "2006-01-02", or `None` for Go's parse error. */
  function ParseDate(s: string): (r: Option<Date>)
    ensures r.Some? ==> ValidDate(r.value) && 0 <= r.value.year <= 9999
  {
    if |s| == 10 && AllDigits(s[..4]) && s[4] == '-' && AllDigits(s[5..7]) && s[7] == '-'
       && AllDigits(s[8..])
    then
      var d := Date(DigitsValue(s[..4]), DigitsValue(s[5..7]), DigitsValue(s[8..]));
      if ValidDate(d) then Some(d) else None
    else None
  }

  /** The canonical "YYYY-MM-DD" text of a date whose year has at most four digits. */
  function FormatDate(d: Date): (s: string)
    requires 0 <= d.year <= 9999 && 0 <= d.month && 0 <= d.day
    ensures |s| == 10
  {
    PadDigits(d.year, 4) + ['-'] + PadDigits(d.month, 2) + ['-'] + PadDigits(d.day, 2)
  }

  /** Every existing day of the years 0000 to 9999 is accepted in its canonical form. */
  lemma ParseFormatDate(d: Date)
    requires ValidDate(d) && 0 <= d.year <= 9999
    ensures ParseDate(FormatDate(d)) == Some(d)
  {
    PadDigitsValue(d.year, 4);
    PadDigitsValue(d.month, 2);
    PadDigitsValue(d.day, 2);
    ParseDateOfFields(PadDigits(d.year, 4), PadDigits(d.month, 2), PadDigits(d.day, 2));
  }

  /** A text of the layout's shape names the date its three digit fields spell, if that day exists. */
  lemma ParseDateOfFields(y: string, m: string, dd: string)
    requires |y| == 4 && |m| == 2 && |dd| == 2 && AllDigits(y) && AllDigits(m) && AllDigits(dd)
    ensures var d := Date(DigitsValue(y), DigitsValue(m), DigitsValue(dd));
      ParseDate(y + ['-'] + m + ['-'] + dd) == if ValidDate(d) then Some(d) else None
  {
    var s := y + ['-'] + m + ['-'] + dd;
    assert s[..4] == y && s[4] == '-' && s[5..7] == m && s[7] == '-' && s[8..] == dd;
  }

  /** Only the canonical form is accepted: an accepted text is the canonical text of its date. */
  lemma FormatParseDate(s: string, d: Date)
    requires ParseDate(s) == Some(d)
    ensures FormatDate(d) == s
  {
    assert d == Date(DigitsValue(s[..4]), DigitsValue(s[5..7]), DigitsValue(s[8..]));
    assert PadDigits(d.year, 4) == s[..4] by { DigitsValuePad(s[..4]); }
    assert PadDigits(d.month, 2) == s[5..7] by { DigitsValuePad(s[5..7]); }
    assert PadDigits(d.day, 2) == s[8..] by { DigitsValuePad(s[8..]); }
    assert s == s[..4] + [s[4]] + s[5..7] + [s[7]] + s[8..];
  }

  /** The date a text of the layout's shape names, read digit by digit. */
  lemma ParseDateDigits(s: string)
    requires |s| == 10 && s[4] == '-' && s[7] == '-'
    requires forall i :: 0 <= i < 10 && i != 4 && i != 7 ==> IsDigit(s[i])
    ensures var d := Date(
        1000 * DigitValue(s[0]) + 100 * DigitValue(s[1]) + 10 * DigitValue(s[2]) + DigitValue(s[3]),
        10 * DigitValue(s[5]) + DigitValue(s[6]),
        10 * DigitValue(s[8]) + DigitValue(s[9]));
      ParseDate(s) == if ValidDate(d) then Some(d) else None
  {
    DigitsValue4(s[..4]);
    DigitsValue2(s[5..7]);
    DigitsValue2(s[8..]);
  }

  /** February 29 exists in a leap year divisible by 4. */
  lemma LeapDay2024Accepted()
    ensures ParseDate("2024-02-29") == Some(Date(2024, 2, 29))
  {
    var s := "2024-02-29";
    assert s[0] == '2' && s[1] == '0' && s[2] == '2' && s[3] == '4'
      && s[5] == '0' && s[6] == '2' && s[8] == '2' && s[9] == '9';
    ParseDateDigits(s);
  }

  /** February 29 exists in a century year divisible by 400. */
  lemma LeapDay2000Accepted()
    ensures ParseDate("2000-02-29") == Some(Date(2000, 2, 29))
  {
    var s := "2000-02-29";
    assert s[0] == '2' && s[1] == '0' && s[2] == '0' && s[3] == '0'
      && s[5] == '0' && s[6] == '2' && s[8] == '2' && s[9] == '9';
    ParseDateDigits(s);
  }

  /** February 29 does not exist in a year not divisible by 4. */
  lemma LeapDay2023Rejected()
    ensures ParseDate("2023-02-29") == None
  {
    var s := "2023-02-29";
    assert s[0] == '2' && s[1] == '0' && s[2] == '2' && s[3] == '3'
      && s[5] == '0' && s[6] == '2' && s[8] == '2' && s[9] == '9';
    ParseDateDigits(s);
  }

  /** February 29 does not exist in a century year not divisible by 400. */
  lemma LeapDay1900Rejected()
    ensures ParseDate("1900-02-29") == None
  {
    var s := "1900-02-29";
    assert s[0] == '1' && s[1] == '9' && s[2] == '0' && s[3] == '0'
      && s[5] == '0' && s[6] == '2' && s[8] == '2' && s[9] == '9';
    ParseDateDigits(s);
  }

  /** April has 30 days. */
  lemma ThirtyFirstOfAprilRejected()
    ensures ParseDate("2022-04-31") == None
  {
    var s := "2022-04-31";
    assert s[0] == '2' && s[1] == '0' && s[2] == '2' && s[3] == '2'
      && s[5] == '0' && s[6] == '4' && s[8] == '3' && s[9] == '1';
    ParseDateDigits(s);
  }

  /** There is no thirteenth month. */
  lemma ThirteenthMonthRejected()
    ensures ParseDate("2022-13-01") == None
  {
    var s := "2022-13-01";
    assert s[0] == '2' && s[1] == '0' && s[2] == '2' && s[3] == '2'
      && s[5] == '1' && s[6] == '3' && s[8] == '0' && s[9] == '1';
    ParseDateDigits(s);
  }

  /** The layout fixes the length: a one-digit month and trailing text are both rejected. */
  lemma MalformedLayoutRejected()
    ensures ParseDate("2022-1-01") == None
    ensures ParseDate("2022-01-01 ") == None
  {
  }
}
