/** Calendar dates and the `%d/%m/%Y` parser that the loader applies to the
    recruitment-date column (pandas.to_datetime with errors='coerce'). */
module Dates {
  import opened Wrappers
  import opened Text

  datatype Date = Date(year: int, month: int, day: int)

  predicate IsLeapYear(y: int)
  {
    y % 4 == 0 && (y % 100 != 0 || y % 400 == 0)
  }

  function DaysInMonth(y: int, m: int): (n: int)
    requires 1 <= m <= 12
    ensures 28 <= n <= 31
    ensures n == 28 <==> m == 2 && !IsLeapYear(y)
    ensures n == 29 <==> m == 2 && IsLeapYear(y)
    ensures n == 30 <==> m == 4 || m == 6 || m == 9 || m == 11
    ensures n == 31 <==> m == 1 || m == 3 || m == 5 || m == 7 || m == 8 || m == 10 || m == 12
  {
    if m == 2 then (if IsLeapYear(y) then 29 else 28)
    else if m == 4 || m == 6 || m == 9 || m == 11 then 30
    else 31
  }

  /** A date Python's datetime.date accepts. */
  predicate IsCalendarDate(d: Date)
  {
    1 <= d.year <= 9999 && 1 <= d.month <= 12 && 1 <= d.day <= DaysInMonth(d.year, d.month)
  }

  /** Chronological order (date <= date). */
  predicate AtOrBefore(a: Date, b: Date)
  {
    a.year < b.year ||
    (a.year == b.year && (a.month < b.month || (a.month == b.month && a.day <= b.day)))
  }

  /** Midnight of the first and last days that a nanosecond pandas Timestamp
      can hold; a parsed date outside them is out of bounds and, with
      errors='coerce', becomes NaT. */
  const TimestampMin := Date(1677, 9, 22)
  const TimestampMax := Date(2262, 4, 11)

  predicate IsRepresentable(d: Date)
  {
    IsCalendarDate(d) && AtOrBefore(TimestampMin, d) && AtOrBefore(d, TimestampMax)
  }

  predicate IsDigit(c: char) { '0' <= c <= '9' }

  function DigitValue(c: char): (v: int)
    requires IsDigit(c)
    ensures 0 <= v <= 9
  {
    c as int - '0' as int
  }

  /** The `%d` directive: `3[01]|[12]\d|0[1-9]|[1-9]| [1-9]`, the whole field. */
  function DayField(s: string): (r: Option<int>)
    ensures r.Some? ==> 1 <= r.value <= 31
  {
    if |s| == 1 && IsDigit(s[0]) && s[0] != '0' then Some(DigitValue(s[0]))
    else if |s| == 2 && s[0] == ' ' && IsDigit(s[1]) && s[1] != '0' then Some(DigitValue(s[1]))
    else if |s| == 2 && IsDigit(s[0]) && IsDigit(s[1]) &&
            1 <= 10 * DigitValue(s[0]) + DigitValue(s[1]) <= 31
    then Some(10 * DigitValue(s[0]) + DigitValue(s[1]))
    else None
  }

  /** The `%m` directive: `1[0-2]|0[1-9]|[1-9]`, the whole field. */
  function MonthField(s: string): (r: Option<int>)
    ensures r.Some? ==> 1 <= r.value <= 12
  {
    if |s| == 1 && IsDigit(s[0]) && s[0] != '0' then Some(DigitValue(s[0]))
    else if |s| == 2 && IsDigit(s[0]) && IsDigit(s[1]) &&
            1 <= 10 * DigitValue(s[0]) + DigitValue(s[1]) <= 12
    then Some(10 * DigitValue(s[0]) + DigitValue(s[1]))
    else None
  }

  /** The `%Y` directive: exactly four digits. */
  function YearField(s: string): (r: Option<int>)
    ensures r.Some? ==> 0 <= r.value <= 9999
  {
    if |s| == 4 && IsDigit(s[0]) && IsDigit(s[1]) && IsDigit(s[2]) && IsDigit(s[3])
    then Some(1000 * DigitValue(s[0]) + 100 * DigitValue(s[1]) + 10 * DigitValue(s[2]) + DigitValue(s[3]))
    else None
  }

  /** `pd.to_datetime(text, format='%d/%m/%Y', errors='coerce')` for one cell:
      the three fields separated by '/', nothing left over, a real calendar
      day, inside the Timestamp window; anything else is NaT (None). */
  function ParseDmy(s: string): (r: Option<Date>)
    ensures r.Some? ==> IsRepresentable(r.value)
    ensures r.Some? ==> |SplitOn(s, '/')| == 3
  {
    var parts := SplitOn(s, '/');
    if |parts| != 3 then None
    else
      match (DayField(parts[0]), MonthField(parts[1]), YearField(parts[2]))
      case (Some(d), Some(m), Some(y)) =>
        if IsRepresentable(Date(y, m, d)) then Some(Date(y, m, d)) else None
      case _ => None
  }

  /** Two-digit rendering of 0..99 with a leading zero. */
  function Pad2(n: int): (s: string)
    requires 0 <= n <= 99
    ensures |s| == 2 && IsDigit(s[0]) && IsDigit(s[1])
    ensures 10 * DigitValue(s[0]) + DigitValue(s[1]) == n
  {
    ['0' + (n / 10) as char, '0' + (n % 10) as char]
  }

  /** Four-digit rendering of 0..9999 with leading zeros. */
  function Pad4(n: int): (s: string)
    requires 0 <= n <= 9999
    ensures |s| == 4 && IsDigit(s[0]) && IsDigit(s[1]) && IsDigit(s[2]) && IsDigit(s[3])
    ensures 1000 * DigitValue(s[0]) + 100 * DigitValue(s[1]) + 10 * DigitValue(s[2]) + DigitValue(s[3]) == n
  {
    Pad2(n / 100) + Pad2(n % 100)
  }

  /** The `DD/MM/YYYY` text the source data carries. */
  function FormatDmy(d: Date): string
    requires 0 <= d.year <= 9999 && 1 <= d.month <= 12 && 1 <= d.day <= 31
  {
    Pad2(d.day) + "/" + Pad2(d.month) + "/" + Pad4(d.year)
  }

  /** Reading three '/'-free fields joined by '/' reads each field on its own. */
  lemma ParseFields(a: string, b: string, c: string)
    requires '/' !in a && '/' !in b && '/' !in c
    ensures ParseDmy(a + "/" + b + "/" + c) ==
      match (DayField(a), MonthField(b), YearField(c))
      case (Some(d), Some(m), Some(y)) =>
        if IsRepresentable(Date(y, m, d)) then Some(Date(y, m, d)) else None
      case _ => None
  {
    var parts := [a, b, c];
    assert parts[1..] == [b, c] && parts[1..][1..] == [c];
    assert JoinWith([b, c], '/') == b + "/" + c;
    assert JoinWith(parts, '/') == a + "/" + (b + "/" + c);
    var s := a + "/" + b + "/" + c;
    assert s == JoinWith(parts, '/');
    SplitJoin(parts, '/');
    assert SplitOn(s, '/') == parts;
  }

  /** Every representable date written as DD/MM/YYYY is read back unchanged. */
  lemma ParseFormat(d: Date)
    requires IsRepresentable(d)
    ensures ParseDmy(FormatDmy(d)) == Some(d)
  {
    ParseFields(Pad2(d.day), Pad2(d.month), Pad4(d.year));
  }

  /** Single-digit and space-padded days and single-digit months are accepted
      too: `1/6/2024` and ` 1/06/2024` are the same date as `01/06/2024`. */
  lemma ShortFieldsAccepted()
    ensures ParseDmy("1/6/2024") == Some(Date(2024, 6, 1))
    ensures ParseDmy(" 1/06/2024") == Some(Date(2024, 6, 1))
  {
    assert "1/6/2024" == "1" + "/" + "6" + "/" + "2024";
    ParseFields("1", "6", "2024");
    assert DayField("1") == Some(1) && MonthField("6") == Some(6) && YearField("2024") == Some(2024);
    assert " 1/06/2024" == " 1" + "/" + "06" + "/" + "2024";
    ParseFields(" 1", "06", "2024");
    assert DayField(" 1") == Some(1) && MonthField("06") == Some(6);
  }

  /** Days that do not exist in the calendar are rejected: 31 April ... */
  lemma ThirtyFirstOfAprilRejected()
    ensures ParseDmy("31/04/2024") == None
  {
    assert "31/04/2024" == "31" + "/" + "04" + "/" + "2024";
    ParseFields("31", "04", "2024");
    assert DayField("31") == Some(31) && MonthField("04") == Some(4) && YearField("2024") == Some(2024);
    assert !IsCalendarDate(Date(2024, 4, 31));
  }

  /** ... and 29 February outside a leap year ... */
  lemma LeapDayOutsideLeapYearRejected()
    ensures ParseDmy("29/02/2023") == None
  {
    assert "29/02/2023" == "29" + "/" + "02" + "/" + "2023";
    ParseFields("29", "02", "2023");
    assert DayField("29") == Some(29) && MonthField("02") == Some(2) && YearField("2023") == Some(2023);
    assert !IsLeapYear(2023);
    assert !IsCalendarDate(Date(2023, 2, 29));
  }

  /** ... while it is accepted in one. */
  lemma LeapDayAccepted()
    ensures ParseDmy("29/02/2024") == Some(Date(2024, 2, 29))
  {
    assert IsLeapYear(2024);
    ParseFormat(Date(2024, 2, 29));
    assert FormatDmy(Date(2024, 2, 29)) == "29/02/2024";
  }

  /** The day before the Timestamp window opens is coerced to NaT ... */
  lemma BeforeWindowRejected()
    ensures ParseDmy("21/09/1677") == None
  {
    assert "21/09/1677" == "21" + "/" + "09" + "/" + "1677";
    ParseFields("21", "09", "1677");
    assert DayField("21") == Some(21) && MonthField("09") == Some(9) && YearField("1677") == Some(1677);
    assert !AtOrBefore(TimestampMin, Date(1677, 9, 21));
  }

  /** ... and so is the day after it closes. */
  lemma AfterWindowRejected()
    ensures ParseDmy("12/04/2262") == None
  {
    assert "12/04/2262" == "12" + "/" + "04" + "/" + "2262";
    ParseFields("12", "04", "2262");
    assert DayField("12") == Some(12) && MonthField("04") == Some(4) && YearField("2262") == Some(2262);
    assert !AtOrBefore(Date(2262, 4, 12), TimestampMax);
  }
}
