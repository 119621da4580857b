/**
 * Civil dates in the proleptic Gregorian calendar, as Go's `time` package
 * treats them for the layout "2006-01-02": leap years, month lengths, a day
 * number that orders dates, the weekday, stepping back by whole days
 * (`AddDate(0, 0, -n)`), and parsing and formatting of `YYYY-MM-DD`.
 */
module Calendar {
  import opened Wrappers

  /** Days of the week in the order of Go's `time.Weekday` (Sunday is 0). */
  datatype Weekday = Sunday | Monday | Tuesday | Wednesday | Thursday | Friday | Saturday

  predicate IsWeekend(w: Weekday) {
    w == Saturday || w == Sunday
  }

  /** A civil date. The year is unbounded and may be zero or negative. */
  datatype Date = Date(year: int, month: int, day: int)

  predicate IsLeap(y: int) {
    y % 4 == 0 && (y % 100 != 0 || y % 400 == 0)
  }

  function YearLength(y: int): int {
    if IsLeap(y) then 366 else 365
  }

  /** Days before the first of each month of a common year; the last entry is the year's length. */
  const DaysBefore: seq<int> := [0, 31, 59, 90, 120, 151, 181, 212, 243, 273, 304, 334, 365]

  /** Number of days in month `m` of year `y`. */
  function DaysIn(m: int, y: int): (n: int)
    requires 1 <= m <= 12
    ensures n == 31 <==> m in {1, 3, 5, 7, 8, 10, 12}
    ensures n == 30 <==> m in {4, 6, 9, 11}
    ensures m == 2 ==> (n == 29 <==> IsLeap(y)) && (n == 28 <==> !IsLeap(y))
  {
    if m == 2 && IsLeap(y) then 29 else DaysBefore[m] - DaysBefore[m - 1]
  }

  predicate Valid(d: Date) {
    1 <= d.month <= 12 && 1 <= d.day <= DaysIn(d.month, d.year)
  }

  /** Number of leap years in the half-open range [0, y), negated when y < 0. */
  function LeapYearsBefore(y: int): int {
    (y + 3) / 4 - (y + 99) / 100 + (y + 399) / 400
  }

  /** Day number of January 1st of year `y`; year 0 starts at day 0. */
  function DaysBeforeYear(y: int): int {
    365 * y + LeapYearsBefore(y)
  }

  /** Day of the year (from 0) of the first of month `m`. */
  function DaysBeforeMonth(m: int, y: int): int
    requires 1 <= m <= 12
  {
    DaysBefore[m - 1] + (if m > 2 && IsLeap(y) then 1 else 0)
  }

  /** Days elapsed since 0000-01-01. */
  function DayNumber(d: Date): int
    requires Valid(d)
  {
    DaysBeforeYear(d.year) + DaysBeforeMonth(d.month, d.year) + d.day - 1
  }

  /** Each ceiling term of LeapYearsBefore grows by one exactly past a multiple of its divisor. */
  lemma CeilStep4(y: int)
    ensures (y + 4) / 4 - (y + 3) / 4 == if y % 4 == 0 then 1 else 0
  {
  }

  lemma CeilStep100(y: int)
    ensures (y + 100) / 100 - (y + 99) / 100 == if y % 100 == 0 then 1 else 0
  {
  }

  lemma CeilStep400(y: int)
    ensures (y + 400) / 400 - (y + 399) / 400 == if y % 400 == 0 then 1 else 0
  {
  }

  /** A multiple of 400 is a multiple of 100. */
  lemma Multiple400(y: int)
    requires y % 400 == 0
    ensures y % 100 == 0
  {
  }

  /** A multiple of 100 is a multiple of 4. */
  lemma Multiple100(y: int)
    requires y % 100 == 0
    ensures y % 4 == 0
  {
  }

  /** The closed form counts exactly one more leap year after each leap year. */
  lemma LeapYearsBeforeStep(y: int)
    ensures LeapYearsBefore(y + 1) == LeapYearsBefore(y) + (if IsLeap(y) then 1 else 0)
  {
    CeilStep4(y);
    CeilStep100(y);
    CeilStep400(y);
    if y % 400 == 0 { Multiple400(y); }
    if y % 100 == 0 { Multiple100(y); }
  }

  /** Consecutive years start YearLength apart. */
  lemma DaysBeforeYearStep(y: int)
    ensures DaysBeforeYear(y + 1) == DaysBeforeYear(y) + YearLength(y)
  {
    LeapYearsBeforeStep(y);
  }

  /** A later year starts at least 365 days per year later. */
  lemma {:induction false} DaysBeforeYearMonotone(a: int, b: int)
    requires a <= b
    ensures DaysBeforeYear(a) + 365 * (b - a) <= DaysBeforeYear(b)
    decreases b - a
  {
    if a < b {
      DaysBeforeYearMonotone(a, b - 1);
      DaysBeforeYearStep(b - 1);
    }
  }

  /** Months fill the year: each month starts where the previous one ends. */
  lemma DaysBeforeMonthStep(m: int, y: int)
    requires 1 <= m <= 12
    ensures DaysBeforeMonth(m, y) + DaysIn(m, y) == if m == 12 then YearLength(y) else DaysBeforeMonth(m + 1, y)
  {
  }

  /** A valid date's day number lies within its own year. */
  lemma DayNumberWithinYear(d: Date)
    requires Valid(d)
    ensures DaysBeforeYear(d.year) <= DayNumber(d) < DaysBeforeYear(d.year + 1)
  {
    DaysBeforeYearStep(d.year);
    DaysBeforeMonthStep(d.month, d.year);
    var m := d.month;
    if m < 12 {
      assert DaysBeforeMonth(m + 1, d.year) <= YearLength(d.year) by {
        assert DaysBefore[m] + (if IsLeap(d.year) then 1 else 0) <= DaysBefore[12] + (if IsLeap(d.year) then 1 else 0);
      }
    }
  }

  /** Lexicographic order on (year, month, day). */
  predicate Before(a: Date, b: Date) {
    a.year < b.year
    || (a.year == b.year && a.month < b.month)
    || (a.year == b.year && a.month == b.month && a.day < b.day)
  }

  /** The day number is strictly increasing in calendar order. */
  lemma DayNumberOrder(a: Date, b: Date)
    requires Valid(a) && Valid(b)
    ensures Before(a, b) <==> DayNumber(a) < DayNumber(b)
  {
    if a.year < b.year {
      DayNumberWithinYear(a);
      DayNumberWithinYear(b);
      DaysBeforeYearMonotone(a.year + 1, b.year);
    } else if b.year < a.year {
      DayNumberWithinYear(a);
      DayNumberWithinYear(b);
      DaysBeforeYearMonotone(b.year + 1, a.year);
    } else if a.month != b.month {
      var (lo, hi) := if a.month < b.month then (a, b) else (b, a);
      DaysBeforeMonthStep(lo.month, lo.year);
      assert DaysBefore[lo.month] <= DaysBefore[hi.month - 1];
    }
  }

  /** Distinct valid dates have distinct day numbers. */
  lemma DayNumberInjective(a: Date, b: Date)
    requires Valid(a) && Valid(b) && DayNumber(a) == DayNumber(b)
    ensures a == b
  {
    DayNumberOrder(a, b);
    DayNumberOrder(b, a);
  }

  /** Weekday of a day number; day 0 (0000-01-01) is a Saturday. */
  function WeekdayOfNumber(n: int): Weekday {
    match (n + 6) % 7
    case 0 => Sunday
    case 1 => Monday
    case 2 => Tuesday
    case 3 => Wednesday
    case 4 => Thursday
    case 5 => Friday
    case _ => Saturday
  }

  /** The day of the week before `w`. */
  function PreviousWeekday(w: Weekday): Weekday {
    match w
    case Sunday => Saturday
    case Monday => Sunday
    case Tuesday => Monday
    case Wednesday => Tuesday
    case Thursday => Wednesday
    case Friday => Thursday
    case Saturday => Friday
  }

  /** 1970-01-01, the Unix epoch, was a Thursday. */
  lemma WeekdayOfUnixEpoch()
    ensures WeekdayOf(Date(1970, 1, 1)) == Thursday
  {
  }

  /** Consecutive day numbers fall on consecutive weekdays. */
  lemma WeekdayOfPreviousNumber(n: int)
    ensures WeekdayOfNumber(n - 1) == PreviousWeekday(WeekdayOfNumber(n))
  {
  }

  /** The weekday of a date, as `Time.Weekday` reports it. */
  function WeekdayOf(d: Date): Weekday
    requires Valid(d)
  {
    WeekdayOfNumber(DayNumber(d))
  }

  /** The calendar day before `d`, crossing month and year boundaries. */
  function PrevDay(d: Date): (r: Date)
    requires Valid(d)
    ensures Valid(r) && DayNumber(r) == DayNumber(d) - 1
  {
    if d.day > 1 then
      Date(d.year, d.month, d.day - 1)
    else if d.month > 1 then
      DaysBeforeMonthStep(d.month - 1, d.year);
      Date(d.year, d.month - 1, DaysIn(d.month - 1, d.year))
    else
      DaysBeforeMonthStep(12, d.year - 1);
      DaysBeforeYearStep(d.year - 1);
      Date(d.year - 1, 12, 31)
  }

  /** The date `n` days before `d`, as Go's `d.AddDate(0, 0, -n)`. */
  function SubtractDays(d: Date, n: nat): (r: Date)
    requires Valid(d)
    ensures Valid(r) && DayNumber(r) == DayNumber(d) - n
    decreases n
  {
    if n == 0 then d else SubtractDays(PrevDay(d), n - 1)
  }

  /** The day before falls on the previous weekday. */
  lemma PrevDayWeekday(d: Date)
    requires Valid(d)
    ensures WeekdayOf(PrevDay(d)) == PreviousWeekday(WeekdayOf(d))
  {
    WeekdayOfPreviousNumber(DayNumber(d));
  }

  /** SubtractDays yields the one valid date whose day number is `n` less. */
  lemma SubtractDaysUnique(d: Date, n: nat, e: Date)
    requires Valid(d) && Valid(e) && DayNumber(e) == DayNumber(d) - n
    ensures SubtractDays(d, n) == e
  {
    DayNumberInjective(SubtractDays(d, n), e);
  }

  // ---------------------------------------------------------------------
  // The layout "2006-01-02"

  predicate IsDigit(c: char) {
    '0' <= c <= '9'
  }

  function DigitValue(c: char): int
    requires IsDigit(c)
  {
    c as int - '0' as int
  }

  function DigitChar(n: int): (c: char)
    requires 0 <= n <= 9
    ensures IsDigit(c) && DigitValue(c) == n
  {
    (n + '0' as int) as char
  }

  /** Two zero-padded digits, as Go's appendInt with width 2. */
  function TwoDigits(n: int): string
    requires 0 <= n < 100
  {
    [DigitChar(n / 10), DigitChar(n % 10)]
  }

  /** Four zero-padded digits, as Go's appendInt with width 4. */
  function FourDigits(n: int): string
    requires 0 <= n < 10000
  {
    [DigitChar(n / 1000), DigitChar(n / 100 % 10), DigitChar(n / 10 % 10), DigitChar(n % 10)]
  }

  /** The number a string of decimal digits denotes, most significant first. */
  function DigitsValue(s: string): int
    requires forall i :: 0 <= i < |s| ==> IsDigit(s[i])
  {
    if |s| == 0 then 0 else 10 * DigitsValue(s[..|s| - 1]) + DigitValue(s[|s| - 1])
  }

  /** All decimal digits of `n`, without padding: Go's appendInt for years of five or more digits. */
  function Decimal(n: nat): (s: string)
    ensures |s| >= 1 && forall i :: 0 <= i < |s| ==> IsDigit(s[i])
    ensures DigitsValue(s) == n
    ensures n >= 10 ==> s[0] != '0'
  {
    if n < 10 then [DigitChar(n)] else Decimal(n / 10) + [DigitChar(n % 10)]
  }

  /** A year as Go writes it for "2006": a sign, then at least four digits. */
  function FormatYear(y: int): string {
    var u := if y < 0 then -y else y;
    (if y < 0 then "-" else "") + (if u < 10000 then FourDigits(u) else Decimal(u))
  }

  /** Go's `Format("2006-01-02")`. */
  function Format(d: Date): (s: string)
    requires Valid(d)
    ensures 0 <= d.year < 10000 ==> |s| == 10
    ensures d.year < 0 ==> |s| > 0 && s[0] == '-'
  {
    FormatYear(d.year) + "-" + TwoDigits(d.month) + "-" + TwoDigits(d.day)
  }

  /** Positions of a ten-character `YYYY-MM-DD` that must hold digits. */
  predicate HasDateShape(s: string) {
    |s| == 10 && s[4] == '-' && s[7] == '-'
    && IsDigit(s[0]) && IsDigit(s[1]) && IsDigit(s[2]) && IsDigit(s[3])
    && IsDigit(s[5]) && IsDigit(s[6]) && IsDigit(s[8]) && IsDigit(s[9])
  }

  /**
   * Go's `time.Parse("2006-01-02", s)`: exactly four year digits, a dash, two
   * month digits naming a month 01-12, a dash, two day digits naming a day of
   * that month, and nothing more.
   */
  function Parse(s: string): (r: Option<Date>)
    ensures r.Some? ==> HasDateShape(s) && Valid(r.value) && 0 <= r.value.year < 10000
    ensures HasDateShape(s) && r.None? ==>
      var m := 10 * DigitValue(s[5]) + DigitValue(s[6]);
      !(1 <= m <= 12) || !(1 <= 10 * DigitValue(s[8]) + DigitValue(s[9]) <= DaysIn(m, ParsedYear(s)))
  {
    if !HasDateShape(s) then None
    else
      var y := ParsedYear(s);
      var m := 10 * DigitValue(s[5]) + DigitValue(s[6]);
      var d := 10 * DigitValue(s[8]) + DigitValue(s[9]);
      if 1 <= m <= 12 && 1 <= d <= DaysIn(m, y) then Some(Date(y, m, d)) else None
  }

  function ParsedYear(s: string): int
    requires HasDateShape(s)
  {
    1000 * DigitValue(s[0]) + 100 * DigitValue(s[1]) + 10 * DigitValue(s[2]) + DigitValue(s[3])
  }

  lemma DigitRoundTrip(c: char)
    requires IsDigit(c)
    ensures DigitChar(DigitValue(c)) == c
  {
  }

  /** Reading back the digits written by FourDigits. */
  lemma FourDigitsValue(n: int)
    requires 0 <= n < 10000
    ensures 1000 * (n / 1000) + 100 * (n / 100 % 10) + 10 * (n / 10 % 10) + n % 10 == n
  {
    assert (n / 100) / 10 == n / 1000;
    assert n / 100 == 10 * (n / 1000) + n / 100 % 10;
    assert (n / 10) / 10 == n / 100;
    assert n / 10 == 10 * (n / 100) + n / 10 % 10;
    assert n == 10 * (n / 10) + n % 10;
  }

  /** Two digit characters are written back as they were read. */
  lemma TwoDigitsOfText(x: char, y: char)
    requires IsDigit(x) && IsDigit(y)
    ensures TwoDigits(10 * DigitValue(x) + DigitValue(y)) == [x, y]
  {
    DigitRoundTrip(x);
    DigitRoundTrip(y);
  }

  /** Four digit characters are written back as they were read. */
  lemma FourDigitsOfText(a: char, b: char, c: char, e: char)
    requires IsDigit(a) && IsDigit(b) && IsDigit(c) && IsDigit(e)
    ensures FourDigits(1000 * DigitValue(a) + 100 * DigitValue(b) + 10 * DigitValue(c) + DigitValue(e)) == [a, b, c, e]
  {
    var n := 1000 * DigitValue(a) + 100 * DigitValue(b) + 10 * DigitValue(c) + DigitValue(e);
    assert n / 1000 == DigitValue(a);
    assert n / 100 == 10 * DigitValue(a) + DigitValue(b);
    assert n / 100 % 10 == DigitValue(b);
    assert n / 10 == 100 * DigitValue(a) + 10 * DigitValue(b) + DigitValue(c);
    assert n / 10 % 10 == DigitValue(c);
    assert n % 10 == DigitValue(e);
    DigitRoundTrip(a);
    DigitRoundTrip(b);
    DigitRoundTrip(c);
    DigitRoundTrip(e);
    assert FourDigits(n) == [DigitChar(DigitValue(a)), DigitChar(DigitValue(b)), DigitChar(DigitValue(c)), DigitChar(DigitValue(e))];
  }

  /** Formatting a parsed date gives back the very string that was parsed. */
  lemma FormatOfParse(s: string)
    requires Parse(s).Some?
    ensures Format(Parse(s).value) == s
  {
    var d := Parse(s).value;
    FourDigitsOfText(s[0], s[1], s[2], s[3]);
    TwoDigitsOfText(s[5], s[6]);
    TwoDigitsOfText(s[8], s[9]);
    assert FormatYear(d.year) == s[..4];
    assert s == s[..4] + "-" + s[5..7] + "-" + s[8..10];
  }

  /** Every valid date of years 0000-9999 is parsed back from its formatted text. */
  lemma ParseOfFormat(d: Date)
    requires Valid(d) && 0 <= d.year < 10000
    ensures Parse(Format(d)) == Some(d)
  {
    var s := Format(d);
    assert s == FourDigits(d.year) + "-" + TwoDigits(d.month) + "-" + TwoDigits(d.day);
    assert HasDateShape(s);
    FourDigitsValue(d.year);
    assert ParsedYear(s) == d.year;
    assert 10 * DigitValue(s[5]) + DigitValue(s[6]) == d.month;
    assert 10 * DigitValue(s[8]) + DigitValue(s[9]) == d.day;
  }

  /** The year before 0000 is written with a sign and four digits. */
  lemma FormatYearMinusOne()
    ensures Format(Date(-1, 12, 31)) == "-0001-12-31"
  {
  }
}
