/** Proleptic Gregorian calendar dates, numbered by days since 1970-01-01,
    with the `YYYY-MM-DD` and `DD-MM-YYYY` text forms the system reads and writes. */
module Calendar {
  import opened Wrappers
  import Text

  datatype Date = Date(year: int, month: int, day: int)

  predicate IsLeapYear(y: int) {
    y % 4 == 0 && (y % 100 != 0 || y % 400 == 0)
  }

  function DaysInYear(y: int): int {
    if IsLeapYear(y) then 366 else 365
  }

  function DaysInMonth(y: int, m: int): int
    requires 1 <= m <= 12
  {
    if m == 2 then (if IsLeapYear(y) then 29 else 28)
    else if m == 4 || m == 6 || m == 9 || m == 11 then 30
    else 31
  }

  predicate Valid(d: Date) {
    1 <= d.month <= 12 && 1 <= d.day <= DaysInMonth(d.year, d.month)
  }

  /** Calendar order (the order of SQL `DATE` comparisons). */
  predicate Precedes(a: Date, b: Date) {
    a.year < b.year
    || (a.year == b.year && a.month < b.month)
    || (a.year == b.year && a.month == b.month && a.day < b.day)
  }

  // ---------------------------------------------------------------- day numbers

  /** Day number of 1 January of year `y`. */
  function YearStart(y: int): int
    decreases if y >= 1970 then y - 1970 else 1970 - y
  {
    if y == 1970 then 0
    else if y > 1970 then YearStart(y - 1) + DaysInYear(y - 1)
    else YearStart(y + 1) - DaysInYear(y)
  }

  lemma YearStartStep(y: int)
    ensures YearStart(y + 1) == YearStart(y) + DaysInYear(y)
  {
  }

  lemma {:induction false} YearStartGrows(a: int, b: int)
    requires a < b
    ensures YearStart(a) + DaysInYear(a) <= YearStart(b)
    decreases b - a
  {
    YearStartStep(a);
    if a + 1 < b {
      YearStartGrows(a + 1, b);
    }
  }

  /** Days of year `y` before the first of month `m` (`m == 13` gives the whole year). */
  function MonthStart(y: int, m: int): (r: int)
    requires 1 <= m <= 13
    ensures r >= 0
  {
    if m == 1 then 0 else MonthStart(y, m - 1) + DaysInMonth(y, m - 1)
  }

  lemma MonthStartWholeYear(y: int)
    ensures MonthStart(y, 13) == DaysInYear(y)
  {
    var feb := DaysInMonth(y, 2);
    assert MonthStart(y, 2) == 31;
    assert MonthStart(y, 3) == 31 + feb;
    assert MonthStart(y, 4) == 62 + feb;
    assert MonthStart(y, 5) == 92 + feb;
    assert MonthStart(y, 6) == 123 + feb;
    assert MonthStart(y, 7) == 153 + feb;
    assert MonthStart(y, 8) == 184 + feb;
    assert MonthStart(y, 9) == 215 + feb;
    assert MonthStart(y, 10) == 245 + feb;
    assert MonthStart(y, 11) == 276 + feb;
    assert MonthStart(y, 12) == 306 + feb;
  }

  lemma {:induction false} MonthStartGrows(y: int, a: int, b: int)
    requires 1 <= a < b <= 13
    ensures MonthStart(y, a) + DaysInMonth(y, a) <= MonthStart(y, b)
    decreases b - a
  {
    if a + 1 < b {
      MonthStartGrows(y, a + 1, b);
    }
  }

  /** Days since 1970-01-01 (negative before it). */
  function DayNumber(d: Date): int
    requires Valid(d)
  {
    YearStart(d.year) + MonthStart(d.year, d.month) + d.day - 1
  }

  function LocateYear(n: int, y: int): (r: (int, int))
    ensures 0 <= r.1 < DaysInYear(r.0)
    ensures YearStart(r.0) + r.1 == YearStart(y) + n
    decreases (if n < 0 then 1 else 0), (if n < 0 then -n else n)
  {
    if n < 0 then
      YearStartStep(y - 1);
      LocateYear(n + DaysInYear(y - 1), y - 1)
    else if n >= DaysInYear(y) then
      YearStartStep(y);
      LocateYear(n - DaysInYear(y), y + 1)
    else (y, n)
  }

  function LocateMonth(y: int, off: int, m: int): (d: Date)
    requires 1 <= m <= 12 && MonthStart(y, m) <= off < DaysInYear(y)
    ensures Valid(d) && d.year == y && MonthStart(y, d.month) + d.day - 1 == off
    decreases 12 - m
  {
    MonthStartWholeYear(y);
    if m == 12 || off < MonthStart(y, m + 1) then Date(y, m, off - MonthStart(y, m) + 1)
    else LocateMonth(y, off, m + 1)
  }

  /** The date with day number `n`. */
  function FromDayNumber(n: int): (d: Date)
    ensures Valid(d) && DayNumber(d) == n
  {
    var yo := LocateYear(n, 1970);
    LocateMonth(yo.0, yo.1, 1)
  }

  lemma DayNumberInjective(a: Date, b: Date)
    requires Valid(a) && Valid(b) && DayNumber(a) == DayNumber(b)
    ensures a == b
  {
    MonthStartWholeYear(a.year);
    MonthStartWholeYear(b.year);
    MonthStartGrows(a.year, a.month, 13);
    MonthStartGrows(b.year, b.month, 13);
    if a.year < b.year {
      YearStartGrows(a.year, b.year);
    } else if b.year < a.year {
      YearStartGrows(b.year, a.year);
    }
    if a.month < b.month {
      MonthStartGrows(a.year, a.month, b.month);
    } else if b.month < a.month {
      MonthStartGrows(a.year, b.month, a.month);
    }
  }

  /** Day numbers and dates are in one-to-one correspondence. */
  lemma DayNumberRoundTrip(d: Date)
    requires Valid(d)
    ensures FromDayNumber(DayNumber(d)) == d
  {
    DayNumberInjective(FromDayNumber(DayNumber(d)), d);
  }

  /** `date.add(k, 'days')`. */
  function AddDays(d: Date, k: int): (r: Date)
    requires Valid(d)
    ensures Valid(r) && DayNumber(r) == DayNumber(d) + k
  {
    FromDayNumber(DayNumber(d) + k)
  }

  /** Adding days that stay inside the month only moves the day of the month. */
  lemma AddDaysWithinMonth(d: Date, k: nat)
    requires Valid(d) && d.day + k <= DaysInMonth(d.year, d.month)
    ensures AddDays(d, k) == Date(d.year, d.month, d.day + k)
  {
    DayNumberInjective(AddDays(d, k), Date(d.year, d.month, d.day + k));
  }

  // ---------------------------------------------------------------- closed form

  /** Leap years strictly before year `y`, counted from year 1 (negative below it). */
  function LeapsBefore(y: int): int {
    (y - 1) / 4 - (y - 1) / 100 + (y - 1) / 400
  }

  /** Stepping past a multiple of `d` adds one to the quotient; any other step adds nothing. */
  lemma DivStep(a: int, d: int)
    requires d == 4 || d == 100 || d == 400
    ensures (a + 1) / d == a / d + (if (a + 1) % d == 0 then 1 else 0)
  {
    var q, r := a / d, a % d;
    assert a == d * q + r && 0 <= r < d;
    if r == d - 1 {
      assert a + 1 == d * (q + 1);
    } else {
      assert a + 1 == d * q + (r + 1);
    }
  }

  lemma LeapsStep(y: int)
    ensures LeapsBefore(y + 1) == LeapsBefore(y) + (if IsLeapYear(y) then 1 else 0)
  {
    DivStep(y - 1, 4);
    DivStep(y - 1, 100);
    DivStep(y - 1, 400);
    assert y % 100 == 0 ==> y % 4 == 0;
    assert y % 400 == 0 ==> y % 100 == 0;
  }

  /** `YearStart` without recursion, for evaluating concrete dates. */
  lemma {:induction false} YearStartClosed(y: int)
    ensures YearStart(y) == 365 * (y - 1970) + LeapsBefore(y) - LeapsBefore(1970)
    decreases if y >= 1970 then y - 1970 else 1970 - y
  {
    if y > 1970 {
      YearStartClosed(y - 1);
      LeapsStep(y - 1);
    } else if y < 1970 {
      YearStartClosed(y + 1);
      LeapsStep(y);
    }
  }

  // ---------------------------------------------------------------- text forms

  /** A year as moment's `YYYY` token writes it: zero-filled to four digits, signed when negative. */
  function YearText(y: int): string {
    if y >= 0 then Text.ZeroPad(y, 4) else "-" + Text.ZeroPad(-y, 4)
  }

  /** `YYYY-MM-DD`. */
  function Format(d: Date): string
    requires Valid(d)
  {
    YearText(d.year) + "-" + Text.Digits(d.month, 2) + "-" + Text.Digits(d.day, 2)
  }

  predicate DigitsAt(s: string, lo: nat, hi: nat)
    requires lo <= hi <= |s|
  {
    Text.AllDigits(s[lo..hi])
  }

  /** Reads `YYYY-MM-DD` strictly: exactly that shape, and a real date. */
  function ParseYmd(s: string): (r: Option<Date>)
    ensures r.Some? ==> Valid(r.value) && 0 <= r.value.year <= 9999
  {
    if |s| == 10 && DigitsAt(s, 0, 4) && s[4] == '-' && DigitsAt(s, 5, 7) && s[7] == '-' && DigitsAt(s, 8, 10)
    then
      var d := Date(Text.DecimalValue(s[0..4]), Text.DecimalValue(s[5..7]), Text.DecimalValue(s[8..10]));
      Text.ValueDigits(s[0..4]);
      if Valid(d) then Some(d) else None
    else None
  }

  /** Reads `DD-MM-YYYY` strictly (moment's strict mode): exactly that shape, and a real date. */
  function ParseDmy(s: string): (r: Option<Date>)
    ensures r.Some? ==> Valid(r.value) && 0 <= r.value.year <= 9999
  {
    if |s| == 10 && DigitsAt(s, 0, 2) && s[2] == '-' && DigitsAt(s, 3, 5) && s[5] == '-' && DigitsAt(s, 6, 10)
    then
      var d := Date(Text.DecimalValue(s[6..10]), Text.DecimalValue(s[3..5]), Text.DecimalValue(s[0..2]));
      Text.ValueDigits(s[6..10]);
      if Valid(d) then Some(d) else None
    else None
  }

  /** Formatting a four-digit-year date and reading it back gives the date. */
  lemma FormatParseRoundTrip(d: Date)
    requires Valid(d) && 0 <= d.year <= 9999
    ensures |Format(d)| == 10
    ensures ParseYmd(Format(d)) == Some(d)
  {
    var s := Format(d);
    Text.DigitsValue(d.year, 4);
    Text.DigitsValue(d.month, 2);
    Text.DigitsValue(d.day, 2);
    assert s[0..4] == Text.Digits(d.year, 4);
    assert s[5..7] == Text.Digits(d.month, 2);
    assert s[8..10] == Text.Digits(d.day, 2);
  }

  /** A string that reads as a date is exactly that date's `YYYY-MM-DD` form. */
  lemma ParseFormatRoundTrip(s: string)
    requires ParseYmd(s).Some?
    ensures Format(ParseYmd(s).value) == s
  {
    var d := ParseYmd(s).value;
    Text.ValueDigits(s[0..4]);
    Text.ValueDigits(s[5..7]);
    Text.ValueDigits(s[8..10]);
    assert s == s[0..4] + "-" + s[5..7] + "-" + s[8..10];
  }
}
