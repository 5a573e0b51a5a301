/** `convertUnixToMySQLDateTime` (src/utils/dateTimeUtils.js): an epoch
    millisecond count rendered as a MySQL `DATETIME` literal in UTC. */
module DateTimeFormat {
  import opened Wrappers
  import Js
  import Text
  import Calendar

  /** Texts the source logs, throws or returns, as it writes them. */
  const InvalidTime := "Invalid time value"

  /** The argument given to `new Date(...)`: a millisecond count, or a value
      that `new Date` reads as an invalid time, such as the text `'invalid'`. */
  datatype TimeArg = Millis(ms: int) | NotANumber

  /** The largest distance from the epoch a JavaScript `Date` can hold. */
  const MaxTime: int := 8_640_000_000_000_000
  const MsPerDay: int := 86_400_000

  /** The instant's calendar date and time of day in UTC (division rounds toward minus infinity). */
  function DateOf(ms: int): Calendar.Date {
    Calendar.FromDayNumber(ms / MsPerDay)
  }

  function HourOf(ms: int): nat { (ms % MsPerDay) / 3_600_000 }
  function MinuteOf(ms: int): nat { (ms % MsPerDay) / 60_000 % 60 }
  function SecondOf(ms: int): nat { (ms % MsPerDay) / 1000 % 60 }
  function MilliOf(ms: int): nat { ms % 1000 }

  /** The year as `toISOString` writes it: four digits in 0..9999, otherwise a sign and six digits. */
  function IsoYear(y: int): string {
    if 0 <= y <= 9999 then Text.Digits(y, 4)
    else if y < 0 then "-" + Text.ZeroPad(-y, 6)
    else "+" + Text.ZeroPad(y, 6)
  }

  /** The date part of `toISOString`. */
  function IsoDate(d: Calendar.Date): string
    requires Calendar.Valid(d)
  {
    IsoYear(d.year) + "-" + Text.Digits(d.month, 2) + "-" + Text.Digits(d.day, 2)
  }

  /** `new Date(ms).toISOString()` for a time value in range: date, `T`,
      `HH:MM:SS`, then `.mmmZ`. */
  function IsoString(ms: int): string {
    IsoDate(DateOf(ms)) + "T" + ClockText(ms) + ("." + Text.Digits(MilliOf(ms), 3) + "Z")
  }

  /** `new Date(arg).toISOString().slice(0, 19).replace('T', ' ')`; an invalid
      time value makes `toISOString` throw a `RangeError`. */
  function ToMySqlDateTime(arg: TimeArg): (r: Js.Completion<string>)
    ensures r.Throw? <==> arg.NotANumber? || arg.ms < -MaxTime || arg.ms > MaxTime
    ensures r.Throw? ==> r.error == Js.RangeError(InvalidTime)
  {
    match arg
    case NotANumber => Js.Throw(Js.RangeError(InvalidTime))
    case Millis(ms) =>
      if ms < -MaxTime || ms > MaxTime then Js.Throw(Js.RangeError(InvalidTime))
      else
        var iso := IsoString(ms);
        Js.Normal(Text.ReplaceFirst(iso[..19], "T", " "))
  }

  // ---------------------------------------------------------------- reading back

  /** `HH:MM:SS` of the instant's UTC time of day. */
  function ClockText(ms: int): string {
    Text.Digits(HourOf(ms), 2) + ":" + Text.Digits(MinuteOf(ms), 2) + ":" + Text.Digits(SecondOf(ms), 2)
  }

  /** Reads `HH:MM:SS` back into milliseconds since midnight. */
  function ParseClock(s: string): Option<int> {
    if |s| == 8 && s[2] == ':' && s[5] == ':'
       && Calendar.DigitsAt(s, 0, 2) && Calendar.DigitsAt(s, 3, 5) && Calendar.DigitsAt(s, 6, 8)
    then
      var h := Text.DecimalValue(s[0..2]);
      var mi := Text.DecimalValue(s[3..5]);
      var se := Text.DecimalValue(s[6..8]);
      if h < 24 && mi < 60 && se < 60 then Some(h * 3_600_000 + mi * 60_000 + se * 1000) else None
    else None
  }

  /** Reads `YYYY-MM-DD HH:MM:SS` back into epoch milliseconds. */
  function ParseMySqlDateTime(s: string): Option<int> {
    if |s| == 19 && s[10] == ' ' && Calendar.ParseYmd(s[..10]).Some? && ParseClock(s[11..]).Some?
    then Some(Calendar.DayNumber(Calendar.ParseYmd(s[..10]).value) * MsPerDay + ParseClock(s[11..]).value)
    else None
  }

  predicate FourDigitYear(ms: int) {
    0 <= DateOf(ms).year <= 9999
  }

  lemma TimeOfDayParts(ms: int)
    ensures HourOf(ms) < 24 && MinuteOf(ms) < 60 && SecondOf(ms) < 60
    ensures (ms / MsPerDay) * MsPerDay + HourOf(ms) * 3_600_000 + MinuteOf(ms) * 60_000 + SecondOf(ms) * 1000
            == ms - MilliOf(ms)
  {
    var t := ms % MsPerDay;
    assert ms == (ms / MsPerDay) * MsPerDay + t && 0 <= t < MsPerDay;
    var secs := t / 1000;
    assert t == secs * 1000 + t % 1000;
    assert MilliOf(ms) == t % 1000 by {
      assert ms == ((ms / MsPerDay) * 86_400 + secs) * 1000 + t % 1000;
    }
    var mins := t / 60_000;
    assert mins == secs / 60 && secs == mins * 60 + secs % 60;
    assert HourOf(ms) == mins / 60 && mins == HourOf(ms) * 60 + mins % 60;
  }

  lemma ClockRoundTrip(ms: int)
    ensures |ClockText(ms)| == 8
    ensures ParseClock(ClockText(ms)) == Some(HourOf(ms) * 3_600_000 + MinuteOf(ms) * 60_000 + SecondOf(ms) * 1000)
  {
    var c := ClockText(ms);
    TimeOfDayParts(ms);
    assert c[0..2] == Text.Digits(HourOf(ms), 2);
    assert c[3..5] == Text.Digits(MinuteOf(ms), 2);
    assert c[6..8] == Text.Digits(SecondOf(ms), 2);
    Text.DigitsValue(HourOf(ms), 2);
    Text.DigitsValue(MinuteOf(ms), 2);
    Text.DigitsValue(SecondOf(ms), 2);
  }

  /** For a four-digit year, the first 19 characters of the ISO form are the date, `T`, and the clock. */
  lemma IsoHead(ms: int)
    requires FourDigitYear(ms)
    ensures |IsoString(ms)| >= 19
    ensures IsoString(ms)[..19] == Calendar.Format(DateOf(ms)) + "T" + ClockText(ms)
  {
    var d := DateOf(ms);
    assert Text.Pow10(4) == 10000;
    assert IsoDate(d) == Calendar.Format(d) by {
      assert IsoYear(d.year) == Calendar.YearText(d.year);
    }
    Calendar.FormatParseRoundTrip(d);
    ClockRoundTrip(ms);
  }

  /** Replacing the first `T` of `date + "T" + rest`, when the date part holds no `T`. */
  lemma ReplaceSeparator(date: string, rest: string)
    requires |date| == 10 && forall j :: 0 <= j < 10 ==> date[j] != 'T'
    ensures Text.ReplaceFirst(date + "T" + rest, "T", " ") == date + " " + rest
  {
    var s := date + "T" + rest;
    assert s[10..11] == "T";
    assert Text.OccursAt(s, "T", 10);
    forall j: nat | j < 10 ensures !Text.OccursAt(s, "T", j) {
      assert s[j..j + 1] == [date[j]];
    }
    assert s[..10] == date && s[11..] == rest;
  }

  lemma FormatHasNoT(d: Calendar.Date)
    requires Calendar.Valid(d) && 0 <= d.year <= 9999
    ensures |Calendar.Format(d)| == 10
    ensures forall j :: 0 <= j < 10 ==> Calendar.Format(d)[j] != 'T'
  {
    Calendar.FormatParseRoundTrip(d);
    var f := Calendar.Format(d);
    assert Text.AllDigits(f[0..4]) && Text.AllDigits(f[5..7]) && Text.AllDigits(f[8..10]);
    forall j | 0 <= j < 10 ensures f[j] != 'T' {
      if j < 4 { assert f[j] == f[0..4][j]; }
      else if 5 <= j < 7 { assert f[j] == f[5..7][j - 5]; }
      else if 8 <= j { assert f[j] == f[8..10][j - 8]; }
    }
  }

  lemma ResultText(ms: int)
    requires -MaxTime <= ms <= MaxTime && FourDigitYear(ms)
    ensures ToMySqlDateTime(Millis(ms)) == Js.Normal(Calendar.Format(DateOf(ms)) + " " + ClockText(ms))
  {
    IsoHead(ms);
    FormatHasNoT(DateOf(ms));
    ReplaceSeparator(Calendar.Format(DateOf(ms)), ClockText(ms));
  }

  lemma ResultReadsBack(ms: int)
    requires FourDigitYear(ms)
    ensures |Calendar.Format(DateOf(ms)) + " " + ClockText(ms)| == 19
    ensures ParseMySqlDateTime(Calendar.Format(DateOf(ms)) + " " + ClockText(ms)) == Some(ms - MilliOf(ms))
  {
    var d := DateOf(ms);
    var s := Calendar.Format(d) + " " + ClockText(ms);
    ClockRoundTrip(ms);
    Calendar.FormatParseRoundTrip(d);
    assert s[..10] == Calendar.Format(d) && s[11..] == ClockText(ms);
    assert Calendar.DayNumber(d) == ms / MsPerDay;
    TimeOfDayParts(ms);
  }

  /** For a four-digit year the result is the 19-character UTC `YYYY-MM-DD HH:MM:SS`,
      and it reads back as the instant with its milliseconds dropped. */
  lemma ToMySqlDateTimeShape(ms: int)
    requires -MaxTime <= ms <= MaxTime && FourDigitYear(ms)
    ensures ToMySqlDateTime(Millis(ms)).Normal?
    ensures var s := ToMySqlDateTime(Millis(ms)).value;
      && |s| == 19
      && s == Calendar.Format(DateOf(ms)) + " " + ClockText(ms)
      && ParseMySqlDateTime(s) == Some(ms - MilliOf(ms))
  {
    ResultText(ms);
    ResultReadsBack(ms);
  }

  lemma October2021Day()
    ensures Calendar.DayNumber(Calendar.Date(2021, 10, 1)) == 18901
  {
    Calendar.YearStartClosed(2021);
    Calendar.MonthStartWholeYear(2021);
  }

  lemma October2021Clock(ms: int)
    requires ms == 1633072800000
    ensures ClockText(ms) == "07:20:00"
  {
    assert ms % MsPerDay == 26_400_000;
    assert HourOf(ms) == 7 && MinuteOf(ms) == 20 && SecondOf(ms) == 0;
  }

  lemma October2021Date(ms: int)
    requires ms == 1633072800000
    ensures DateOf(ms) == Calendar.Date(2021, 10, 1)
  {
    var oct1 := Calendar.Date(2021, 10, 1);
    October2021Day();
    Calendar.DayNumberRoundTrip(oct1);
    assert ms / MsPerDay == 18901;
  }

  lemma October2021Format()
    ensures Calendar.Format(Calendar.Date(2021, 10, 1)) == "2021-10-01"
  {
    assert Text.Pow10(4) == 10000;
  }

  lemma LiteralJoin()
    ensures "2021-10-01" + " " + "07:20:00" == "2021-10-01 07:20:00"
  {
  }

  /** `1633072800000` is 2021-10-01 07:20:00 UTC (the parameter keeps the
      verifier from evaluating the calendar search on a literal). */
  lemma ExampleOctober2021(ms: int)
    requires ms == 1633072800000
    ensures ToMySqlDateTime(Millis(ms)) == Js.Normal("2021-10-01 07:20:00")
  {
    October2021Date(ms);
    October2021Format();
    October2021Clock(ms);
    assert FourDigitYear(ms);
    ResultText(ms);
    var s := Calendar.Format(DateOf(ms)) + " " + ClockText(ms);
    assert s == "2021-10-01" + " " + "07:20:00";
    LiteralJoin();
    assert ToMySqlDateTime(Millis(ms)) == Js.Normal(s);
  }

  /** An argument `new Date` reads as an invalid time makes the conversion throw a `RangeError`. */
  lemma NotANumberThrows()
    ensures ToMySqlDateTime(NotANumber).Throw? && ToMySqlDateTime(NotANumber).error.name == "RangeError"
  {
  }
}
