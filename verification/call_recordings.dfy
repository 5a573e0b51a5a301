/** The pure helpers of `src/services/googleDriveService.js`: reading a call
    recording's file name, picking out the recordings of one day and those
    older than a week, deleting the old ones through the Drive client, and the
    text of the daily call report. Dates and times are local wall-clock
    values; the Drive client's delete call is an oracle. */
module CallRecordings {
  import opened Wrappers
  import Js
  import Text
  import Seqs
  import Calendar
  import DateTimeFormat
  import ResponseHelpers

  /** Texts the source matches, writes or logs, as it writes them. */
  const Prefix := "Call recording "
  const Extension := ".m4a"
  const InvalidDate := "Invalid date"
  const DeleteFailed := "[deleteOldFiles]Failed to delete old files"
  const ReportFailed := "[generateDailyCallReport] Failed to generate daily call report"
  const EntriesOfNull := "Cannot convert undefined or null to object"
  const ReportHead := "\nDaily Call Report:\nCalled Numbers : "
  const DeletionHead := "\n\nFile Deletion Report : \n"
  const Separator := " : "

  /** An entry of the Drive folder listing. */
  datatype File = File(id: string, name: string)

  /** What `extractDetailsFromFileName` returns for a name that matches. */
  datatype Details = Details(callerIdentifier: string, date: string, time: string)

  // ---------------------------------------------------------------- the file-name pattern

  /** `_(\d{6})_(\d{6})\.m4a` followed by `$`: always the last 18 characters. */
  const TailLength := 18

  predicate TailMatches(s: string) {
    && |s| >= TailLength
    && s[|s| - 18] == '_' && Text.AllDigits(s[|s| - 17..|s| - 11])
    && s[|s| - 11] == '_' && Text.AllDigits(s[|s| - 10..|s| - 4])
    && s[|s| - 4..] == Extension
  }

  predicate NoLineTerminator(s: string) {
    forall i :: 0 <= i < |s| ==> !Text.IsLineTerminator(s[i])
  }

  /** Whether `Call recording (.+?)_(\d{6})_(\d{6})\.m4a$` matches starting at
      index `i`. The tail has a fixed length, so the lazy group can only end
      where the tail begins; `.` takes anything but a line terminator. */
  predicate MatchesAt(s: string, i: nat) {
    && TailMatches(s)
    && i + |Prefix| < |s| - TailLength
    && s[i..i + |Prefix|] == Prefix
    && NoLineTerminator(s[i + |Prefix|..|s| - TailLength])
  }

  /** The leftmost match at or after `from`, which is the one `String.prototype.match` reports. */
  function FirstMatch(s: string, from: nat): (r: Option<nat>)
    ensures r.Some? ==> from <= r.value && MatchesAt(s, r.value)
    ensures forall j :: from <= j && (r.None? || j < r.value) ==> !MatchesAt(s, j)
    decreases |s| - from
  {
    if from + |Prefix| >= |s| then None
    else if MatchesAt(s, from) then Some(from)
    else FirstMatch(s, from + 1)
  }

  /** The first capture group of the match at `i`: the caller's number or name. */
  function Who(s: string, i: nat): string
    requires MatchesAt(s, i)
  {
    s[i + |Prefix|..|s| - TailLength]
  }

  /** The second capture group, `YYMMDD`. */
  function DatePart(s: string): (r: string)
    requires TailMatches(s)
    ensures |r| == 6 && Text.AllDigits(r)
  {
    s[|s| - 17..|s| - 11]
  }

  /** The third capture group, `HHmmss`. */
  function TimePart(s: string): (r: string)
    requires TailMatches(s)
    ensures |r| == 6 && Text.AllDigits(r)
  {
    s[|s| - 10..|s| - 4]
  }

  // ---------------------------------------------------------------- the caller

  /** `/^\+?\d+$/`: one or more digits, after at most one `+`. */
  predicate LooksLikePhone(w: string) {
    if |w| > 0 && w[0] == '+' then |w| > 1 && Text.AllDigits(w[1..]) else |w| > 0 && Text.AllDigits(w)
  }

  /** The caller identifier: a phone-like group loses a leading `+91`; a name is kept as it is. */
  function CallerIdentifier(w: string): (r: string)
    ensures !LooksLikePhone(w) ==> r == w
    ensures r == w || (LooksLikePhone(w) && w == "+91" + r && Text.AllDigits(r))
    ensures LooksLikePhone(w) && |w| >= 3 && w[..3] == "+91" ==> w == "+91" + r
  {
    if LooksLikePhone(w) && |w| >= 3 && w[..3] == "+91" then
      assert w == w[..3] + w[3..];
      w[3..]
    else w
  }

  // ---------------------------------------------------------------- date and time

  /** moment's reading of a two-digit year: 69-99 are 1969-1999, 00-68 are 2000-2068. */
  function CenturyYear(yy: nat): int {
    yy + (if yy > 68 then 1900 else 2000)
  }

  /** The date `YYMMDD` names, before any range check. */
  function DateOfDigits(d6: string): Calendar.Date
    requires |d6| == 6 && Text.AllDigits(d6)
  {
    Calendar.Date(CenturyYear(Text.DecimalValue(d6[0..2])), Text.DecimalValue(d6[2..4]),
                  Text.DecimalValue(d6[4..6]))
  }

  /** `moment(d6, 'YYMMDD').format('YYYY-MM-DD')`: a month or day out of range
      makes the moment invalid, and an invalid moment formats as `Invalid date`. */
  function DateText(d6: string): string
    requires |d6| == 6 && Text.AllDigits(d6)
  {
    if Calendar.Valid(DateOfDigits(d6)) then Calendar.Format(DateOfDigits(d6)) else InvalidDate
  }

  /** The date text reads back, as `YYYY-MM-DD`, as the date the digits name;
      `Invalid date` reads back as nothing. */
  lemma DateTextSpec(d6: string)
    requires |d6| == 6 && Text.AllDigits(d6)
    ensures Calendar.Valid(DateOfDigits(d6)) ==> Calendar.ParseYmd(DateText(d6)) == Some(DateOfDigits(d6))
    ensures !Calendar.Valid(DateOfDigits(d6)) ==> DateText(d6) == InvalidDate && Calendar.ParseYmd(DateText(d6)).None?
  {
    TwoDigits(d6[0..2]);
    if Calendar.Valid(DateOfDigits(d6)) {
      Calendar.FormatParseRoundTrip(DateOfDigits(d6));
    }
  }

  lemma TwoDigits(s: string)
    requires |s| == 2 && Text.AllDigits(s)
    ensures Text.DecimalValue(s) < 100
  {
    Text.ValueDigits(s);
    assert Text.Pow10(2) == 100;
  }

  /** `HH:mm:ss` from three values below 100. */
  function ClockText(h: nat, m: nat, s: nat): (r: string)
    requires h < 100 && m < 100 && s < 100
    ensures |r| == 8 && r[2] == ':' && r[5] == ':'
    ensures Text.AllDigits(r[0..2]) && Text.AllDigits(r[3..5]) && Text.AllDigits(r[6..8])
    ensures Text.DecimalValue(r[0..2]) == h && Text.DecimalValue(r[3..5]) == m && Text.DecimalValue(r[6..8]) == s
  {
    var hh, mm, ss := Text.Digits(h, 2), Text.Digits(m, 2), Text.Digits(s, 2);
    assert Text.Pow10(2) == 100;
    Text.DigitsValue(h, 2);
    Text.DigitsValue(m, 2);
    Text.DigitsValue(s, 2);
    var r := hh + ":" + mm + ":" + ss;
    assert r[0..2] == hh && r[3..5] == mm && r[6..8] == ss;
    r
  }

  /** Hours, minutes and seconds as `HHmmss` gives them. */
  datatype Clock = Clock(hour: nat, minute: nat, second: nat)

  function ClockOfDigits(t6: string): Clock
    requires |t6| == 6 && Text.AllDigits(t6)
  {
    Clock(Text.DecimalValue(t6[0..2]), Text.DecimalValue(t6[2..4]), Text.DecimalValue(t6[4..6]))
  }

  /** moment's range check: `24:00:00` is accepted and means midnight. */
  predicate ClockValid(c: Clock) {
    (c.hour < 24 && c.minute < 60 && c.second < 60) || (c.hour == 24 && c.minute == 0 && c.second == 0)
  }

  /** `moment(t6, 'HHmmss').format('HH:mm:ss')`. */
  function TimeText(t6: string): string
    requires |t6| == 6 && Text.AllDigits(t6)
  {
    var c := ClockOfDigits(t6);
    if ClockValid(c) then ClockText(c.hour % 24, c.minute, c.second) else InvalidDate
  }

  /** A time in range reads back, field by field, with hour 24 as 00; any other is `Invalid date`. */
  lemma TimeTextSpec(t6: string)
    requires |t6| == 6 && Text.AllDigits(t6)
    ensures ClockValid(ClockOfDigits(t6)) ==>
      && |TimeText(t6)| == 8 && TimeText(t6)[2] == ':' && TimeText(t6)[5] == ':'
      && Text.AllDigits(TimeText(t6)[0..2]) && Text.AllDigits(TimeText(t6)[3..5]) && Text.AllDigits(TimeText(t6)[6..8])
      && Text.DecimalValue(TimeText(t6)[0..2]) == ClockOfDigits(t6).hour % 24
      && Text.DecimalValue(TimeText(t6)[3..5]) == ClockOfDigits(t6).minute
      && Text.DecimalValue(TimeText(t6)[6..8]) == ClockOfDigits(t6).second
    ensures !ClockValid(ClockOfDigits(t6)) ==> TimeText(t6) == InvalidDate
  {
  }

  // ---------------------------------------------------------------- extractDetailsFromFileName

  /** `extractDetailsFromFileName(name)`; `None` is its `null`. */
  function ExtractDetails(name: string): (r: Option<Details>)
    ensures r.Some? ==> TailMatches(name)
  {
    var m := FirstMatch(name, 0);
    if m.None? then None
    else Some(Details(CallerIdentifier(Who(name, m.value)), DateText(DatePart(name)), TimeText(TimePart(name))))
  }

  /** A name yields details exactly when the pattern matches somewhere in it;
      the caller comes from the leftmost match, the date and time from the tail. */
  lemma ExtractDetailsSpec(name: string)
    ensures ExtractDetails(name).Some? <==> exists i: nat :: MatchesAt(name, i)
    ensures ExtractDetails(name).Some? ==>
      exists i: nat :: && MatchesAt(name, i) && (forall j: nat :: j < i ==> !MatchesAt(name, j))
                       && ExtractDetails(name).value.callerIdentifier == CallerIdentifier(Who(name, i))
    ensures ExtractDetails(name).Some? ==>
      && ExtractDetails(name).value.date == DateText(DatePart(name))
      && ExtractDetails(name).value.time == TimeText(TimePart(name))
  {
  }

  /** The name the phone's recorder gives a call: `Call recording <who>_<YYMMDD>_<HHmmss>.m4a`. */
  function RecordingName(who: string, d: Calendar.Date, c: Clock): string
    requires c.hour < 100 && c.minute < 100 && c.second < 100
  {
    Prefix + who + "_" + SixDigits(d.year % 100, d.month % 100, d.day % 100)
      + "_" + SixDigits(c.hour, c.minute, c.second) + Extension
  }

  /** Three two-digit fields side by side. */
  function SixDigits(a: nat, b: nat, c: nat): (r: string)
    requires a < 100 && b < 100 && c < 100
    ensures |r| == 6 && Text.AllDigits(r)
    ensures Text.DecimalValue(r[0..2]) == a && Text.DecimalValue(r[2..4]) == b && Text.DecimalValue(r[4..6]) == c
  {
    var aa, bb, cc := Text.Digits(a, 2), Text.Digits(b, 2), Text.Digits(c, 2);
    assert Text.Pow10(2) == 100;
    Text.DigitsValue(a, 2);
    Text.DigitsValue(b, 2);
    Text.DigitsValue(c, 2);
    var r := aa + bb + cc;
    assert r[0..2] == aa && r[2..4] == bb && r[4..6] == cc;
    r
  }

  /** The six digits of a date in moment's two-digit-year window name that date. */
  lemma DateDigitsRoundTrip(d: Calendar.Date)
    requires Calendar.Valid(d) && 1969 <= d.year <= 2068
    ensures DateOfDigits(SixDigits(d.year % 100, d.month % 100, d.day % 100)) == d
  {
  }

  /** Where the parts of a recording name sit. */
  lemma NameLayout(who: string, ds: string, ts: string)
    requires |ds| == 6 && |ts| == 6
    ensures var name := Prefix + who + "_" + ds + "_" + ts + Extension;
      && |name| == |Prefix| + |who| + TailLength
      && name[..|Prefix|] == Prefix && name[|Prefix|..|name| - TailLength] == who
      && name[|name| - 18] == '_' && name[|name| - 17..|name| - 11] == ds
      && name[|name| - 11] == '_' && name[|name| - 10..|name| - 4] == ts
      && name[|name| - 4..] == Extension
  {
    var tail := "_" + ds + "_" + ts + Extension;
    var name := Prefix + who + "_" + ds + "_" + ts + Extension;
    assert name == Prefix + who + tail;
    assert name[|Prefix| + |who|..] == tail;
  }

  /** Reading a recording's name gives back its caller, date and time: the
      match starts at the front, whatever the caller part contains. */
  lemma NameRoundTrip(who: string, d: Calendar.Date, c: Clock)
    requires |who| > 0 && NoLineTerminator(who)
    requires Calendar.Valid(d) && 1969 <= d.year <= 2068
    requires c.hour < 100 && c.minute < 100 && c.second < 100
    ensures ExtractDetails(RecordingName(who, d, c)).Some?
    ensures ExtractDetails(RecordingName(who, d, c)).value.callerIdentifier == CallerIdentifier(who)
    ensures Calendar.ParseYmd(ExtractDetails(RecordingName(who, d, c)).value.date) == Some(d)
    ensures ClockValid(c) ==> ExtractDetails(RecordingName(who, d, c)).value.time == ClockText(c.hour % 24, c.minute, c.second)
  {
    var ds, ts := SixDigits(d.year % 100, d.month % 100, d.day % 100), SixDigits(c.hour, c.minute, c.second);
    var name := RecordingName(who, d, c);
    NameLayout(who, ds, ts);
    assert MatchesAt(name, 0);
    assert FirstMatch(name, 0) == Some(0);
    assert Who(name, 0) == who;
    assert DatePart(name) == ds && TimePart(name) == ts;
    DateDigitsRoundTrip(d);
    DateTextSpec(ds);
    assert ClockOfDigits(ts) == c;
  }

  // ---------------------------------------------------------------- filterFilesByDate

  /** The date of a recording as `moment(details.date, 'YYYY-MM-DD')` reads
      it back: `None` when the name does not match or its date is invalid. */
  function RecordingDate(f: File): (r: Option<Calendar.Date>)
    ensures r.Some? ==> Calendar.Valid(r.value)
  {
    var d := ExtractDetails(f.name);
    if d.None? then None else Calendar.ParseYmd(d.value.date)
  }

  /** A recording has a date exactly when its name matches and its `YYMMDD` is a real date, and then it is that date. */
  lemma RecordingDateOfName(f: File)
    ensures RecordingDate(f).Some? <==> ExtractDetails(f.name).Some? && Calendar.Valid(DateOfDigits(DatePart(f.name)))
    ensures RecordingDate(f).Some? ==> RecordingDate(f).value == DateOfDigits(DatePart(f.name))
  {
    if ExtractDetails(f.name).Some? {
      DateTextSpec(DatePart(f.name));
    }
  }

  predicate OnDay(f: File, day: Calendar.Date) {
    RecordingDate(f) == Some(day)
  }

  /** `filterFilesByDate(files, day)`: `isSame(day, 'day')` holds for a valid date equal to `day`
      and never for an invalid one. */
  function FilesOfDay(files: seq<File>, day: Calendar.Date): (r: seq<File>)
    ensures |r| <= |files|
    ensures forall f :: f in r <==> f in files && OnDay(f, day)
  {
    Seqs.Filter(files, f => OnDay(f, day))
  }

  /** The report's "Called Numbers" is the length of this list: two recordings
      of one caller on the day count twice. */
  lemma RecordingsNotCallers(f: File, day: Calendar.Date)
    requires OnDay(f, day)
    ensures |FilesOfDay([f, f], day)| == 2
  {
    assert [f, f][1..] == [f];
  }

  // ---------------------------------------------------------------- filterFilesOlderThanOneWeek

  const WeekMs: int := 7 * DateTimeFormat.MsPerDay

  /** Local midnight of a date, in milliseconds. */
  function Midnight(d: Calendar.Date): int
    requires Calendar.Valid(d)
  {
    Calendar.DayNumber(d) * DateTimeFormat.MsPerDay
  }

  /** `fileDate.isBefore(moment().subtract(1, 'weeks'))`, with `now` the local
      wall-clock time in milliseconds; an invalid date is never before anything. */
  predicate OlderThanWeek(f: File, now: int) {
    RecordingDate(f).Some? && Midnight(RecordingDate(f).value) < now - WeekMs
  }

  /** `filterFilesOlderThanOneWeek(files)`. */
  function FilesOlderThanWeek(files: seq<File>, now: int): (r: seq<File>)
    ensures |r| <= |files|
    ensures forall f :: f in r <==> f in files && OlderThanWeek(f, now)
  {
    Seqs.Filter(files, f => OlderThanWeek(f, now))
  }

  /** In days: a recording is old when its date is more than seven days before
      today, or exactly seven days before it once today's midnight has passed. */
  lemma OlderThanWeekInDays(f: File, now: int)
    ensures OlderThanWeek(f, now) <==>
      && RecordingDate(f).Some?
      && (|| Calendar.DayNumber(RecordingDate(f).value) < Calendar.DayNumber(DateTimeFormat.DateOf(now)) - 7
          || (&& Calendar.DayNumber(RecordingDate(f).value) == Calendar.DayNumber(DateTimeFormat.DateOf(now)) - 7
              && now % DateTimeFormat.MsPerDay > 0))
  {
    var q, r := now / DateTimeFormat.MsPerDay, now % DateTimeFormat.MsPerDay;
    assert now == q * DateTimeFormat.MsPerDay + r && 0 <= r < DateTimeFormat.MsPerDay;
    assert Calendar.DayNumber(DateTimeFormat.DateOf(now)) == q;
  }

  /** Today's recordings are never old, so one run never both reports and deletes a file. */
  lemma TodayIsNotOld(f: File, now: int)
    requires OnDay(f, DateTimeFormat.DateOf(now))
    ensures !OlderThanWeek(f, now)
  {
    OlderThanWeekInDays(f, now);
  }

  // ---------------------------------------------------------------- deleteOldFiles

  /** One key of `deletedFilesByDate` and its count; the object is a list of
      these in insertion order. */
  datatype Entry = Entry(date: string, count: nat)

  function Keys(t: seq<Entry>): (r: seq<string>)
    ensures |r| == |t| && forall i :: 0 <= i < |t| ==> r[i] == t[i].date
  {
    Seqs.Map(t, (e: Entry) => e.date)
  }

  predicate DistinctDates(t: seq<Entry>) {
    forall i, j :: 0 <= i < j < |t| ==> t[i].date != t[j].date
  }

  /** `t[k] || 0`. */
  function Lookup(t: seq<Entry>, k: string): nat {
    if |t| == 0 then 0 else if t[0].date == k then t[0].count else Lookup(t[1..], k)
  }

  /** `t[k] = (t[k] || 0) + 1`: an existing key keeps its place, a new one goes last. */
  function Bump(t: seq<Entry>, k: string): (r: seq<Entry>)
    ensures |r| == |t| || |r| == |t| + 1
  {
    if |t| == 0 then [Entry(k, 1)]
    else if t[0].date == k then [t[0].(count := t[0].count + 1)] + t[1..]
    else [t[0]] + Bump(t[1..], k)
  }

  /** Bumping `k` adds one to `k`'s count and leaves every other count alone. */
  lemma {:induction false} BumpLookup(t: seq<Entry>, k: string, x: string)
    ensures Lookup(Bump(t, k), x) == Lookup(t, x) + (if x == k then 1 else 0)
  {
    if |t| > 0 && t[0].date != k {
      BumpLookup(t[1..], k, x);
      assert ([t[0]] + Bump(t[1..], k))[1..] == Bump(t[1..], k);
    }
  }

  predicate HasKey(t: seq<Entry>, x: string) {
    exists i :: 0 <= i < |t| && t[i].date == x
  }

  /** Bumping adds no key but `k`. */
  lemma {:induction false} BumpKeys(t: seq<Entry>, k: string)
    ensures forall x :: HasKey(Bump(t, k), x) ==> x == k || HasKey(t, x)
  {
    var r := Bump(t, k);
    if |t| > 0 && t[0].date != k {
      var rest := Bump(t[1..], k);
      BumpKeys(t[1..], k);
      forall x | HasKey(r, x) ensures x == k || HasKey(t, x) {
        var m :| 0 <= m < |r| && r[m].date == x;
        if m > 0 {
          assert rest[m - 1].date == x;
          assert HasKey(rest, x);
          if x != k {
            var n :| 0 <= n < |t[1..]| && t[1..][n].date == x;
            assert t[n + 1].date == x;
          }
        } else {
          assert t[0].date == x;
        }
      }
    } else if |t| > 0 {
      forall x | HasKey(r, x) ensures x == k || HasKey(t, x) {
        var m :| 0 <= m < |r| && r[m].date == x;
        assert m == 0 || t[m].date == x;
      }
    }
  }

  /** Bumping keeps the keys distinct. */
  lemma {:induction false} BumpDistinct(t: seq<Entry>, k: string)
    requires DistinctDates(t)
    ensures DistinctDates(Bump(t, k))
  {
    if |t| > 0 && t[0].date != k {
      var rest := Bump(t[1..], k);
      BumpDistinct(t[1..], k);
      BumpKeys(t[1..], k);
      forall m | 0 <= m < |rest| ensures rest[m].date != t[0].date {
        assert HasKey(rest, rest[m].date);
        if rest[m].date != k {
          var n :| 0 <= n < |t| - 1 && t[1..][n].date == rest[m].date;
          assert t[n + 1].date == rest[m].date;
        }
      }
    }
  }

  /** The key `deleteOldFiles` counts a recording under: its details' date,
      when its name matches. */
  function DateKey(name: string): (r: Option<string>)
    ensures r.Some? <==> ExtractDetails(name).Some?
    ensures r.Some? ==> r.value == ExtractDetails(name).value.date
  {
    var d := ExtractDetails(name);
    if d.None? then None else Some(d.value.date)
  }

  /** The loop below is stated for any way `key` of reading a name; the
      service reads names with `DateKey`. */
  type Reader = string -> Option<string>

  /** Whether the delete call for the `i`-th file rejects; it is made only for a name that yields a key. */
  predicate DeleteRejects(files: seq<File>, key: Reader, deleteOf: nat -> Js.Settled<bool>, i: nat)
    requires i < |files|
  {
    key(files[i].name).Some? && deleteOf(i).Rejected?
  }

  /** The keys of the files from the `i`-th on whose delete reported success, in order. */
  function DeletedDates(files: seq<File>, key: Reader, deleteOf: nat -> Js.Settled<bool>, i: nat): seq<string>
    requires i <= |files|
    decreases |files| - i
  {
    if i == |files| then []
    else
      var k := key(files[i].name);
      (if k.Some? && deleteOf(i) == Js.Resolved(true) then [k.value] else [])
        + DeletedDates(files, key, deleteOf, i + 1)
  }

  /** The loop of `deleteOldFiles` from the `i`-th file on, with the counts `t`
      so far. `deleteOf(i)` is what the Drive client's delete call settles to for
      the `i`-th file: `true`, `false` (a failure it handled), or a rejection. */
  function DeleteFrom(files: seq<File>, key: Reader, deleteOf: nat -> Js.Settled<bool>, i: nat, t: seq<Entry>)
    : (r: Js.Settled<seq<Entry>>)
    requires i <= |files|
    ensures r.Resolved? ==> |t| <= |r.value| <= |t| + (|files| - i)
    decreases |files| - i
  {
    if i == |files| then Js.Resolved(t)
    else
      var k := key(files[i].name);
      if k.None? then DeleteFrom(files, key, deleteOf, i + 1, t)
      else
        var out := deleteOf(i);
        if out.Rejected? then Js.Rejected(out.error)
        else DeleteFrom(files, key, deleteOf, i + 1, if out.value then Bump(t, k.value) else t)
  }

  /** The counts the loop carries past the `i`-th file when that file does not reject. */
  function Carried(files: seq<File>, key: Reader, deleteOf: nat -> Js.Settled<bool>, i: nat, t: seq<Entry>)
    : seq<Entry>
    requires i < |files|
  {
    var k := key(files[i].name);
    if k.Some? && deleteOf(i).Resolved? && deleteOf(i).value then Bump(t, k.value) else t
  }

  /** The loop finishes exactly when no delete call rejects. */
  lemma {:induction false} DeleteFromResolves(files: seq<File>, key: Reader, deleteOf: nat -> Js.Settled<bool>,
                                              i: nat, t: seq<Entry>)
    requires i <= |files|
    ensures DeleteFrom(files, key, deleteOf, i, t).Resolved?
            <==> forall j :: i <= j < |files| ==> !DeleteRejects(files, key, deleteOf, j)
    decreases |files| - i
  {
    if i < |files| && !DeleteRejects(files, key, deleteOf, i) {
      DeleteFromResolves(files, key, deleteOf, i + 1, Carried(files, key, deleteOf, i, t));
    }
  }

  /** A rejection is the first rejecting delete call's own error. */
  lemma {:induction false} DeleteFromError(files: seq<File>, key: Reader, deleteOf: nat -> Js.Settled<bool>,
                                           i: nat, t: seq<Entry>)
    requires i <= |files|
    requires DeleteFrom(files, key, deleteOf, i, t).Rejected?
    ensures exists j :: i <= j < |files| && DeleteRejects(files, key, deleteOf, j)
                        && DeleteFrom(files, key, deleteOf, i, t).error == deleteOf(j).error
    decreases |files| - i
  {
    if !DeleteRejects(files, key, deleteOf, i) {
      DeleteFromError(files, key, deleteOf, i + 1, Carried(files, key, deleteOf, i, t));
    }
  }

  /** Each key ends up counting exactly the successful deletes of files with that key. */
  lemma {:induction false} DeleteFromCounts(files: seq<File>, key: Reader, deleteOf: nat -> Js.Settled<bool>,
                                            i: nat, t: seq<Entry>)
    requires i <= |files|
    requires DeleteFrom(files, key, deleteOf, i, t).Resolved?
    ensures forall x :: Lookup(DeleteFrom(files, key, deleteOf, i, t).value, x)
                        == Lookup(t, x) + multiset(DeletedDates(files, key, deleteOf, i))[x]
    decreases |files| - i
  {
    if i < |files| {
      var k := key(files[i].name);
      DeleteFromCounts(files, key, deleteOf, i + 1, Carried(files, key, deleteOf, i, t));
      if k.Some? && deleteOf(i) == Js.Resolved(true) {
        forall x ensures Lookup(Bump(t, k.value), x) == Lookup(t, x) + multiset([k.value])[x] {
          BumpLookup(t, k.value, x);
        }
      }
    }
  }

  /** No key is counted twice. */
  lemma {:induction false} DeleteFromDistinct(files: seq<File>, key: Reader, deleteOf: nat -> Js.Settled<bool>,
                                              i: nat, t: seq<Entry>)
    requires i <= |files| && DistinctDates(t)
    requires DeleteFrom(files, key, deleteOf, i, t).Resolved?
    ensures DistinctDates(DeleteFrom(files, key, deleteOf, i, t).value)
    decreases |files| - i
  {
    if i < |files| {
      var k := key(files[i].name);
      if k.Some? && deleteOf(i) == Js.Resolved(true) {
        BumpDistinct(t, k.value);
      }
      DeleteFromDistinct(files, key, deleteOf, i + 1, Carried(files, key, deleteOf, i, t));
    }
  }

  /** Every key is an earlier key or the key of a file deleted on the way. */
  lemma {:induction false} DeleteFromKeys(files: seq<File>, key: Reader, deleteOf: nat -> Js.Settled<bool>,
                                          i: nat, t: seq<Entry>)
    requires i <= |files|
    requires DeleteFrom(files, key, deleteOf, i, t).Resolved?
    ensures forall x :: HasKey(DeleteFrom(files, key, deleteOf, i, t).value, x) ==>
              HasKey(t, x) || x in DeletedDates(files, key, deleteOf, i)
    decreases |files| - i
  {
    if i < |files| {
      var k := key(files[i].name);
      if k.Some? && deleteOf(i) == Js.Resolved(true) {
        BumpKeys(t, k.value);
      }
      DeleteFromKeys(files, key, deleteOf, i + 1, Carried(files, key, deleteOf, i, t));
    }
  }

  /** The keys a run counts are keys of files it was given. */
  lemma {:induction false} DeletedDatesFromFiles(files: seq<File>, key: Reader, deleteOf: nat -> Js.Settled<bool>, i: nat)
    requires i <= |files|
    ensures forall x :: x in DeletedDates(files, key, deleteOf, i) ==>
      exists j :: i <= j < |files| && key(files[j].name) == Some(x)
    decreases |files| - i
  {
    if i < |files| {
      DeletedDatesFromFiles(files, key, deleteOf, i + 1);
    }
  }

  /** What `deleteOldFiles` leaves: the counts it resolves with (`null` once a
      delete call has rejected), and the rejection of the `handleError` call
      in its `catch`, which is not awaited and so escapes as an unhandled
      rejection instead of reaching the caller. */
  datatype Deletion = Deletion(counts: Option<seq<Entry>>, escaped: Option<Js.Error>)

  /** `deleteOldFiles(files, client)`. */
  function DeleteOldFiles(files: seq<File>, deleteOf: nat -> Js.Settled<bool>, env: string): (r: Deletion)
    ensures (forall j :: 0 <= j < |files| ==> !DeleteRejects(files, DateKey, deleteOf, j)) <==> r.counts.Some?
    ensures r.counts.Some? ==>
      && r.escaped.None?
      && DistinctDates(r.counts.value)
      && (forall x :: Lookup(r.counts.value, x) == multiset(DeletedDates(files, DateKey, deleteOf, 0))[x])
      && (forall x :: HasKey(r.counts.value, x) ==> x in DeletedDates(files, DateKey, deleteOf, 0))
    ensures r.escaped.Some? <==> r.counts.None? && env == "development"
    ensures r.escaped.Some? ==>
      exists j :: 0 <= j < |files| && DeleteRejects(files, DateKey, deleteOf, j) && r.escaped.value == deleteOf(j).error
  {
    var w := DeleteFrom(files, DateKey, deleteOf, 0, []);
    DeleteFromResolves(files, DateKey, deleteOf, 0, []);
    if w.Resolved? then
      DeleteFromCounts(files, DateKey, deleteOf, 0, []);
      DeleteFromDistinct(files, DateKey, deleteOf, 0, []);
      DeleteFromKeys(files, DateKey, deleteOf, 0, []);
      Deletion(Some(w.value), None)
    else
      DeleteFromError(files, DateKey, deleteOf, 0, []);
      var a := ResponseHelpers.Await(env, ResponseHelpers.Default(DeleteFailed, Some(w.error)));
      Deletion(None, if a.Rejected? then Some(a.error) else None)
  }

  /** Only week-old recordings are counted: fed the old files, every date in
      the deletion counts is a real date more than a week before `now`. */
  lemma OnlyOldDatesCounted(files: seq<File>, now: int, deleteOf: nat -> Js.Settled<bool>, env: string)
    requires DeleteOldFiles(FilesOlderThanWeek(files, now), deleteOf, env).counts.Some?
    ensures forall x :: HasKey(DeleteOldFiles(FilesOlderThanWeek(files, now), deleteOf, env).counts.value, x) ==>
      Calendar.ParseYmd(x).Some? && Midnight(Calendar.ParseYmd(x).value) < now - WeekMs
  {
    var aged := FilesOlderThanWeek(files, now);
    DeletedDatesFromFiles(aged, DateKey, deleteOf, 0);
    forall x | x in DeletedDates(aged, DateKey, deleteOf, 0)
      ensures Calendar.ParseYmd(x).Some? && Midnight(Calendar.ParseYmd(x).value) < now - WeekMs
    {
      var j :| 0 <= j < |aged| && DateKey(aged[j].name) == Some(x);
      assert aged[j] in aged;
      assert OlderThanWeek(aged[j], now);
    }
  }

  // ---------------------------------------------------------------- generateDailyCallReport

  /** `Object.entries(t)`: array-index keys first, ascending, then the others in insertion order. */
  function Entries(t: seq<Entry>): (r: seq<Entry>)
    ensures |r| == |t|
  {
    var keys := Js.OwnKeyOrder(Keys(t));
    assert |keys| == |multiset(keys)| == |multiset(Keys(t))|;
    Seqs.Map(keys, k => Entry(k, Lookup(t, k)))
  }

  function Plain(e: Entry): string {
    e.date + Separator + Text.NatToString(e.count)
  }

  /** The `deletionReport` the loop builds: one line per entry, each ending in a newline. */
  function Lines(es: seq<Entry>): string {
    if |es| == 0 then "" else Plain(es[0]) + "\n" + Lines(es[1..])
  }

  /** The entries' lines separated by newlines, with none after the last. */
  function Joined(es: seq<Entry>): string
    requires |es| > 0
  {
    if |es| == 1 then Plain(es[0]) else Plain(es[0]) + "\n" + Joined(es[1..])
  }

  /** `generateDailyCallReport(count, t)`. */
  function DailyCallReport(count: nat, t: seq<Entry>): (r: string)
    ensures Text.OccursAt(r, ReportHead + Text.NatToString(count), 0)
  {
    var body := Text.Trim(Lines(Entries(t)));
    ReportHead + Text.NatToString(count) + (if body != "" then DeletionHead + body else "")
  }

  /** What `generateDailyCallReport` leaves: the report text (`null` when the
      `try` block threw), and the rejection of the `handleError` call in its
      `catch`, which is not awaited and so escapes instead of reaching the caller. */
  datatype Report = Report(text: Option<string>, escaped: Option<Js.Error>)

  /** `generateDailyCallReport(count, deletedFilesByDate)`, where the counts
      are `null` after a failed deletion run: `Object.entries(null)` throws a
      `TypeError`, which the `catch` hands to `handleError` and answers with `null`. */
  function GenerateDailyCallReport(count: nat, counts: Option<seq<Entry>>, env: string): (r: Report)
    ensures r.text.Some? <==> counts.Some?
    ensures r.text.Some? ==> r.text.value == DailyCallReport(count, counts.value)
    ensures r.escaped.Some? <==> counts.None? && env == "development"
    ensures r.escaped.Some? ==> r.escaped.value == Js.TypeError(EntriesOfNull)
  {
    if counts.Some? then Report(Some(DailyCallReport(count, counts.value)), None)
    else
      var a := ResponseHelpers.Await(env, ResponseHelpers.Default(ReportFailed, Some(Js.TypeError(EntriesOfNull))));
      Report(None, if a.Rejected? then Some(a.error) else None)
  }

  /** The report after a deletion run: a text exactly when no delete call
      rejected, and in development a failed run leaves two escaped rejections,
      the deletion's and the report's `TypeError`. */
  lemma ReportAfterDeletion(files: seq<File>, deleteOf: nat -> Js.Settled<bool>, env: string, count: nat)
    ensures var d := DeleteOldFiles(files, deleteOf, env);
      var r := GenerateDailyCallReport(count, d.counts, env);
      && (r.text.Some? <==> forall j :: 0 <= j < |files| ==> !DeleteRejects(files, DateKey, deleteOf, j))
      && (r.text.Some? ==> Text.OccursAt(r.text.value, ReportHead + Text.NatToString(count), 0))
      && (r.escaped.Some? <==> d.escaped.Some?)
  {
  }

  /** The first line's separator sits right after the first key. */
  lemma LinesColon(es: seq<Entry>)
    requires |es| > 0
    ensures |Lines(es)| > |es[0].date| + 1 && Lines(es)[|es[0].date| + 1] == ':'
  {
    assert Lines(es) == es[0].date + Separator + (Text.NatToString(es[0].count) + "\n" + Lines(es[1..]));
  }

  /** Lines of at least one entry hold a `:`, so trimming leaves something. */
  lemma LinesNotBlank(es: seq<Entry>)
    requires |es| > 0
    ensures |Text.Trim(Lines(es))| > 0
  {
    LinesColon(es);
    var i := |es[0].date| + 1;
    assert !Text.IsJsSpace(Lines(es)[i]);
    Text.TrimEmptyIff(Lines(es));
  }

  /** The deletion section appears exactly when some file was counted. */
  lemma ReportWithoutDeletions(count: nat, t: seq<Entry>)
    ensures DailyCallReport(count, t) == ReportHead + Text.NatToString(count) <==> |t| == 0
  {
    var head := ReportHead + Text.NatToString(count);
    if |t| > 0 {
      LinesNotBlank(Entries(t));
      assert |DailyCallReport(count, t)| > |head|;
    } else {
      assert Lines(Entries(t)) == "";
    }
  }

  lemma {:induction false} LinesJoined(es: seq<Entry>)
    requires |es| > 0
    ensures Lines(es) == Joined(es) + "\n"
  {
    if |es| > 1 {
      LinesJoined(es[1..]);
    }
  }

  /** The joined lines start with the first key and end with the last count's last digit. */
  lemma {:induction false} JoinedEnds(es: seq<Entry>)
    requires |es| > 0 && |es[0].date| > 0
    ensures |Joined(es)| > 0 && Joined(es)[0] == es[0].date[0]
    ensures Text.IsDigit(Joined(es)[|Joined(es)| - 1])
  {
    var p := Plain(es[0]);
    var n := Text.NatToString(es[0].count);
    assert p[0] == es[0].date[0];
    assert p[|p| - 1] == n[|n| - 1];
    if |es| > 1 {
      var rest := Joined(es[1..]);
      if |es[1].date| > 0 {
        JoinedEnds(es[1..]);
      } else {
        JoinedLast(es[1..]);
      }
      assert Joined(es)[|Joined(es)| - 1] == rest[|rest| - 1];
    }
  }

  /** The joined lines end with the last count's last digit, whatever the keys. */
  lemma {:induction false} JoinedLast(es: seq<Entry>)
    requires |es| > 0
    ensures |Joined(es)| > 0 && Text.IsDigit(Joined(es)[|Joined(es)| - 1])
  {
    var p := Plain(es[0]);
    var n := Text.NatToString(es[0].count);
    assert p[|p| - 1] == n[|n| - 1];
    if |es| > 1 {
      JoinedLast(es[1..]);
    }
  }

  /** With distinct keys, looking up an entry's key finds that entry's count. */
  lemma {:induction false} LookupDistinct(t: seq<Entry>, i: nat)
    requires DistinctDates(t) && i < |t|
    ensures Lookup(t, t[i].date) == t[i].count
  {
    if i > 0 {
      LookupDistinct(t[1..], i - 1);
    }
  }

  /** A key as the deletion counts hold it: not empty, not starting with white
      space, and not an array index (so `Object.entries` keeps insertion order). */
  predicate PlainKey(k: string) {
    |k| > 0 && !Text.IsJsSpace(k[0]) && !Js.IsArrayIndex(k)
  }

  /** Every date text is a plain key: `YYYY-MM-DD` or `Invalid date`. */
  lemma DateTextIsPlainKey(d6: string)
    requires |d6| == 6 && Text.AllDigits(d6)
    ensures PlainKey(DateText(d6))
  {
    var r := DateText(d6);
    DateTextSpec(d6);
    if Calendar.Valid(DateOfDigits(d6)) {
      assert Calendar.DigitsAt(r, 0, 4) && r[4] == '-';
      assert r[0] == r[0..4][0];
      assert !Text.IsDigit(r[4]);
    } else {
      assert r[0] == 'I';
    }
  }

  /** With distinct plain keys, `Object.entries` gives the entries back in insertion order. */
  lemma EntriesInOrder(t: seq<Entry>)
    requires DistinctDates(t)
    requires forall i :: 0 <= i < |t| ==> PlainKey(t[i].date)
    ensures Entries(t) == t
  {
    assert Js.OwnKeyOrder(Keys(t)) == Keys(t);
    forall i | 0 <= i < |t| ensures Entries(t)[i] == t[i] {
      LookupDistinct(t, i);
    }
  }

  /** For keys like the ones deletion produces, the report is the header, the
      count, and the entries' lines in insertion order. */
  lemma ReportOfDeletions(count: nat, t: seq<Entry>)
    requires |t| > 0 && DistinctDates(t)
    requires forall i :: 0 <= i < |t| ==> PlainKey(t[i].date)
    ensures DailyCallReport(count, t) == ReportHead + Text.NatToString(count) + DeletionHead + Joined(t)
  {
    EntriesInOrder(t);
    LinesJoined(t);
    JoinedEnds(t);
    Text.TrimFramed(Joined(t), "\n");
  }

  /** The report of a completed deletion run lists its dates in the order of their first deletion. */
  lemma DeletionReport(files: seq<File>, deleteOf: nat -> Js.Settled<bool>, env: string, count: nat)
    requires DeleteOldFiles(files, deleteOf, env).counts.Some?
    requires |DeleteOldFiles(files, deleteOf, env).counts.value| > 0
    ensures var t := DeleteOldFiles(files, deleteOf, env).counts.value;
      DailyCallReport(count, t) == ReportHead + Text.NatToString(count) + DeletionHead + Joined(t)
  {
    var t := DeleteOldFiles(files, deleteOf, env).counts.value;
    DeletedDatesFromFiles(files, DateKey, deleteOf, 0);
    forall i | 0 <= i < |t| ensures PlainKey(t[i].date) {
      assert HasKey(t, t[i].date);
      var j :| 0 <= j < |files| && DateKey(files[j].name) == Some(t[i].date);
      ExtractDetailsSpec(files[j].name);
      DateTextIsPlainKey(DatePart(files[j].name));
    }
    ReportOfDeletions(count, t);
  }

  // ---------------------------------------------------------------- examples

  lemma SmallNumbers()
    ensures Text.NatToString(5) == "5" && Text.NatToString(3) == "3" && Text.NatToString(2) == "2"
  {
  }

  lemma TwoDigitFields()
    ensures Text.Digits(23, 2) == "23" && Text.Digits(1, 2) == "01"
    ensures Text.Digits(12, 2) == "12" && Text.Digits(0, 2) == "00"
  {
  }

  /** The name a recording of `+911234567890` at noon on 1 January 2023 carries. */
  lemma ExampleName(who: string, d: Calendar.Date, c: Clock)
    requires who == "+911234567890" && d == Calendar.Date(2023, 1, 1) && c == Clock(12, 0, 0)
    ensures RecordingName(who, d, c) == Prefix + who + "_" + "230101" + "_" + "120000" + Extension
  {
    var ds := SixDigits(d.year % 100, d.month % 100, d.day % 100);
    var ts := SixDigits(c.hour, c.minute, c.second);
    assert d.year % 100 == 23 && d.month % 100 == 1 && d.day % 100 == 1;
    ExampleSixDigits();
    assert ds == "230101" && ts == "120000";
  }

  lemma ExampleSixDigits()
    ensures SixDigits(23, 1, 1) == "230101" && SixDigits(12, 0, 0) == "120000"
  {
    TwoDigitFields();
  }

  lemma ExampleCaller()
    ensures CallerIdentifier("+911234567890") == "1234567890"
  {
    var who := "+911234567890";
    assert Text.AllDigits(who[1..]);
    assert who[..3] == "+91";
  }

  lemma ExampleDate()
    ensures Calendar.Format(Calendar.Date(2023, 1, 1)) == "2023-01-01"
  {
    assert Text.Pow10(4) == 10000;
  }

  lemma ExampleTime(c: Clock)
    requires c == Clock(12, 0, 0)
    ensures ClockValid(c) && ClockText(c.hour % 24, c.minute, c.second) == "12:00:00"
  {
    TwoDigitFields();
    assert ClockText(12, 0, 0) == "12:00:00";
  }

  /** A phone recording's name: the `+91` goes, the date and time are reformatted. */
  lemma PhoneNameExample(who: string, d: Calendar.Date, c: Clock)
    requires who == "+911234567890" && d == Calendar.Date(2023, 1, 1) && c == Clock(12, 0, 0)
    ensures ExtractDetails(RecordingName(who, d, c)) == Some(Details("1234567890", "2023-01-01", "12:00:00"))
  {
    NameRoundTrip(who, d, c);
    var e := ExtractDetails(RecordingName(who, d, c)).value;
    assert e.callerIdentifier == "1234567890" by { ExampleCaller(); }
    ExampleTime(c);
    assert e.date == "2023-01-01" by {
      ExampleDate();
      Calendar.ParseFormatRoundTrip(e.date);
    }
  }

  lemma ExampleKeys()
    ensures PlainKey("2023-01-01") && PlainKey("2023-01-02")
  {
    assert !Text.IsDigit("2023-01-01"[4]) && !Text.IsDigit("2023-01-02"[4]);
  }

  lemma ExampleJoined()
    ensures Joined([Entry("2023-01-01", 3), Entry("2023-01-02", 2)]) == "2023-01-01 : 3\n2023-01-02 : 2"
  {
    SmallNumbers();
    var t := [Entry("2023-01-01", 3), Entry("2023-01-02", 2)];
    assert t[1..] == [Entry("2023-01-02", 2)];
  }

  /** Two dates with deletions: the report lists both after the count. */
  lemma ReportExample()
    ensures DailyCallReport(5, [Entry("2023-01-01", 3), Entry("2023-01-02", 2)])
            == ReportHead + "5" + DeletionHead + "2023-01-01 : 3\n2023-01-02 : 2"
  {
    var t := [Entry("2023-01-01", 3), Entry("2023-01-02", 2)];
    ExampleKeys();
    ReportOfDeletions(5, t);
    SmallNumbers();
    ExampleJoined();
  }
}
