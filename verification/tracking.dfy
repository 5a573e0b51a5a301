/** The per-sender rate tracker: `src/repositories/waTrackingRepository.js`
    over an in-memory `whatsapp_tracking` table. "Today" is a parameter: the
    snapshot and the update use the Asia/Kolkata date, the limit-status check
    the UTC date. */
module Tracking {
  import opened Wrappers
  import Js
  import Calendar
  import ResponseHelpers

  /** Texts the source logs, throws or returns, as it writes them. */
  const AvailableFailed := "[getAvailableNumbers] Error fetching available numbers:"
  const InstanceFailed := "Error fetching instance details:"
  const LimitFailed := "[getMessageLimitStatus] Error fetching message limit status for phone number: "
  const NoCountRow := "Cannot destructure property 'message_count' of 'results[0]' as it is undefined."

  /** One sender number with its gateway instance, today's count and its daily cap. */
  datatype Row = Row(phone: string, instanceId: Option<string>, messageCount: nat, dailyLimit: nat,
                     lastReset: Calendar.Date, branchId: Option<int>)

  type Table = seq<Row>

  /** A row of the available-senders snapshot. */
  datatype Sender = Sender(phone: string, instanceId: Option<string>, messageCount: nat, dailyLimit: nat,
                           branchId: Option<int>)

  /** The result of a repository call together with the table it leaves behind. */
  datatype Step<T> = Step(result: Js.Settled<T>, table: Table)

  // ---------------------------------------------------------------- getAvailableNumbers

  /** A row last reset before today: its stored count is yesterday's. */
  predicate Stale(r: Row, today: Calendar.Date) {
    Calendar.Precedes(r.lastReset, today)
  }

  /** The snapshot's `WHERE` clause. */
  predicate Available(r: Row, today: Calendar.Date) {
    Stale(r, today) || (r.lastReset == today && r.messageCount < r.dailyLimit)
  }

  /** The snapshot's column list: a stale row reads as count 0. */
  function AsSender(r: Row, today: Calendar.Date): Sender {
    Sender(r.phone, r.instanceId, if Stale(r, today) then 0 else r.messageCount, r.dailyLimit, r.branchId)
  }

  /** The selected rows, in table order. */
  function Snapshot(t: Table, today: Calendar.Date): (s: seq<Sender>)
    ensures |s| <= |t|
    ensures forall i :: 0 <= i < |s| ==> exists r :: r in t && Available(r, today) && s[i] == AsSender(r, today)
    ensures forall j :: 0 <= j < |t| && Available(t[j], today) ==> AsSender(t[j], today) in s
  {
    if |t| == 0 then []
    else
      var rest := Snapshot(t[1..], today);
      assert forall r :: r in t[1..] ==> r in t;
      forall j | 1 <= j < |t| && Available(t[j], today) ensures AsSender(t[j], today) in rest {
        assert t[j] == t[1..][j - 1];
      }
      if Available(t[0], today) then [AsSender(t[0], today)] + rest
      else
        assert forall j :: 0 <= j < |t| && Available(t[j], today) ==> 1 <= j;
        rest
  }

  /** `getAvailableNumbers()`: the snapshot, or after a query failure whatever
      `handleError` leaves (the error in development, `null` elsewhere). */
  function GetAvailableNumbers(t: Table, today: Calendar.Date, env: string, fault: Option<Js.Error>)
    : (r: Js.Settled<Option<seq<Sender>>>)
    ensures fault.None? ==> r == Js.Resolved(Some(Snapshot(t, today)))
    ensures fault.Some? ==> (r.Rejected? <==> env == "development")
    ensures fault.Some? && r.Rejected? ==> r.error == fault.value
    ensures fault.Some? && r.Resolved? ==> r.value.None?
  {
    if fault.Some? then
      ResponseHelpers.Recover(env, AvailableFailed, fault.value, None)
    else Js.Resolved(Some(Snapshot(t, today)))
  }

  /** Every sender in a snapshot has headroom, except a stale sender whose cap is 0. */
  lemma SnapshotHeadroom(t: Table, today: Calendar.Date, i: nat)
    requires i < |Snapshot(t, today)|
    ensures var s := Snapshot(t, today)[i];
      s.messageCount <= s.dailyLimit && (s.messageCount < s.dailyLimit || s.dailyLimit == 0)
  {
  }

  /** Rows dated after today, and rows already at their cap today, are never selected. */
  lemma ExcludedRows(r: Row, today: Calendar.Date)
    requires Calendar.Precedes(today, r.lastReset) || (r.lastReset == today && r.messageCount >= r.dailyLimit)
    ensures !Available(r, today)
  {
  }

  // ---------------------------------------------------------------- getInstanceDetailsByPhoneNumber

  /** The first row for `phone` (`LIMIT 1`); an `undefined` or `null` phone binds as `NULL` and matches nothing. */
  function FirstFor(t: Table, phone: Js.Nullable): (r: Option<nat>)
    ensures r.Some? ==> r.value < |t| && phone == Js.Given(t[r.value].phone)
    ensures r.Some? ==> forall j :: 0 <= j < r.value ==> phone != Js.Given(t[j].phone)
    ensures r.None? ==> forall j :: 0 <= j < |t| ==> phone != Js.Given(t[j].phone)
  {
    if |t| == 0 then None
    else if phone == Js.Given(t[0].phone) then Some(0)
    else
      var rest := FirstFor(t[1..], phone);
      if rest.Some? then Some(rest.value + 1) else None
  }

  const InstanceNotFound := "Instance details not found for the given phone number."

  /** `getInstanceDetailsByPhoneNumber(phone)`: the first matching row. When
      there is none, `handleError` throws in development (the catch rethrows
      that error) and the call yields `null` elsewhere. */
  function GetInstanceDetails(t: Table, phone: Js.Nullable, env: string, fault: Option<Js.Error>)
    : (r: Js.Settled<Option<Row>>)
    ensures fault.None? && FirstFor(t, phone).Some? ==> r == Js.Resolved(Some(t[FirstFor(t, phone).value]))
    ensures fault.None? && FirstFor(t, phone).None? && env == "development"
            ==> r == Js.Rejected(Js.PlainError(InstanceNotFound))
    ensures r.Rejected? ==> env == "development"
    ensures r == Js.Resolved(None) ==> fault.Some? || FirstFor(t, phone).None?
  {
    if fault.Some? then ResponseHelpers.Recover(env, InstanceFailed, fault.value, None)
    else
      var i := FirstFor(t, phone);
      if i.Some? then Js.Resolved(Some(t[i.value]))
      else
        var a := ResponseHelpers.Await(env, ResponseHelpers.Default(InstanceNotFound, None));
        if a.Rejected? then ResponseHelpers.Recover(env, InstanceFailed, a.error, None)
        else Js.Resolved(None)
  }

  // ---------------------------------------------------------------- the notice chain

  /** `connectionLimit` of the pool; with `waitForConnections` a request beyond
      it waits until a connection is released. */
  const PoolSize := 10

  /** Whether a lookup of `phone` ends in `handleError` instead of a row: the
      query faults or matches nothing. */
  predicate LookupMisses(t: Table, phone: Js.Nullable, fault: Option<Js.Error>) {
    fault.Some? || FirstFor(t, phone).None?
  }

  /** `getInstanceDetailsByPhoneNumber(phone)` awaited to the end, made while
      the calls that led to it hold `depth` pool connections. In production a
      miss calls `handleError`, which awaits the management notice; the notice
      first looks up `DEFAULT_WHATSAPP_NUMBER` the same way, one level deeper,
      still holding this level's connection. `defaultFault` is the fault of
      every default lookup. The outcome, when there is one, is the one
      `GetInstanceDetails` gives. */
  function InstanceLookup(t: Table, phone: Js.Nullable, defaultNumber: Js.Nullable, env: string,
                          fault: Option<Js.Error>, defaultFault: Option<Js.Error>, depth: nat)
    : (a: Js.Awaited<Option<Row>>)
    ensures a.Settles? ==> a.settled == GetInstanceDetails(t, phone, env, fault)
    ensures depth >= PoolSize ==> a.Hangs?
    decreases PoolSize - depth
  {
    if depth >= PoolSize then Js.Hangs
    else if env != "production" || !LookupMisses(t, phone, fault) then Js.Settles(GetInstanceDetails(t, phone, env, fault))
    else
      var notice := InstanceLookup(t, defaultNumber, defaultNumber, env, defaultFault, defaultFault, depth + 1);
      if notice.Hangs? then Js.Hangs else Js.Settles(GetInstanceDetails(t, phone, env, fault))
  }

  /** A lookup never settles exactly when, in production, it misses and so
      does the default lookup its notice makes (or that lookup would need a
      connection beyond the pool): every default lookup misses in turn, and
      each level waits on the next. */
  lemma {:induction false} InstanceLookupHangs(t: Table, phone: Js.Nullable, defaultNumber: Js.Nullable, env: string,
                                               fault: Option<Js.Error>, defaultFault: Option<Js.Error>, depth: nat)
    requires depth < PoolSize
    ensures InstanceLookup(t, phone, defaultNumber, env, fault, defaultFault, depth).Hangs?
            <==> env == "production" && LookupMisses(t, phone, fault)
                 && (depth + 1 == PoolSize || LookupMisses(t, defaultNumber, defaultFault))
    decreases PoolSize - depth
  {
    if env == "production" && LookupMisses(t, phone, fault) && depth + 1 < PoolSize {
      InstanceLookupHangs(t, defaultNumber, defaultNumber, env, defaultFault, defaultFault, depth + 1);
    }
  }

  /** `getInstanceDetailsByPhoneNumber(phone)` called with no connection held:
      it hangs exactly when, in production, both its own lookup and the
      default lookup miss; otherwise it settles as `GetInstanceDetails`. */
  function GetInstanceDetailsAwaited(t: Table, phone: Js.Nullable, defaultNumber: Js.Nullable, env: string,
                                     fault: Option<Js.Error>, defaultFault: Option<Js.Error>)
    : (a: Js.Awaited<Option<Row>>)
    ensures a.Hangs? <==>
      env == "production" && LookupMisses(t, phone, fault) && LookupMisses(t, defaultNumber, defaultFault)
    ensures a.Settles? ==> a.settled == GetInstanceDetails(t, phone, env, fault)
  {
    InstanceLookupHangs(t, phone, defaultNumber, env, fault, defaultFault, 0);
    InstanceLookup(t, phone, defaultNumber, env, fault, defaultFault, 0)
  }

  // ---------------------------------------------------------------- updates

  /** The `UPDATE ... WHERE phone_number = ?` both writers issue: every row of
      `phone` gets `count` and `date`. */
  function SetCount(t: Table, phone: string, count: nat, date: Calendar.Date): (u: Table)
    ensures |u| == |t|
    ensures forall i :: 0 <= i < |t| && t[i].phone == phone ==>
              u[i] == t[i].(messageCount := count, lastReset := date)
    ensures forall i :: 0 <= i < |t| && t[i].phone != phone ==> u[i] == t[i]
  {
    if |t| == 0 then []
    else
      var head := if t[0].phone == phone then t[0].(messageCount := count, lastReset := date) else t[0];
      [head] + SetCount(t[1..], phone, count, date)
  }

  /** Writing the same count and date twice is writing it once. */
  lemma SetCountIdempotent(t: Table, phone: string, count: nat, date: Calendar.Date)
    ensures SetCount(SetCount(t, phone, count, date), phone, count, date) == SetCount(t, phone, count, date)
  {
    var once := SetCount(t, phone, count, date);
    var twice := SetCount(once, phone, count, date);
    assert forall i :: 0 <= i < |t| ==> twice[i] == once[i];
  }

  const UpdateFailed := "[updateWhatsAppTracking] Error updating message count for phone number: "

  /** `updateWhatsAppTracking(phone, count)`: an absolute set plus today's date stamp.
      After a failed write the table is unchanged and the call rejects only in development. */
  function UpdateTracking(t: Table, phone: string, count: nat, today: Calendar.Date, env: string,
                          fault: Option<Js.Error>): (s: Step<()>)
    ensures fault.None? ==> s == Step(Js.Resolved(()), SetCount(t, phone, count, today))
    ensures fault.Some? ==> s.table == t && (s.result.Rejected? <==> env == "development")
  {
    if fault.Some? then
      Step(ResponseHelpers.Recover(env, UpdateFailed + phone,
                                   fault.value, ()), t)
    else Step(Js.Resolved(()), SetCount(t, phone, count, today))
  }

  /** The parameter's default: `updateWhatsAppTracking(phone)` sets the count to 1. */
  function UpdateTrackingDefault(t: Table, phone: string, today: Calendar.Date, env: string,
                                 fault: Option<Js.Error>): (s: Step<()>)
    ensures fault.None? ==> |s.table| == |t|
    ensures fault.None? ==> forall i :: 0 <= i < |t| && t[i].phone == phone ==>
              s.table[i].messageCount == 1 && s.table[i].lastReset == today
  {
    UpdateTracking(t, phone, 1, today, env, fault)
  }

  /** Repeating an update is the same as doing it once. */
  lemma UpdateTrackingIdempotent(t: Table, phone: string, count: nat, today: Calendar.Date, env: string)
    ensures var once := UpdateTracking(t, phone, count, today, env, None);
      UpdateTracking(once.table, phone, count, today, env, None) == once
  {
    SetCountIdempotent(t, phone, count, today);
  }

  /** Updates never change which row a phone lookup finds. */
  lemma {:induction false} FirstForUnchanged(t: Table, phone: string, count: nat, date: Calendar.Date, q: Js.Nullable)
    ensures FirstFor(SetCount(t, phone, count, date), q) == FirstFor(t, q)
    decreases |t|
  {
    if |t| > 0 {
      var u := SetCount(t, phone, count, date);
      assert u[1..] == SetCount(t[1..], phone, count, date);
      FirstForUnchanged(t[1..], phone, count, date, q);
    }
  }

  // ---------------------------------------------------------------- getMessageLimitStatus

  datatype LimitStatus = LimitStatus(messageCount: nat, dailyLimit: nat)

  const TrackingNotFound := "Tracking data not found for this phone number"

  /** `getMessageLimitStatus(phone)` as written, with `today` the UTC date.
      The driver hands `last_reset_date` back as a `Date` object, which is
      never `!==`-equal to the `YYYY-MM-DD` string it is compared with, so a
      found row is always reset to 0 in the table and reported as 0. With no
      row, development rejects with the not-found error; elsewhere the
      destructuring of the missing row throws, is caught, and yields `null`.
      `fault` is a failure of the SELECT, `updateFault` one of the resetting
      UPDATE: the catch then leaves the table as it was and yields `null`,
      or rejects in development. */
  function GetMessageLimitStatus(t: Table, phone: string, today: Calendar.Date, env: string,
                                 fault: Option<Js.Error>, updateFault: Option<Js.Error>)
    : (s: Step<Option<LimitStatus>>)
    ensures fault.Some? ==> s.table == t
    ensures fault.None? && FirstFor(t, Js.Given(phone)).Some? && updateFault.None? ==>
      s == Step(Js.Resolved(Some(LimitStatus(0, t[FirstFor(t, Js.Given(phone)).value].dailyLimit))),
                SetCount(t, phone, 0, today))
    ensures fault.None? && FirstFor(t, Js.Given(phone)).Some? && updateFault.Some? ==>
      s.table == t && (if env == "development" then s.result == Js.Rejected(updateFault.value)
                       else s.result == Js.Resolved(None))
    ensures fault.None? && FirstFor(t, Js.Given(phone)).None? ==>
      s.table == t && (if env == "development" then s.result == Js.Rejected(Js.PlainError(TrackingNotFound))
                       else s.result == Js.Resolved(None))
  {
    if fault.Some? || FirstFor(t, Js.Given(phone)).None? then MissingLimitStatus(t, phone, env, fault)
    else
      var row := t[FirstFor(t, Js.Given(phone)).value];
      ResetLimitStatus(t, phone, row.dailyLimit, today, env, updateFault)
  }

  /** The resetting branch both versions share: the UPDATE writes 0 and
      today's date and the call reports 0, or, when the UPDATE fails, the
      catch recovers with the table unchanged. */
  function ResetLimitStatus(t: Table, phone: string, dailyLimit: nat, today: Calendar.Date, env: string,
                            updateFault: Option<Js.Error>): (s: Step<Option<LimitStatus>>)
    ensures updateFault.None? ==> s == Step(Js.Resolved(Some(LimitStatus(0, dailyLimit))), SetCount(t, phone, 0, today))
    ensures updateFault.Some? ==> s.table == t
    ensures updateFault.Some? ==> (s.result.Rejected? <==> env == "development")
    ensures updateFault.Some? && s.result.Rejected? ==> s.result.error == updateFault.value
    ensures updateFault.Some? && s.result.Resolved? ==> s.result.value.None?
  {
    if updateFault.Some? then Step(ResponseHelpers.Recover(env, LimitFailed + phone, updateFault.value, None), t)
    else Step(Js.Resolved(Some(LimitStatus(0, dailyLimit))), SetCount(t, phone, 0, today))
  }

  /** The failure paths both versions share: a fault is recovered, and a
      missing row either rejects (development) or is caught as a `TypeError`. */
  function MissingLimitStatus(t: Table, phone: string, env: string, fault: Option<Js.Error>)
    : (s: Step<Option<LimitStatus>>)
    requires fault.Some? || FirstFor(t, Js.Given(phone)).None?
    ensures s.table == t
    ensures s.result.Rejected? <==> env == "development"
    ensures s.result.Resolved? ==> s.result.value.None?
  {
    var onError := LimitFailed + phone;
    if fault.Some? then Step(ResponseHelpers.Recover(env, onError, fault.value, None), t)
    else
      var a := ResponseHelpers.Await(env, ResponseHelpers.Default(TrackingNotFound, None));
      var thrown := if a.Rejected? then a.error else Js.TypeError(NoCountRow);
      Step(ResponseHelpers.Recover(env, onError, thrown, None), t)
  }

  /** `getMessageLimitStatus` as evidently intended: the stored reset date is
      compared with today as a date, so only a row dated other than today is
      reset, and a row dated today is reported as stored without an UPDATE. */
  function GetMessageLimitStatusByDate(t: Table, phone: string, today: Calendar.Date, env: string,
                                       fault: Option<Js.Error>, updateFault: Option<Js.Error>)
    : (s: Step<Option<LimitStatus>>)
    ensures fault.Some? ==> s.table == t
    ensures fault.None? && FirstFor(t, Js.Given(phone)).Some? ==>
      var row := t[FirstFor(t, Js.Given(phone)).value];
      if row.lastReset == today
      then s == Step(Js.Resolved(Some(LimitStatus(row.messageCount, row.dailyLimit))), t)
      else if updateFault.None?
      then s == Step(Js.Resolved(Some(LimitStatus(0, row.dailyLimit))), SetCount(t, phone, 0, today))
      else s.table == t && (if env == "development" then s.result == Js.Rejected(updateFault.value)
                            else s.result == Js.Resolved(None))
    ensures fault.None? && FirstFor(t, Js.Given(phone)).None? ==>
      s.table == t && (if env == "development" then s.result == Js.Rejected(Js.PlainError(TrackingNotFound))
                       else s.result == Js.Resolved(None))
  {
    if fault.Some? || FirstFor(t, Js.Given(phone)).None? then MissingLimitStatus(t, phone, env, fault)
    else
      var row := t[FirstFor(t, Js.Given(phone)).value];
      if row.lastReset != today then ResetLimitStatus(t, phone, row.dailyLimit, today, env, updateFault)
      else Step(Js.Resolved(Some(LimitStatus(row.messageCount, row.dailyLimit))), t)
  }

  /** As written, a row already reset today loses the messages counted since:
      the check reports 0 and writes 0 back, where the date comparison keeps
      the stored count and writes nothing. */
  lemma LimitStatusForgetsTodaysCount(t: Table, phone: string, today: Calendar.Date, env: string)
    requires FirstFor(t, Js.Given(phone)).Some?
    requires t[FirstFor(t, Js.Given(phone)).value].lastReset == today
    requires t[FirstFor(t, Js.Given(phone)).value].messageCount > 0
    ensures GetMessageLimitStatus(t, phone, today, env, None, None).result.value.value.messageCount == 0
    ensures GetMessageLimitStatusByDate(t, phone, today, env, None, None).result.value.value.messageCount
            == t[FirstFor(t, Js.Given(phone)).value].messageCount
    ensures GetMessageLimitStatus(t, phone, today, env, None, None).table != t
    ensures GetMessageLimitStatusByDate(t, phone, today, env, None, None).table == t
  {
    var i := FirstFor(t, Js.Given(phone)).value;
    assert SetCount(t, phone, 0, today)[i].messageCount == 0;
  }

  /** With the date comparison, a second check on the same day reports the
      same status and writes nothing, so it cannot meet an UPDATE failure. */
  lemma LimitStatusStableWithinDay(t: Table, phone: string, today: Calendar.Date, env: string,
                                   updateFault: Option<Js.Error>)
    ensures var first := GetMessageLimitStatusByDate(t, phone, today, env, None, None);
      var second := GetMessageLimitStatusByDate(first.table, phone, today, env, None, updateFault);
      second.result == first.result && second.table == first.table
  {
    var first := GetMessageLimitStatusByDate(t, phone, today, env, None, None);
    var i := FirstFor(t, Js.Given(phone));
    if i.Some? && t[i.value].lastReset != today {
      var u := SetCount(t, phone, 0, today);
      FirstForUnchanged(t, phone, 0, today, Js.Given(phone));
      assert u[i.value].lastReset == today;
      SetCountIdempotent(t, phone, 0, today);
    }
  }
}
