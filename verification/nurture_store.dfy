/** `src/repositories/nurtureScheduleRepository.js` over an in-memory
    `nurture_schedule` table: scheduling with `??` defaults, the due-today
    query and the sent mark. Store failures go through `handleError` and are
    rethrown only where it throws. */
module NurtureStore {
  import opened Wrappers
  import Js
  import Seqs
  import Calendar
  import ResponseHelpers

  /** Texts the source logs, throws or returns, as it writes them. */
  const ScheduleFailed := "Error scheduling nurture message"
  const FetchFailed := "Error fetching scheduled nurture messages:"
  const MarkFailed := "Error marking message as sent"

  /** A stored row; `status` is the column default `'pending'` until marked. */
  datatype Row = Row(id: nat, enquiryId: Option<nat>, name: string, number: string, message: string,
                     scheduledDate: Calendar.Date, priority: string, status: string)

  datatype Table = Table(rows: seq<Row>, nextId: nat)

  datatype Step<T> = Step(result: Js.Settled<T>, table: Table)

  /** The argument object of `scheduleNurtureMessage`; a `branch_id` passed
      along with it is not among the destructured fields, so it has no place here. */
  datatype Request = Request(enquiryId: Option<nat>, name: Js.Nullable, number: Js.Nullable, message: Js.Nullable,
                             scheduledDate: Option<Calendar.Date>, priority: Js.Nullable)

  const Pending := "pending"
  const Sent := "sent"

  /** `v ?? fallback`: only `undefined` and `null` fall back; an empty string is kept. */
  function Coalesce(v: Js.Nullable, fallback: string): (r: string)
    ensures v.Given? ==> r == v.s
    ensures !v.Given? ==> r == fallback
  {
    if v.Given? then v.s else fallback
  }

  // ---------------------------------------------------------------- scheduleNurtureMessage

  /** The statement's parameter list after the `??` defaults. */
  function Params(rq: Request, todayUtc: Calendar.Date): seq<Js.Value>
    requires Calendar.Valid(todayUtc) && (rq.scheduledDate.Some? ==> Calendar.Valid(rq.scheduledDate.value))
  {
    [ if rq.enquiryId.Some? then Js.Num(rq.enquiryId.value) else Js.Null,
      Js.Str(Coalesce(rq.name, "No Name")),
      Js.Str(Coalesce(rq.number, "No Number")),
      Js.Str(Coalesce(rq.message, "No Message")),
      Js.Str(Calendar.Format(if rq.scheduledDate.Some? then rq.scheduledDate.value else todayUtc)),
      Js.Str(Coalesce(rq.priority, "low")) ]
  }

  /** The `params.includes(undefined)` guard can never fire: every parameter
      has a default, so each call goes on to its one insert. */
  lemma GuardNeverFires(rq: Request, todayUtc: Calendar.Date)
    requires Calendar.Valid(todayUtc) && (rq.scheduledDate.Some? ==> Calendar.Valid(rq.scheduledDate.value))
    ensures Js.Undefined !in Params(rq, todayUtc)
    ensures |Params(rq, todayUtc)| == 6
  {
  }

  /** The row one call inserts. */
  function NewRow(rq: Request, id: nat, todayUtc: Calendar.Date): (r: Row)
    ensures r.id == id && r.enquiryId == rq.enquiryId && r.status == Pending
    ensures r.name == Coalesce(rq.name, "No Name") && r.number == Coalesce(rq.number, "No Number")
    ensures r.message == Coalesce(rq.message, "No Message") && r.priority == Coalesce(rq.priority, "low")
    ensures r.scheduledDate == (if rq.scheduledDate.Some? then rq.scheduledDate.value else todayUtc)
  {
    Row(id, rq.enquiryId, Coalesce(rq.name, "No Name"), Coalesce(rq.number, "No Number"),
        Coalesce(rq.message, "No Message"),
        if rq.scheduledDate.Some? then rq.scheduledDate.value else todayUtc,
        Coalesce(rq.priority, "low"), Pending)
  }

  /** `scheduleNurtureMessage(rq)` with today's UTC date for the date default. */
  function Schedule(tb: Table, rq: Request, todayUtc: Calendar.Date, env: string, fault: Option<Js.Error>)
    : (st: Step<()>)
    ensures fault.None? ==> st == Step(Js.Resolved(()), Table(tb.rows + [NewRow(rq, tb.nextId, todayUtc)], tb.nextId + 1))
    ensures fault.Some? ==> st.table == tb
    ensures fault.Some? ==> (st.result.Rejected? <==> env == "development")
    ensures st.result.Rejected? ==> st.result.error == fault.value
  {
    if fault.Some? then
      Step(ResponseHelpers.Await(env, ResponseHelpers.Default(ScheduleFailed, fault)), tb)
    else
      Step(Js.Resolved(()), Table(tb.rows + [NewRow(rq, tb.nextId, todayUtc)], tb.nextId + 1))
  }

  // ---------------------------------------------------------------- getScheduledMessagesForDate

  /** The `WHERE` clause: that date, still pending, and that priority when one is given. */
  predicate Due(r: Row, date: Calendar.Date, priority: Js.Nullable) {
    r.scheduledDate == date && r.status == Pending && (Js.IsTruthy(priority) ==> r.priority == priority.s)
  }

  function DueRows(rows: seq<Row>, date: Calendar.Date, priority: Js.Nullable): (r: seq<Row>)
    ensures forall x :: x in r <==> x in rows && Due(x, date, priority)
  {
    Seqs.Filter(rows, x => Due(x, date, priority))
  }

  /** `getScheduledMessagesForDate(date, priority)`: the due rows, or
      `undefined` (`None`) once a failure has been handled without a throw.
      It returns no table: the query writes nothing. */
  function GetScheduled(tb: Table, date: Calendar.Date, priority: Js.Nullable, env: string, fault: Option<Js.Error>)
    : (r: Js.Settled<Option<seq<Row>>>)
    ensures fault.None? ==> r.Resolved? && r.value.Some?
    ensures r.Resolved? && r.value.Some? ==>
      forall x :: x in r.value.value <==> x in tb.rows && Due(x, date, priority)
    ensures fault.Some? ==> (r.Rejected? <==> env == "development") && (r.Resolved? ==> r.value.None?)
  {
    if fault.Some? then
      var a := ResponseHelpers.Await(env, ResponseHelpers.Default(FetchFailed, fault));
      if a.Rejected? then Js.Rejected(a.error) else Js.Resolved(None)
    else Js.Resolved(Some(DueRows(tb.rows, date, priority)))
  }

  // ---------------------------------------------------------------- markMessageAsSent

  function MarkRows(rows: seq<Row>, id: nat): (r: seq<Row>)
    ensures |r| == |rows|
    ensures forall i :: 0 <= i < |rows| ==> r[i] == if rows[i].id == id then rows[i].(status := Sent) else rows[i]
  {
    if |rows| == 0 then []
    else [if rows[0].id == id then rows[0].(status := Sent) else rows[0]] + MarkRows(rows[1..], id)
  }

  /** `markMessageAsSent(id)`: the rows with that id become `'sent'`, nothing else changes. */
  function MarkAsSent(tb: Table, id: nat, env: string, fault: Option<Js.Error>): (st: Step<()>)
    ensures fault.None? ==> st.result.Resolved? && st.table == Table(MarkRows(tb.rows, id), tb.nextId)
    ensures fault.Some? ==> st.table == tb && (st.result.Rejected? <==> env == "development")
  {
    if fault.Some? then
      Step(ResponseHelpers.Await(env, ResponseHelpers.Default(MarkFailed, fault)), tb)
    else Step(Js.Resolved(()), Table(MarkRows(tb.rows, id), tb.nextId))
  }

  /** Marking twice is marking once. */
  lemma MarkIdempotent(tb: Table, id: nat, env: string)
    ensures var once := MarkAsSent(tb, id, env, None).table;
      MarkAsSent(once, id, env, None).table == once
  {
    var once := MarkAsSent(tb, id, env, None).table;
    assert MarkRows(once.rows, id) == once.rows;
  }

  // ---------------------------------------------------------------- round trips

  /** A scheduled message is due on its date, at its priority: the date query
      then returns what it returned before plus the new row, in the model's
      table order (the SELECT has no `ORDER BY`). */
  lemma ScheduledIsDue(tb: Table, rq: Request, todayUtc: Calendar.Date, env: string)
    requires rq.scheduledDate.Some? && rq.priority.Given? && rq.priority.s != ""
    ensures var after := Schedule(tb, rq, todayUtc, env, None).table;
      var row := NewRow(rq, tb.nextId, todayUtc);
      && GetScheduled(after, rq.scheduledDate.value, rq.priority, env, None)
         == Js.Resolved(Some(DueRows(tb.rows, rq.scheduledDate.value, rq.priority) + [row]))
  {
    var row := NewRow(rq, tb.nextId, todayUtc);
    var p := (x: Row) => Due(x, rq.scheduledDate.value, rq.priority);
    Seqs.FilterConcat(tb.rows, [row], p);
    assert Seqs.Filter([row], p) == [row] by {
      assert p(row);
      assert [row][1..] == [];
    }
  }

  /** Once marked, a row is never due again. */
  lemma MarkedIsNotDue(tb: Table, id: nat, date: Calendar.Date, priority: Js.Nullable, env: string)
    ensures var after := MarkAsSent(tb, id, env, None).table;
      forall x :: x in DueRows(after.rows, date, priority) ==> x.id != id
  {
  }
}
