/** `src/repositories/enquiryRepository.js` over an in-memory `enquiries` table:
    the insert tuples of `create`/`bulkCreate` and the three read projections. */
module EnquiryStore {
  import opened Wrappers
  import Js
  import Seqs
  import ResponseHelpers

  /** Texts the source logs, throws or returns, as it writes them. */
  const CreateFailed := "[create] Error inserting data into enquiries:"
  const BulkCreateFailed := "[bulkCreate] Error inserting bulk data into enquiries:"
  const NumbersFailed := "[getEnquiryNumbers] Error fetching enquiry numbers:"

  /** The data object handed to `create`/`bulkCreate`. */
  datatype Data = Data(name: Js.Nullable, email: Js.Nullable, phone: Js.Nullable, dob: Js.Nullable,
                       gender: Js.Nullable, address: Js.Nullable, enquiryFor: Js.Nullable,
                       followupDate: Js.Nullable, kind: Js.Nullable, status: Js.Nullable,
                       source: Js.Nullable, remarks: Js.Nullable, leadGeneratedDate: Js.Nullable,
                       branchId: Option<int>)

  datatype Row = Row(id: nat, name: Option<string>, email: Option<string>, phone: Option<string>,
                     dob: Option<string>, gender: Option<string>, address: Option<string>,
                     enquiryFor: Option<string>, followupDate: Option<string>, kind: Option<string>,
                     status: Option<string>, source: Option<string>, remarks: Option<string>,
                     leadGeneratedDate: Option<string>, branchId: Option<int>)

  datatype Store = Store(rows: seq<Row>, nextId: nat)

  /** How a callback-style repository call ends: the callback gets a result or
      an error, or, when `handleError` throws first, the callback is never
      called and the call's own promise rejects. */
  datatype Callback<T> = CallbackOk(value: T) | CallbackErr(error: Js.Error) | NoCallback(rejection: Js.Error)

  datatype InsertResult = InsertResult(insertId: nat, affectedRows: nat)

  /** A value bound as a query parameter: `undefined` and `null` become SQL `NULL`. */
  function Bind(v: Js.Nullable): (o: Option<string>)
    ensures o.Some? <==> v.Given?
  {
    if v.Given? then Some(v.s) else None
  }

  /** `value || null`: every falsy value, the empty string included, becomes `NULL`. */
  function OrNull(v: Js.Nullable): (o: Option<string>)
    ensures o.Some? <==> Js.IsTruthy(v)
    ensures o.Some? ==> o.value == v.s
  {
    if Js.IsTruthy(v) then Some(v.s) else None
  }

  /** The tuple both insert paths bind for one data object. */
  function ToRow(d: Data, id: nat): (r: Row)
    ensures r.id == id && r.name == Bind(d.name) && r.phone == Bind(d.phone)
    ensures r.leadGeneratedDate == Bind(d.leadGeneratedDate) && r.branchId == d.branchId
    ensures r.email == OrNull(d.email) && r.remarks == OrNull(d.remarks) && r.status == OrNull(d.status)
  {
    Row(id, Bind(d.name), OrNull(d.email), Bind(d.phone), OrNull(d.dob), OrNull(d.gender), OrNull(d.address),
        OrNull(d.enquiryFor), OrNull(d.followupDate), OrNull(d.kind), OrNull(d.status), OrNull(d.source),
        OrNull(d.remarks), Bind(d.leadGeneratedDate), d.branchId)
  }

  /** The catch block shared by `create` and `bulkCreate`. */
  function Failed<T>(env: string, message: string, e: Js.Error): (c: Callback<T>)
    ensures c.NoCallback? <==> env == "development"
    ensures c.NoCallback? ==> c.rejection == e
    ensures c.CallbackErr? ==> c.error == e
  {
    if ResponseHelpers.Await(env, ResponseHelpers.Default(message, Some(e))).Rejected? then NoCallback(e)
    else CallbackErr(e)
  }

  /** `create(data, callback)`. */
  function Create(s: Store, d: Data, env: string, fault: Option<Js.Error>): (out: (Callback<InsertResult>, Store))
    ensures fault.None? ==>
      out == (CallbackOk(InsertResult(s.nextId, 1)), Store(s.rows + [ToRow(d, s.nextId)], s.nextId + 1))
    ensures fault.Some? ==> out.1 == s && !out.0.CallbackOk?
  {
    if fault.Some? then (Failed(env, CreateFailed, fault.value), s)
    else (CallbackOk(InsertResult(s.nextId, 1)), Store(s.rows + [ToRow(d, s.nextId)], s.nextId + 1))
  }

  function ToRows(ds: seq<Data>, firstId: nat): (r: seq<Row>)
    ensures |r| == |ds|
  {
    if |ds| == 0 then [] else [ToRow(ds[0], firstId)] + ToRows(ds[1..], firstId + 1)
  }

  /** The `i`-th bound row belongs to the `i`-th data object and carries the `i`-th new id. */
  lemma {:induction false} ToRowsAt(ds: seq<Data>, firstId: nat, i: nat)
    requires i < |ds|
    ensures ToRows(ds, firstId)[i] == ToRow(ds[i], firstId + i)
    decreases i
  {
    if i > 0 {
      ToRowsAt(ds[1..], firstId + 1, i - 1);
    }
  }

  /** The driver's error for `INSERT ... VALUES ?` bound to an empty list (malformed SQL). */
  const EmptyValues := Js.PlainError("ER_PARSE_ERROR")

  /** `bulkCreate(dataArray, callback)`: one statement, all rows or none. */
  function BulkCreate(s: Store, ds: seq<Data>, env: string, fault: Option<Js.Error>)
    : (out: (Callback<InsertResult>, Store))
    ensures fault.None? && |ds| > 0 ==>
      out == (CallbackOk(InsertResult(s.nextId, |ds|)), Store(s.rows + ToRows(ds, s.nextId), s.nextId + |ds|))
    ensures fault.Some? || |ds| == 0 ==> out.1 == s && !out.0.CallbackOk?
  {
    if fault.Some? then (Failed(env, BulkCreateFailed, fault.value), s)
    else if |ds| == 0 then (Failed(env, BulkCreateFailed, EmptyValues), s)
    else (CallbackOk(InsertResult(s.nextId, |ds|)), Store(s.rows + ToRows(ds, s.nextId), s.nextId + |ds|))
  }

  /** The store after one successful single-row insert. */
  function Append(s: Store, d: Data): (s': Store)
    ensures Create(s, d, "", None).1 == s'
  {
    Store(s.rows + [ToRow(d, s.nextId)], s.nextId + 1)
  }

  /** One successful `create` per element, in order. */
  function RepeatCreate(s: Store, ds: seq<Data>): Store
    decreases |ds|
  {
    if |ds| == 0 then s else RepeatCreate(Append(s, ds[0]), ds[1..])
  }

  /** A bulk insert stores, row for row, what one `create` per element would
      store in turn. */
  lemma {:induction false} BulkIsRepeatedCreate(s: Store, ds: seq<Data>)
    ensures RepeatCreate(s, ds) == Store(s.rows + ToRows(ds, s.nextId), s.nextId + |ds|)
    decreases |ds|
  {
    if |ds| == 0 {
      assert s.rows + ToRows(ds, s.nextId) == s.rows;
    } else {
      var r0 := ToRow(ds[0], s.nextId);
      var s1 := Store(s.rows + [r0], s.nextId + 1);
      assert Append(s, ds[0]) == s1;
      assert RepeatCreate(s, ds) == RepeatCreate(s1, ds[1..]);
      BulkIsRepeatedCreate(s1, ds[1..]);
      var rest := ToRows(ds[1..], s.nextId + 1);
      assert ToRows(ds, s.nextId) == [r0] + rest;
      assert (s.rows + [r0]) + rest == s.rows + ([r0] + rest);
    }
  }

  // ---------------------------------------------------------------- reads

  datatype NamePhone = NamePhone(name: Option<string>, phone: Option<string>)

  datatype Contact = Contact(name: Option<string>, phone: Option<string>, branchId: Option<int>)

  predicate Untouched(r: Row) {
    r.status.None? || r.status == Some("")
  }

  function UntouchedNumbers(rows: seq<Row>): (r: seq<NamePhone>)
    ensures |r| <= |rows|
    ensures forall i :: 0 <= i < |r| ==> exists x :: x in rows && Untouched(x) && r[i] == NamePhone(x.name, x.phone)
    ensures forall x :: x in rows && Untouched(x) ==> NamePhone(x.name, x.phone) in r
  {
    if |rows| == 0 then []
    else
      var rest := UntouchedNumbers(rows[1..]);
      assert forall x :: x in rows[1..] ==> x in rows;
      if Untouched(rows[0]) then [NamePhone(rows[0].name, rows[0].phone)] + rest
      else
        assert forall x :: x in rows && Untouched(x) ==> x in rows[1..];
        rest
  }

  /** `getEnquiryNumbers(callback)`: name and phone of rows whose status is `NULL` or empty. */
  function GetEnquiryNumbers(s: Store, env: string, fault: Option<Js.Error>): (c: Callback<seq<NamePhone>>)
    ensures fault.None? ==> c == CallbackOk(UntouchedNumbers(s.rows))
    ensures fault.Some? ==> !c.CallbackOk?
  {
    if fault.Some? then Failed(env, NumbersFailed, fault.value)
    else CallbackOk(UntouchedNumbers(s.rows))
  }

  function PhoneOf(r: Row): Option<string> { r.phone }

  /** `getAllEnquiryPhoneNumbers()`: every row's phone in table order; a failure is rethrown in every environment. */
  function GetAllPhones(s: Store, fault: Option<Js.Error>): (r: Js.Settled<seq<Option<string>>>)
    ensures fault.Some? ==> r == Js.Rejected(fault.value)
    ensures fault.None? ==> r.Resolved? && |r.value| == |s.rows|
                            && forall i :: 0 <= i < |s.rows| ==> r.value[i] == s.rows[i].phone
  {
    if fault.Some? then Js.Rejected(fault.value) else Js.Resolved(PhonesOf(s.rows))
  }

  function PhonesOf(rows: seq<Row>): (r: seq<Option<string>>)
    ensures |r| == |rows| && forall i :: 0 <= i < |rows| ==> r[i] == rows[i].phone
  {
    Seqs.Map(rows, PhoneOf)
  }

  function ContactsOf(rows: seq<Row>): (r: seq<Contact>)
    ensures |r| == |rows| && forall i :: 0 <= i < |rows| ==> r[i] == Contact(rows[i].name, rows[i].phone, rows[i].branchId)
  {
    if |rows| == 0 then [] else [Contact(rows[0].name, rows[0].phone, rows[0].branchId)] + ContactsOf(rows[1..])
  }

  /** `getEnquiryNameAndContacts()`: name, phone and branch of every row; a failure is rethrown. */
  function GetNameAndContacts(s: Store, fault: Option<Js.Error>): (r: Js.Settled<seq<Contact>>)
    ensures fault.Some? ==> r == Js.Rejected(fault.value)
    ensures fault.None? ==> r == Js.Resolved(ContactsOf(s.rows))
  {
    if fault.Some? then Js.Rejected(fault.value) else Js.Resolved(ContactsOf(s.rows))
  }
}
