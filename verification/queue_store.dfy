/** The outbound message queue: `src/repositories/whatsappMessageQueueRepository.js`
    over an in-memory `whatsapp_message_queue` table. The file calls
    `handleError` without importing it, so every query failure surfaces as a
    `ReferenceError` rather than the driver's own error. (A failed
    `getConnection()` rejects earlier, with the pool's error.) */
module QueueStore {
  import opened Wrappers
  import Js
  import Seqs

  /** A row handed to `insertQueueEntries`; `priority` and `branchId` are carried but never written. */
  datatype Entry = Entry(name: Option<string>, phone: Option<string>, message: Option<string>,
                         mediaUrl: Option<string>, filename: Option<string>, status: Option<string>,
                         priority: Option<string>, branchId: Option<int>)

  /** A stored row; `id` and `createdAt` are assigned by the database. */
  datatype Row = Row(id: nat, name: Option<string>, phone: Option<string>, message: Option<string>,
                     mediaUrl: Option<string>, filename: Option<string>, status: Option<string>,
                     createdAt: int)

  /** The table and its auto-increment counter. */
  datatype Store = Store(rows: seq<Row>, nextId: nat)

  datatype Step<T> = Step(result: Js.Settled<T>, store: Store)

  /** Ids are unique and below the counter. */
  predicate Valid(s: Store) {
    && (forall i :: 0 <= i < |s.rows| ==> s.rows[i].id < s.nextId)
    && (forall i, j :: 0 <= i < j < |s.rows| ==> s.rows[i].id != s.rows[j].id)
  }

  /** What every failing store call rejects with. */
  const MissingHandler := Js.ReferenceError("handleError is not defined")

  // ---------------------------------------------------------------- insertQueueEntries

  /** The stored form of `entries`: consecutive ids from `firstId`, all stamped `now`. */
  function NewRows(entries: seq<Entry>, firstId: nat, now: int): (r: seq<Row>)
    ensures |r| == |entries|
    ensures forall i :: 0 <= i < |r| ==>
      r[i] == Row(firstId + i, entries[i].name, entries[i].phone, entries[i].message,
                  entries[i].mediaUrl, entries[i].filename, entries[i].status, now)
  {
    if |entries| == 0 then []
    else
      var e := entries[0];
      [Row(firstId, e.name, e.phone, e.message, e.mediaUrl, e.filename, e.status, now)]
      + NewRows(entries[1..], firstId + 1, now)
  }

  /** `insertQueueEntries(entries)`: an empty list returns before touching the
      store; otherwise one multi-row `INSERT`, all or nothing. */
  function Insert(s: Store, entries: seq<Entry>, now: int, fault: Option<Js.Error>): (st: Step<()>)
    ensures |entries| == 0 ==> st == Step(Js.Resolved(()), s)
    ensures |entries| > 0 && fault.Some? ==> st == Step(Js.Rejected(MissingHandler), s)
    ensures |entries| > 0 && fault.None? ==>
      st.result.Resolved? && st.store == Store(s.rows + NewRows(entries, s.nextId, now), s.nextId + |entries|)
    ensures Valid(s) ==> Valid(st.store)
  {
    if |entries| == 0 then Step(Js.Resolved(()), s)
    else if fault.Some? then Step(Js.Rejected(MissingHandler), s)
    else
      var added := NewRows(entries, s.nextId, now);
      var u := Store(s.rows + added, s.nextId + |entries|);
      assert Valid(s) ==> Valid(u) by {
        if Valid(s) {
          forall i, j | 0 <= i < j < |u.rows| ensures u.rows[i].id != u.rows[j].id {
            if j >= |s.rows| && i >= |s.rows| {
              assert u.rows[i] == added[i - |s.rows|] && u.rows[j] == added[j - |s.rows|];
            } else if j >= |s.rows| {
              assert u.rows[j] == added[j - |s.rows|];
            }
          }
        }
      }
      Step(Js.Resolved(()), u)
  }

  // ---------------------------------------------------------------- getPendingMessages

  predicate IsPending(r: Row) {
    r.status == Some("pending")
  }

  function CreatedAt(r: Row): int {
    r.createdAt
  }

  /** `WHERE status = 'pending' ORDER BY created_at ASC LIMIT n`. The order
      of rows with equal timestamps is left open, as SQL leaves it. */
  function OldestPending(rows: seq<Row>, limit: nat): (r: seq<Row>)
    ensures |r| <= limit && Seqs.SortedBy(r, CreatedAt)
  {
    Seqs.Take(Seqs.SortBy(Seqs.Filter(rows, IsPending), CreatedAt), limit)
  }

  /** What the query promises: at most `limit` pending rows of the table, oldest
      first, each row at most as often as the table holds it, as many as there
      are up to the limit, and none left behind that is older than one
      returned. */
  ghost predicate OldestPendingSpec(rows: seq<Row>, limit: nat, out: seq<Row>) {
    && |out| <= limit
    && multiset(out) <= multiset(rows)
    && (forall i :: 0 <= i < |out| ==> out[i] in rows && IsPending(out[i]))
    && Seqs.SortedBy(out, CreatedAt)
    && (|out| == limit || forall x :: x in rows && IsPending(x) ==> x in out)
    && (forall x, i :: x in rows && IsPending(x) && x !in out && 0 <= i < |out| ==> out[i].createdAt <= x.createdAt)
  }

  lemma OldestPendingMeetsSpec(rows: seq<Row>, limit: nat)
    ensures OldestPendingSpec(rows, limit, OldestPending(rows, limit))
  {
    var pending := Seqs.Filter(rows, IsPending);
    var sorted := Seqs.SortBy(pending, CreatedAt);
    var out := Seqs.Take(sorted, limit);
    forall i | 0 <= i < |out| ensures out[i] in rows && IsPending(out[i]) {
      assert out[i] == sorted[i];
      assert sorted[i] in multiset(pending);
    }
    forall x | x in rows && IsPending(x) ensures x in sorted {
      assert x in pending;
      assert x in multiset(sorted);
    }
    forall x, i | x in rows && IsPending(x) && x !in out && 0 <= i < |out|
      ensures out[i].createdAt <= x.createdAt
    {
      var m :| 0 <= m < |sorted| && sorted[m] == x;
      assert m >= |out|;
      assert out[i] == sorted[i];
    }
    if |out| < limit {
      assert out == sorted;
    }
    OldestPendingFromTable(rows, limit);
  }

  /** The query returns each row at most as often as the table holds it. */
  lemma OldestPendingFromTable(rows: seq<Row>, limit: nat)
    ensures multiset(OldestPending(rows, limit)) <= multiset(rows)
  {
    var sorted := Seqs.SortBy(Seqs.Filter(rows, IsPending), CreatedAt);
    var out := OldestPending(rows, limit);
    assert sorted == out + sorted[|out|..];
    Seqs.FilterSubMultiset(rows, IsPending);
  }

  /** `getPendingMessages(limit)`. */
  function GetPending(s: Store, limit: nat, fault: Option<Js.Error>): (r: Js.Settled<seq<Row>>)
    ensures fault.Some? ==> r == Js.Rejected(MissingHandler)
    ensures fault.None? ==> r.Resolved? && OldestPendingSpec(s.rows, limit, r.value)
  {
    OldestPendingMeetsSpec(s.rows, limit);
    if fault.Some? then Js.Rejected(MissingHandler) else Js.Resolved(OldestPending(s.rows, limit))
  }

  // ---------------------------------------------------------------- deleteMessageFromQueue

  function Without(rows: seq<Row>, id: nat): (r: seq<Row>)
    ensures |r| <= |rows|
    ensures forall i :: 0 <= i < |r| ==> r[i] in rows && r[i].id != id
    ensures forall x :: x in rows && x.id != id ==> x in r
    ensures (forall i :: 0 <= i < |rows| ==> rows[i].id != id) ==> r == rows
  {
    if |rows| == 0 then []
    else if rows[0].id == id then Without(rows[1..], id)
    else [rows[0]] + Without(rows[1..], id)
  }

  /** `deleteMessageFromQueue(id)`: removes the row with that id and nothing else. */
  function Delete(s: Store, id: nat, fault: Option<Js.Error>): (st: Step<()>)
    ensures fault.Some? ==> st == Step(Js.Rejected(MissingHandler), s)
    ensures fault.None? ==> st.result.Resolved? && st.store.nextId == s.nextId
    ensures fault.None? ==> forall x :: x in st.store.rows <==> x in s.rows && x.id != id
  {
    if fault.Some? then Step(Js.Rejected(MissingHandler), s)
    else Step(Js.Resolved(()), Store(Without(s.rows, id), s.nextId))
  }

  /** Deleting an id that is not in the table leaves the table as it was. */
  lemma DeleteAbsentIsNoOp(s: Store, id: nat)
    requires forall i :: 0 <= i < |s.rows| ==> s.rows[i].id != id
    ensures Delete(s, id, None).store == s
  {
  }

  /** Deleting keeps the store valid. */
  lemma DeleteKeepsValid(s: Store, id: nat)
    requires Valid(s)
    ensures Valid(Delete(s, id, None).store)
  {
    var r := Without(s.rows, id);
    WithoutSubsequence(s.rows, id);
  }

  /** `Without` keeps the surviving rows in their order (so ids stay distinct). */
  lemma {:induction false} WithoutSubsequence(rows: seq<Row>, id: nat)
    requires forall i, j :: 0 <= i < j < |rows| ==> rows[i].id != rows[j].id
    ensures forall i, j :: 0 <= i < j < |Without(rows, id)| ==> Without(rows, id)[i].id != Without(rows, id)[j].id
    decreases |rows|
  {
    if |rows| > 0 {
      WithoutSubsequence(rows[1..], id);
      var tail := Without(rows[1..], id);
      forall k | 0 <= k < |tail| ensures tail[k].id != rows[0].id {
        assert tail[k] in rows[1..];
        var m :| 0 <= m < |rows[1..]| && rows[1..][m] == tail[k];
        assert rows[m + 1] == tail[k];
      }
    }
  }
}
