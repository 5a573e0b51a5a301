/** `src/services/enquiryService.js`: a single enquiry from the form (branch
    lookup, insert, then the nurture sequence), and the CSV import (clean the
    rows, drop known and repeated phones, one bulk insert). */
module EnquiryService {
  import opened Wrappers
  import Js
  import Text
  import Seqs
  import Calendar
  import ResponseHelpers
  import EnquiryStore
  import NurtureStore
  import NurtureService
  import PingerClient

  /** Texts the source logs, throws or returns, as it writes them. */
  const ProcessFailed := "Error processing enquiry data:"
  const InsertFailed := "Error during bulk insertion:"

  /** The nurture sequence's own texts and videos. */
  const Nurture := NurtureService.Content(NurtureService.Text, NurtureService.Media)

  // ---------------------------------------------------------------- field cleaning

  /** The characters `[\x20-\x7E]`: printable ASCII. */
  predicate Printable(c: char) {
    ' ' <= c <= '~'
  }

  /** `sanitizeString(str)`: every character outside printable ASCII removed. */
  function Sanitize(s: string): (r: string)
    ensures forall i :: 0 <= i < |r| ==> Printable(r[i])
    ensures |r| <= |s|
  {
    Text.Keep(s, Printable)
  }

  /** Sanitizing keeps every printable character, changes a string exactly when
      it holds something else, and a second pass changes nothing. */
  lemma SanitizeKeepsExactlyPrintable(s: string)
    ensures forall c :: c in s && Printable(c) ==> c in Sanitize(s)
    ensures Sanitize(s) == s <==> forall i :: 0 <= i < |s| ==> Printable(s[i])
    ensures Sanitize(Sanitize(s)) == Sanitize(s)
  {
    forall c | c in s && Printable(c)
      ensures c in Sanitize(s)
    {
      Text.KeepRetains(s, Printable, c);
    }
  }

  /** `s.replace(/\D/g, '')`: only the ASCII digits, in order. */
  function DigitsOnly(s: string): (r: string)
    ensures Text.AllDigits(r)
  {
    Text.Keep(s, Text.IsDigit)
  }

  /** `s.slice(-10)`: the last ten characters, or all of a shorter string. */
  function LastTen(s: string): (r: string)
    ensures |r| == if |s| < 10 then |s| else 10
    ensures r == s[|s| - |r|..]
  {
    if |s| < 10 then s else s[|s| - 10..]
  }

  /** `row.phone ? row.phone.replace(/\D/g, '').slice(-10) : ''`. */
  function NormalizePhone(v: Js.Nullable): (r: string)
    ensures Text.AllDigits(r) && |r| <= 10
    ensures !Js.IsTruthy(v) ==> r == ""
  {
    if Js.IsTruthy(v) then LastTen(DigitsOnly(v.s)) else ""
  }

  /** `/^\d{10}$/`. */
  predicate ValidPhone(p: string) {
    |p| == 10 && Text.AllDigits(p)
  }

  /** A phone survives normalisation exactly when the raw value holds at least
      ten digits; a phone that already is ten digits comes back unchanged. */
  lemma PhoneValidIff(v: Js.Nullable)
    ensures ValidPhone(NormalizePhone(v)) <==> Js.IsTruthy(v) && |DigitsOnly(v.s)| >= 10
    ensures Js.IsTruthy(v) && ValidPhone(v.s) ==> NormalizePhone(v) == v.s
  {
  }

  /** The stored lead date: a date that reads strictly as `DD-MM-YYYY` in
      `YYYY-MM-DD`, anything else replaced by today's date. */
  function LeadDate(v: Js.Nullable, today: Calendar.Date): (r: string)
    requires Calendar.Valid(today)
    ensures v.Given? && Calendar.ParseDmy(v.s).Some? ==> r == Calendar.Format(Calendar.ParseDmy(v.s).value)
    ensures r != Calendar.Format(today) ==> v.Given? && Calendar.ParseDmy(v.s).Some?
  {
    if v.Given? && Calendar.ParseDmy(v.s).Some? then Calendar.Format(Calendar.ParseDmy(v.s).value)
    else Calendar.Format(today)
  }

  /** Every lead date the import stores is a well-formed `YYYY-MM-DD`, and it
      is the day the `DD-MM-YYYY` text named whenever that text was valid. */
  lemma LeadDateIsIso(v: Js.Nullable, today: Calendar.Date)
    requires Calendar.Valid(today) && 0 <= today.year <= 9999
    ensures Calendar.ParseYmd(LeadDate(v, today)).Some?
    ensures v.Given? && Calendar.ParseDmy(v.s).Some? ==> Calendar.ParseYmd(LeadDate(v, today)) == Calendar.ParseDmy(v.s)
    ensures !(v.Given? && Calendar.ParseDmy(v.s).Some?) ==> Calendar.ParseYmd(LeadDate(v, today)) == Some(today)
  {
    if v.Given? && Calendar.ParseDmy(v.s).Some? {
      Calendar.FormatParseRoundTrip(Calendar.ParseDmy(v.s).value);
    } else {
      Calendar.FormatParseRoundTrip(today);
    }
  }

  // ---------------------------------------------------------------- processEnquiryData

  /** One parsed CSV row; a column the file lacks is `undefined`. */
  datatype CsvRow = CsvRow(name: Js.Nullable, phone: Js.Nullable, leadGeneratedDate: Js.Nullable,
                           email: Js.Nullable, dob: Js.Nullable, gender: Js.Nullable, address: Js.Nullable,
                           enquiryFor: Js.Nullable, followupDate: Js.Nullable, kind: Js.Nullable,
                           status: Js.Nullable, source: Js.Nullable, remarks: Js.Nullable, branch: Js.Nullable)

  /** One cleaned enquiry; the optional fields are `value || null`. */
  datatype Enquiry = Enquiry(name: string, phone: string, leadGeneratedDate: string,
                             email: Option<string>, dob: Option<string>, gender: Option<string>,
                             address: Option<string>, enquiryFor: Option<string>, followupDate: Option<string>,
                             kind: Option<string>, status: Option<string>, source: Option<string>,
                             remarks: Option<string>, branch: string)

  function Phone(row: CsvRow): string {
    NormalizePhone(row.phone)
  }

  /** The object the import builds for a row it keeps. */
  function Shape(row: CsvRow, today: Calendar.Date): (e: Enquiry)
    requires Calendar.Valid(today)
    ensures e.phone == Phone(row) && e.leadGeneratedDate == LeadDate(row.leadGeneratedDate, today)
    ensures e.name == if Js.IsTruthy(row.name) then Sanitize(row.name.s) else ""
    ensures e.branch == if Js.IsTruthy(row.branch) then Text.Trim(row.branch.s) else "SPT"
    ensures e.email == EnquiryStore.OrNull(row.email) && e.remarks == EnquiryStore.OrNull(row.remarks)
  {
    Enquiry(if Js.IsTruthy(row.name) then Sanitize(row.name.s) else "", Phone(row),
            LeadDate(row.leadGeneratedDate, today),
            EnquiryStore.OrNull(row.email), EnquiryStore.OrNull(row.dob), EnquiryStore.OrNull(row.gender),
            EnquiryStore.OrNull(row.address), EnquiryStore.OrNull(row.enquiryFor),
            EnquiryStore.OrNull(row.followupDate), EnquiryStore.OrNull(row.kind), EnquiryStore.OrNull(row.status),
            EnquiryStore.OrNull(row.source), EnquiryStore.OrNull(row.remarks),
            if Js.IsTruthy(row.branch) then Text.Trim(row.branch.s) else "SPT")
  }

  /** A phone the import may add: ten digits, and not already stored. */
  predicate New(p: string, existing: seq<Option<string>>) {
    ValidPhone(p) && Some(p) !in existing
  }

  /** The normalised phone of every row, in order. */
  function RowPhones(rows: seq<CsvRow>): (ps: seq<string>)
    ensures |ps| == |rows| && forall i :: 0 <= i < |rows| ==> ps[i] == Phone(rows[i])
  {
    if |rows| == 0 then [] else [Phone(rows[0])] + RowPhones(rows[1..])
  }

  /** Position `i` holds the first occurrence of a new phone. */
  predicate FirstNew(ps: seq<string>, existing: seq<Option<string>>, i: nat)
    requires i < |ps|
  {
    New(ps[i], existing) && forall j :: 0 <= j < i ==> ps[j] != ps[i]
  }

  /** The positions the import keeps, defined position by position: the first
      occurrence of each new phone, in increasing order. */
  function Firsts(ps: seq<string>, existing: seq<Option<string>>): (ix: seq<nat>)
    ensures forall k :: 0 <= k < |ix| ==> ix[k] < |ps|
    decreases |ps|
  {
    if |ps| == 0 then []
    else
      var n := |ps| - 1;
      Firsts(ps[..n], existing) + (if FirstNew(ps, existing, n) then [n] else [])
  }

  /** Dropping the last phones does not change which earlier positions come first. */
  lemma FirstNewPrefix(ps: seq<string>, existing: seq<Option<string>>, n: nat, i: nat)
    requires i < n <= |ps|
    ensures FirstNew(ps[..n], existing, i) == FirstNew(ps, existing, i)
  {
    assert forall j :: 0 <= j <= i ==> ps[..n][j] == ps[j];
  }

  /** The kept positions are first occurrences of new phones. */
  lemma {:induction false} FirstsAreFirstNew(ps: seq<string>, existing: seq<Option<string>>)
    ensures forall k :: 0 <= k < |Firsts(ps, existing)| ==> FirstNew(ps, existing, Firsts(ps, existing)[k])
    decreases |ps|
  {
    if |ps| > 0 {
      var n := |ps| - 1;
      var init := ps[..n];
      FirstsAreFirstNew(init, existing);
      var head := Firsts(init, existing);
      var ix := Firsts(ps, existing);
      assert ix == head + (if FirstNew(ps, existing, n) then [n] else []);
      forall k | 0 <= k < |ix|
        ensures FirstNew(ps, existing, ix[k])
      {
        if k < |head| {
          assert ix[k] == head[k] && FirstNew(init, existing, head[k]);
          FirstNewPrefix(ps, existing, n, head[k]);
        } else {
          assert ix[k] == n;
        }
      }
    }
  }

  /** The kept positions increase strictly. */
  lemma {:induction false} FirstsIncrease(ps: seq<string>, existing: seq<Option<string>>)
    ensures forall k, l :: 0 <= k < l < |Firsts(ps, existing)| ==> Firsts(ps, existing)[k] < Firsts(ps, existing)[l]
    decreases |ps|
  {
    if |ps| > 0 {
      var n := |ps| - 1;
      var init := ps[..n];
      FirstsIncrease(init, existing);
      var head := Firsts(init, existing);
      var ix := Firsts(ps, existing);
      assert ix == head + (if FirstNew(ps, existing, n) then [n] else []);
      forall k, l | 0 <= k < l < |ix|
        ensures ix[k] < ix[l]
      {
        assert ix[k] == head[k] && head[k] < |init|;
        if l < |head| {
          assert ix[l] == head[l];
        }
      }
    }
  }

  /** Every first occurrence of a new phone is kept. */
  lemma {:induction false} FirstsComplete(ps: seq<string>, existing: seq<Option<string>>, i: nat)
    requires i < |ps| && FirstNew(ps, existing, i)
    ensures i in Firsts(ps, existing)
    decreases |ps|
  {
    var n := |ps| - 1;
    var init := ps[..n];
    var head := Firsts(init, existing);
    assert Firsts(ps, existing) == head + (if FirstNew(ps, existing, n) then [n] else []);
    if i < n {
      FirstNewPrefix(ps, existing, n, i);
      FirstsComplete(init, existing, i);
    }
  }

  /** The kept positions are exactly the first occurrences of new phones, in increasing order. */
  lemma FirstsSpec(ps: seq<string>, existing: seq<Option<string>>)
    ensures forall k :: 0 <= k < |Firsts(ps, existing)| ==> FirstNew(ps, existing, Firsts(ps, existing)[k])
    ensures forall k, l :: 0 <= k < l < |Firsts(ps, existing)| ==> Firsts(ps, existing)[k] < Firsts(ps, existing)[l]
    ensures forall i :: 0 <= i < |ps| && FirstNew(ps, existing, i) ==> i in Firsts(ps, existing)
  {
    FirstsAreFirstNew(ps, existing);
    FirstsIncrease(ps, existing);
    forall i | 0 <= i < |ps| && FirstNew(ps, existing, i)
      ensures i in Firsts(ps, existing)
    {
      FirstsComplete(ps, existing, i);
    }
  }

  /** A new phone's first occurrence is at or before any of its occurrences. */
  lemma {:induction false} FirstOccurrence(ps: seq<string>, existing: seq<Option<string>>, i: nat)
    requires i < |ps| && New(ps[i], existing)
    ensures exists f :: 0 <= f <= i && FirstNew(ps, existing, f) && ps[f] == ps[i]
    decreases i
  {
    if !FirstNew(ps, existing, i) {
      var j :| 0 <= j < i && ps[j] == ps[i];
      FirstOccurrence(ps, existing, j);
    }
  }

  /** How a kept row becomes an enquiry; the import's is `Shaper(today)`.
      The dedupe reasoning needs only that it keeps the row's phone. */
  ghost predicate KeepsPhone(shape: CsvRow -> Enquiry) {
    forall row :: shape(row).phone == Phone(row)
  }

  function Shaper(today: Calendar.Date): (shape: CsvRow -> Enquiry)
    requires Calendar.Valid(today)
    ensures KeepsPhone(shape)
    ensures forall row :: shape(row) == Shape(row, today)
  {
    row => Shape(row, today)
  }

  /** The shaped rows at the given positions. */
  function Pick(rows: seq<CsvRow>, ix: seq<nat>, shape: CsvRow -> Enquiry): (r: seq<Enquiry>)
    requires forall k :: 0 <= k < |ix| ==> ix[k] < |rows|
    ensures |r| == |ix| && forall k :: 0 <= k < |ix| ==> r[k] == shape(rows[ix[k]])
    decreases |ix|
  {
    if |ix| == 0 then [] else [shape(rows[ix[0]])] + Pick(rows, ix[1..], shape)
  }

  /** What the import keeps: the shaped first row of each new phone, in the
      order those first rows appear. */
  function Unique(rows: seq<CsvRow>, existing: seq<Option<string>>, shape: CsvRow -> Enquiry): (r: seq<Enquiry>)
    ensures forall k :: 0 <= k < |r| ==> exists i :: 0 <= i < |rows| && r[k] == shape(rows[i])
  {
    Pick(rows, Firsts(RowPhones(rows), existing), shape)
  }

  /** The kept enquiries carry new phones, no phone twice, and every new phone of the batch. */
  lemma UniqueSpec(rows: seq<CsvRow>, existing: seq<Option<string>>, shape: CsvRow -> Enquiry)
    requires KeepsPhone(shape)
    ensures forall k :: 0 <= k < |Unique(rows, existing, shape)| ==> New(Unique(rows, existing, shape)[k].phone, existing)
    ensures forall k, l :: 0 <= k < l < |Unique(rows, existing, shape)| ==>
      Unique(rows, existing, shape)[k].phone != Unique(rows, existing, shape)[l].phone
    ensures forall i :: 0 <= i < |rows| && New(Phone(rows[i]), existing) ==>
      Phone(rows[i]) in Phones(Unique(rows, existing, shape))
  {
    var ps := RowPhones(rows);
    var ix := Firsts(ps, existing);
    var r := Unique(rows, existing, shape);
    FirstsSpec(ps, existing);
    forall k | 0 <= k < |r|
      ensures New(r[k].phone, existing)
    {
      assert r[k].phone == ps[ix[k]];
    }
    forall k, l | 0 <= k < l < |r|
      ensures r[k].phone != r[l].phone
    {
      assert r[k].phone == ps[ix[k]] && r[l].phone == ps[ix[l]];
      assert ix[k] < ix[l] && FirstNew(ps, existing, ix[l]);
    }
    forall i | 0 <= i < |rows| && New(Phone(rows[i]), existing)
      ensures Phone(rows[i]) in Phones(r)
    {
      FirstOccurrence(ps, existing, i);
      var f :| 0 <= f <= i && FirstNew(ps, existing, f) && ps[f] == ps[i];
      var k :| 0 <= k < |ix| && ix[k] == f;
      assert Phones(r)[k] == r[k].phone == ps[f];
    }
  }

  /** The phones of the map built so far. */
  function Phones(m: seq<Enquiry>): (r: seq<string>)
    ensures |r| == |m| && forall k :: 0 <= k < |m| ==> r[k] == m[k].phone
  {
    if |m| == 0 then [] else [m[0].phone] + Phones(m[1..])
  }

  /** One `forEach` step over the `uniqueEnquiries` map (kept as its values in
      insertion order): a new, not yet seen phone is set; anything else is skipped. */
  function Visit(m: seq<Enquiry>, row: CsvRow, existing: seq<Option<string>>, shape: CsvRow -> Enquiry): seq<Enquiry> {
    var phone := Phone(row);
    if ValidPhone(phone) && Some(phone) !in existing then
      if phone !in Phones(m) then m + [shape(row)] else m
    else m
  }

  /** The `forEach` callback, over the map built so far. */
  function Step(existing: seq<Option<string>>, shape: CsvRow -> Enquiry): (seq<Enquiry>, CsvRow) -> seq<Enquiry> {
    (m, row) => Visit(m, row, existing, shape)
  }

  /** `rawData.forEach(...)` from map `m` on. */
  function ForEach(rows: seq<CsvRow>, existing: seq<Option<string>>, shape: CsvRow -> Enquiry, m: seq<Enquiry>)
    : (r: seq<Enquiry>)
    ensures |m| <= |r| && r[..|m|] == m
  {
    assert forall b, row :: |b| <= |Step(existing, shape)(b, row)| && Step(existing, shape)(b, row)[..|b|] == b;
    Seqs.FoldLeftExtends(rows, Step(existing, shape), m);
    Seqs.FoldLeft(rows, Step(existing, shape), m)
  }

  /** `Unique` as a function of the rows seen. */
  function UniqueOf(existing: seq<Option<string>>, shape: CsvRow -> Enquiry): seq<CsvRow> -> seq<Enquiry> {
    rows => Unique(rows, existing, shape)
  }

  /** The phones at the given positions. */
  function At(ps: seq<string>, ix: seq<nat>): (r: seq<string>)
    requires forall k :: 0 <= k < |ix| ==> ix[k] < |ps|
    ensures |r| == |ix| && forall k :: 0 <= k < |ix| ==> r[k] == ps[ix[k]]
    decreases |ix|
  {
    if |ix| == 0 then [] else [ps[ix[0]]] + At(ps, ix[1..])
  }

  /** The kept enquiries carry the phones at the kept positions. */
  lemma UniquePhones(rows: seq<CsvRow>, existing: seq<Option<string>>, shape: CsvRow -> Enquiry)
    requires KeepsPhone(shape)
    ensures Phones(Unique(rows, existing, shape)) == At(RowPhones(rows), Firsts(RowPhones(rows), existing))
  {
    var ps := RowPhones(rows);
    var ix := Firsts(ps, existing);
    var u := Unique(rows, existing, shape);
    forall k | 0 <= k < |ix|
      ensures Phones(u)[k] == At(ps, ix)[k]
    {
      assert u[k] == shape(rows[ix[k]]);
    }
  }

  /** A new phone is kept exactly when it occurs at all. */
  lemma KeptIffPresent(ps: seq<string>, existing: seq<Option<string>>, p: string)
    requires New(p, existing)
    ensures p in At(ps, Firsts(ps, existing)) <==> p in ps
  {
    var ix := Firsts(ps, existing);
    var kept := At(ps, ix);
    if p in kept {
      var k :| 0 <= k < |kept| && kept[k] == p;
      assert ps[ix[k]] == p;
    }
    if p in ps {
      var j :| 0 <= j < |ps| && ps[j] == p;
      FirstOccurrence(ps, existing, j);
      var f :| 0 <= f <= j && FirstNew(ps, existing, f) && ps[f] == p;
      FirstsComplete(ps, existing, f);
      var k :| 0 <= k < |ix| && ix[k] == f;
      assert kept[k] == p;
    }
  }

  /** For a new phone, the rows kept so far carry it exactly when some earlier row did. */
  lemma SeenIffEarlier(done: seq<CsvRow>, existing: seq<Option<string>>, shape: CsvRow -> Enquiry, p: string)
    requires KeepsPhone(shape) && New(p, existing)
    ensures p in Phones(Unique(done, existing, shape)) <==> p in RowPhones(done)
  {
    UniquePhones(done, existing, shape);
    KeptIffPresent(RowPhones(done), existing, p);
  }

  lemma RowPhonesSnoc(done: seq<CsvRow>, x: CsvRow)
    ensures RowPhones(done + [x]) == RowPhones(done) + [Phone(x)]
  {
  }

  /** One more phone adds its position exactly when it is new and not seen before. */
  lemma FirstsSnoc(ps: seq<string>, q: string, existing: seq<Option<string>>)
    ensures Firsts(ps + [q], existing) == Firsts(ps, existing) + (if New(q, existing) && q !in ps then [|ps|] else [])
  {
    var qs := ps + [q];
    assert qs[..|ps|] == ps;
    assert FirstNew(qs, existing, |ps|) <==> New(q, existing) && q !in ps by {
      if q in ps {
        var j :| 0 <= j < |ps| && ps[j] == q;
        assert qs[j] == qs[|ps|];
      }
    }
  }

  /** Picking earlier positions ignores an appended row; picking its position shapes it. */
  lemma PickSnoc(done: seq<CsvRow>, x: CsvRow, ix: seq<nat>, shape: CsvRow -> Enquiry)
    requires forall k :: 0 <= k < |ix| ==> ix[k] < |done|
    ensures Pick(done + [x], ix, shape) == Pick(done, ix, shape)
    ensures Pick(done + [x], ix + [|done|], shape) == Pick(done, ix, shape) + [shape(x)]
  {
    var all := done + [x];
    forall k | 0 <= k < |ix|
      ensures Pick(all, ix, shape)[k] == Pick(done, ix, shape)[k]
    {
      assert all[ix[k]] == done[ix[k]];
    }
    var jx := ix + [|done|];
    forall k | 0 <= k < |jx|
      ensures Pick(all, jx, shape)[k] == (Pick(done, ix, shape) + [shape(x)])[k]
    {
      if k < |ix| {
        assert jx[k] == ix[k] && all[ix[k]] == done[ix[k]];
      }
    }
  }

  /** Visiting one more row extends the position-by-position definition by that row. */
  lemma VisitExtends(done: seq<CsvRow>, x: CsvRow, existing: seq<Option<string>>, shape: CsvRow -> Enquiry)
    requires KeepsPhone(shape)
    ensures Visit(Unique(done, existing, shape), x, existing, shape) == Unique(done + [x], existing, shape)
  {
    var ps := RowPhones(done);
    var ix := Firsts(ps, existing);
    var q := Phone(x);
    RowPhonesSnoc(done, x);
    FirstsSnoc(ps, q, existing);
    PickSnoc(done, x, ix, shape);
    if New(q, existing) {
      SeenIffEarlier(done, existing, shape, q);
    }
  }

  /** The `Map`-based `forEach` keeps exactly the rows the position-by-position
      definition keeps, in the same order. */
  lemma ForEachIsUnique(rows: seq<CsvRow>, existing: seq<Option<string>>, shape: CsvRow -> Enquiry)
    requires KeepsPhone(shape)
    ensures ForEach(rows, existing, shape, []) == Unique(rows, existing, shape)
  {
    var step := Step(existing, shape);
    var spec := UniqueOf(existing, shape);
    forall d, x
      ensures step(spec(d), x) == spec(d + [x])
    {
      VisitExtends(d, x, existing, shape);
    }
    assert spec([]) == [];
    Seqs.FoldLeftSpec([], rows, step, spec);
    assert [] + rows == rows;
  }

  /** `processEnquiryData(rawData)` against the stored phones (`today` is
      the local date for unreadable lead dates). */
  function ProcessEnquiryData(rows: seq<CsvRow>, s: EnquiryStore.Store, today: Calendar.Date, env: string,
                              readFault: Option<Js.Error>): (r: Js.Settled<seq<Enquiry>>)
    requires Calendar.Valid(today)
    ensures r.Rejected? <==> readFault.Some?
    ensures r.Rejected? ==> r.error == readFault.value
    ensures r.Resolved? ==> r.value == Unique(rows, EnquiryStore.PhonesOf(s.rows), Shaper(today))
  {
    var got := EnquiryStore.GetAllPhones(s, readFault);
    if got.Rejected? then ResponseHelpers.Rethrow(env, ProcessFailed, got.error)
    else
      ForEachIsUnique(rows, got.value, Shaper(today));
      assert got.value == EnquiryStore.PhonesOf(s.rows);
      Js.Resolved(ForEach(rows, got.value, Shaper(today), []))
  }

  /** No imported enquiry repeats a stored phone or another imported one. */
  lemma ImportedPhonesAreNew(rows: seq<CsvRow>, s: EnquiryStore.Store, today: Calendar.Date, env: string)
    requires Calendar.Valid(today)
    ensures var r := ProcessEnquiryData(rows, s, today, env, None);
      && r.Resolved?
      && (forall k :: 0 <= k < |r.value| ==> ValidPhone(r.value[k].phone))
      && (forall k, i :: 0 <= k < |r.value| && 0 <= i < |s.rows| ==> s.rows[i].phone != Some(r.value[k].phone))
      && (forall k, l :: 0 <= k < l < |r.value| ==> r.value[k].phone != r.value[l].phone)
  {
    var existing := EnquiryStore.PhonesOf(s.rows);
    var u := Unique(rows, existing, Shaper(today));
    UniqueSpec(rows, existing, Shaper(today));
    forall k, i | 0 <= k < |u| && 0 <= i < |s.rows|
      ensures s.rows[i].phone != Some(u[k].phone)
    {
      assert existing[i] == s.rows[i].phone;
    }
  }

  // ---------------------------------------------------------------- bulkInsertEnquiries

  /** A stored optional column as the data object hands it back. */
  function Column(o: Option<string>): Js.Nullable {
    Js.FromColumn(o)
  }

  /** The data object `bulkCreate` receives for an enquiry: it has a `branch`
      but no `branch_id`, so the branch column is bound to `NULL`. */
  function ToData(e: Enquiry): (d: EnquiryStore.Data)
    ensures d.branchId.None?
  {
    EnquiryStore.Data(Js.Given(e.name), Column(e.email), Js.Given(e.phone), Column(e.dob), Column(e.gender),
                      Column(e.address), Column(e.enquiryFor), Column(e.followupDate), Column(e.kind),
                      Column(e.status), Column(e.source), Column(e.remarks), Js.Given(e.leadGeneratedDate), None)
  }

  /** `bulkInsertEnquiries(processedData)`. */
  function BulkInsert(s: EnquiryStore.Store, es: seq<Enquiry>, env: string, fault: Option<Js.Error>)
    : (out: (Js.Awaited<Option<EnquiryStore.InsertResult>>, EnquiryStore.Store))
    ensures |es| == 0 ==> out == (Js.Settles(Js.Resolved(None)), s)
    ensures |es| > 0 && fault.None? ==>
      && out.0 == Js.Settles(Js.Resolved(Some(EnquiryStore.InsertResult(s.nextId, |es|))))
      && out.1 == EnquiryStore.Store(s.rows + EnquiryStore.ToRows(Seqs.Map(es, ToData), s.nextId), s.nextId + |es|)
    ensures |es| > 0 && fault.Some? ==> out.1 == s && !(out.0.Settles? && out.0.settled.Resolved?)
    ensures |es| > 0 && fault.Some? ==> (out.0.Hangs? <==> env == "development")
    ensures out.0.Settles? && out.0.settled.Rejected? ==> fault.Some? && out.0.settled.error == fault.value
  {
    if |es| == 0 then (Js.Settles(Js.Resolved(None)), s)
    else
      var b := EnquiryStore.BulkCreate(s, Seqs.Map(es, ToData), env, fault);
      match b.0
      case CallbackOk(v) => (Js.Settles(Js.Resolved(Some(v))), b.1)
      case CallbackErr(e) => (Js.Settles(ResponseHelpers.Rethrow(env, InsertFailed, e)), b.1)
      case NoCallback(_) => (Js.Hangs, b.1)
  }

  /** The optional fields come back from the store as they were cleaned:
      `value || null` twice is `value || null` once. */
  lemma ColumnRoundTrip(o: Option<string>)
    requires o.None? || o.value != ""
    ensures EnquiryStore.OrNull(Column(o)) == o
  {
  }

  /** Each imported enquiry is stored under the next id with its phone, name,
      date and cleaned optional fields, and with no branch. */
  lemma ImportedRowsAsCleaned(s: EnquiryStore.Store, es: seq<Enquiry>, env: string, i: nat)
    requires i < |es|
    requires es[i].email.None? || es[i].email.value != ""
    requires es[i].status.None? || es[i].status.value != ""
    requires es[i].remarks.None? || es[i].remarks.value != ""
    ensures var after := BulkInsert(s, es, env, None).1;
      var r := after.rows[|s.rows| + i];
      && |after.rows| == |s.rows| + |es|
      && r.id == s.nextId + i && r.phone == Some(es[i].phone) && r.name == Some(es[i].name)
      && r.leadGeneratedDate == Some(es[i].leadGeneratedDate)
      && r.email == es[i].email && r.remarks == es[i].remarks && r.status == es[i].status
      && r.branchId.None?
  {
    var ds := Seqs.Map(es, ToData);
    EnquiryStore.ToRowsAt(ds, s.nextId, i);
    var after := s.rows + EnquiryStore.ToRows(ds, s.nextId);
    assert after[|s.rows| + i] == EnquiryStore.ToRows(ds, s.nextId)[i];
    ColumnRoundTrip(es[i].email);
    ColumnRoundTrip(es[i].remarks);
    ColumnRoundTrip(es[i].status);
  }

  /** The cleaned optional fields are never empty strings. */
  lemma ShapedFieldsNonEmpty(row: CsvRow, today: Calendar.Date)
    requires Calendar.Valid(today)
    ensures var e := Shape(row, today);
      && (e.email.None? || e.email.value != "") && (e.status.None? || e.status.value != "")
      && (e.remarks.None? || e.remarks.value != "")
  {
  }

  /** The bulk insert with the branch resolved to its id, as the form path
      does: `lookup` is the branch lookup by name. The data differs from
      `ToData`'s in the branch column alone. */
  function ToDataWithBranch(e: Enquiry, lookup: string -> Option<int>): (d: EnquiryStore.Data)
    ensures d.(branchId := None) == ToData(e)
    ensures d.branchId == lookup(e.branch)
  {
    ToData(e).(branchId := lookup(e.branch))
  }

  function BulkInsertWithBranch(s: EnquiryStore.Store, es: seq<Enquiry>, lookup: string -> Option<int>, env: string,
                                fault: Option<Js.Error>): (out: (Js.Awaited<Option<EnquiryStore.InsertResult>>, EnquiryStore.Store))
    ensures |es| == 0 ==> out == (Js.Settles(Js.Resolved(None)), s)
    ensures |es| > 0 && fault.None? ==>
      out.1 == EnquiryStore.Store(s.rows + EnquiryStore.ToRows(Seqs.Map(es, e => ToDataWithBranch(e, lookup)), s.nextId),
                                  s.nextId + |es|)
    ensures fault.Some? ==> out.1 == s
  {
    if |es| == 0 then (Js.Settles(Js.Resolved(None)), s)
    else
      var b := EnquiryStore.BulkCreate(s, Seqs.Map(es, e => ToDataWithBranch(e, lookup)), env, fault);
      match b.0
      case CallbackOk(v) => (Js.Settles(Js.Resolved(Some(v))), b.1)
      case CallbackErr(e) => (Js.Settles(ResponseHelpers.Rethrow(env, InsertFailed, e)), b.1)
      case NoCallback(_) => (Js.Hangs, b.1)
  }

  /** As written, the cleaned `branch` (never empty: `'SPT'` by default) is
      lost: every imported row is stored without a branch. */
  lemma ImportDropsBranch(s: EnquiryStore.Store, es: seq<Enquiry>, env: string, i: nat)
    requires i < |es|
    ensures var after := BulkInsert(s, es, env, None).1;
      && |after.rows| == |s.rows| + |es| && after.rows[|s.rows| + i].branchId.None?
  {
    var ds := Seqs.Map(es, ToData);
    EnquiryStore.ToRowsAt(ds, s.nextId, i);
    assert (s.rows + EnquiryStore.ToRows(ds, s.nextId))[|s.rows| + i] == EnquiryStore.ToRows(ds, s.nextId)[i];
  }

  /** With the branch looked up, each imported row carries its branch's id. */
  lemma ImportKeepsBranch(s: EnquiryStore.Store, es: seq<Enquiry>, lookup: string -> Option<int>, env: string, i: nat)
    requires i < |es|
    ensures var after := BulkInsertWithBranch(s, es, lookup, env, None).1;
      && |after.rows| == |s.rows| + |es| && after.rows[|s.rows| + i].branchId == lookup(es[i].branch)
  {
    var ds := Seqs.Map(es, e => ToDataWithBranch(e, lookup));
    EnquiryStore.ToRowsAt(ds, s.nextId, i);
    assert (s.rows + EnquiryStore.ToRows(ds, s.nextId))[|s.rows| + i] == EnquiryStore.ToRows(ds, s.nextId)[i];
  }

  /** `processCSVAndInsertEnquiries` after the download: clean, then insert. */
  function ImportEnquiries(rows: seq<CsvRow>, s: EnquiryStore.Store, today: Calendar.Date, env: string,
                           readFault: Option<Js.Error>, insertFault: Option<Js.Error>)
    : (out: (Js.Awaited<Option<EnquiryStore.InsertResult>>, EnquiryStore.Store))
    requires Calendar.Valid(today)
    ensures readFault.Some? ==> out == (Js.Settles(Js.Rejected(readFault.value)), s)
    ensures readFault.None? ==> out == BulkInsert(s, Unique(rows, EnquiryStore.PhonesOf(s.rows), Shaper(today)), env, insertFault)
  {
    var p := ProcessEnquiryData(rows, s, today, env, readFault);
    if p.Rejected? then (Js.Settles(Js.Rejected(p.error)), s)
    else BulkInsert(s, p.value, env, insertFault)
  }

  /** After an import without failures, every new phone of the file is stored. */
  lemma ImportStoresNewPhones(rows: seq<CsvRow>, s: EnquiryStore.Store, today: Calendar.Date, env: string, i: nat)
    requires Calendar.Valid(today) && i < |rows| && New(Phone(rows[i]), EnquiryStore.PhonesOf(s.rows))
    ensures Some(Phone(rows[i])) in EnquiryStore.PhonesOf(ImportEnquiries(rows, s, today, env, None, None).1.rows)
  {
    var existing := EnquiryStore.PhonesOf(s.rows);
    var shape := Shaper(today);
    var es := Unique(rows, existing, shape);
    var p := Phone(rows[i]);
    UniqueSpec(rows, existing, shape);
    assert p in Phones(es);
    var k :| 0 <= k < |es| && Phones(es)[k] == p;
    var ix := Firsts(RowPhones(rows), existing);
    assert es[k] == Shape(rows[ix[k]], today);
    ShapedFieldsNonEmpty(rows[ix[k]], today);
    ImportedRowsAsCleaned(s, es, env, k);
    var after := ImportEnquiries(rows, s, today, env, None, None).1;
    assert after == BulkInsert(s, es, env, None).1;
    assert EnquiryStore.PhonesOf(after.rows)[|s.rows| + k] == Some(p);
  }

  /** Importing the same file twice adds nothing the second time: every phone
      it could add is now stored. */
  lemma ReimportAddsNothing(rows: seq<CsvRow>, s: EnquiryStore.Store, today: Calendar.Date, env: string)
    requires Calendar.Valid(today)
    ensures var first := ImportEnquiries(rows, s, today, env, None, None).1;
      ImportEnquiries(rows, first, today, env, None, None) == (Js.Settles(Js.Resolved(None)), first)
  {
    var existing := EnquiryStore.PhonesOf(s.rows);
    var first := ImportEnquiries(rows, s, today, env, None, None).1;
    var later := EnquiryStore.PhonesOf(first.rows);
    var ps := RowPhones(rows);
    var ix := Firsts(ps, later);
    if |ix| > 0 {
      FirstsAreFirstNew(ps, later);
      var i := ix[0];
      assert New(ps[i], existing) by {
        assert forall k :: 0 <= k < |existing| ==> later[k] == existing[k];
      }
      ImportStoresNewPhones(rows, s, today, env, i);
      assert false;
    }
    assert Unique(rows, later, Shaper(today)) == [];
    assert ImportEnquiries(rows, first, today, env, None, None) == BulkInsert(first, [], env, None);
  }

  // ---------------------------------------------------------------- createEnquiry

  /** The form's date as `moment(v, 'DD-MM-YYYY').format('YYYY-MM-DD')`
      writes it for a strictly valid date; anything else is an invalid moment. */
  function FormDate(v: Js.Nullable): (r: string)
    ensures v.Given? && Calendar.ParseDmy(v.s).Some? ==> Calendar.ParseYmd(r) == Calendar.ParseDmy(v.s)
  {
    if v.Given? && Calendar.ParseDmy(v.s).Some? then
      Calendar.FormatParseRoundTrip(Calendar.ParseDmy(v.s).value);
      Calendar.Format(Calendar.ParseDmy(v.s).value)
    else "Invalid date"
  }

  /** A branch id the lookup returned is usable when it is truthy. */
  predicate KnownBranch(b: Option<int>) {
    b.Some? && b.value != 0
  }

  /** The object handed to the callback: the form data with the date
      reformatted, the branch id, and the insert id. */
  datatype NewEnquiry = NewEnquiry(data: EnquiryStore.Data, id: nat)

  /** What `createEnquiry` did: what its callback received (or why it never
      ran), the enquiries table, the nurture table, and the nurture run. */
  datatype Created = Created(reply: EnquiryStore.Callback<NewEnquiry>, store: EnquiryStore.Store,
                             nurture: NurtureStore.Table, scheduled: Option<NurtureService.Scheduled>)

  const InvalidBranch := Js.PlainError("Invalid branch id")

  /** The data object `create` receives. */
  function Prepared(d: EnquiryStore.Data, branchId: Option<int>): EnquiryStore.Data {
    d.(leadGeneratedDate := Js.Given(FormDate(d.leadGeneratedDate)), branchId := branchId)
  }

  /** The lead the nurture sequence is scheduled for. */
  function NewLead(d: EnquiryStore.Data, id: nat, date: Calendar.Date, branchId: Option<int>): NurtureService.Lead {
    NurtureService.Lead(Some(id), d.name, d.phone, date, branchId)
  }

  /** `createEnquiry(enquiryData, callback)` with the branch lookup's answer,
      the store's answer to the insert, and everything the nurture run reads. */
  function CreateEnquiry(d: EnquiryStore.Data, branch: Js.Settled<Option<int>>, s: EnquiryStore.Store,
                         tb: NurtureStore.Table, env: string, createFault: Option<Js.Error>,
                         instanceId: Js.Nullable, canSend: Js.Nullable, accessToken: Js.Nullable,
                         reply: PingerClient.Reply, todayUtc: Calendar.Date, faults: nat -> Option<Js.Error>)
    : (c: Created)
    ensures branch.Rejected? ==> c == Created(EnquiryStore.NoCallback(branch.error), s, tb, None)
    ensures branch.Resolved? && !KnownBranch(branch.value) ==>
      c == Created(EnquiryStore.CallbackErr(InvalidBranch), s, tb, None)
    ensures branch.Resolved? && KnownBranch(branch.value) && createFault.Some? ==>
      c.store == s && c.nurture == tb && c.scheduled.None? && !c.reply.CallbackOk?
    ensures branch.Resolved? && KnownBranch(branch.value) && createFault.None? ==>
      && c.store == EnquiryStore.Store(s.rows + [EnquiryStore.ToRow(Prepared(d, branch.value), s.nextId)], s.nextId + 1)
      && c.store.rows[|s.rows|].branchId == branch.value
      && c.store.rows[|s.rows|].leadGeneratedDate == Some(FormDate(d.leadGeneratedDate))
    ensures c.scheduled.None? ==> c.nurture == tb
    ensures c.scheduled.Some? ==>
      && createFault.None? && branch.Resolved? && KnownBranch(branch.value)
      && d.leadGeneratedDate.Given? && Calendar.ParseDmy(d.leadGeneratedDate.s).Some?
      && c.scheduled.value == NurtureService.ScheduleNurtureMessages(
           NewLead(d, s.nextId, Calendar.ParseDmy(d.leadGeneratedDate.s).value, branch.value), Nurture, tb, instanceId, env,
           canSend, accessToken, reply, todayUtc, faults)
      && c.nurture == c.scheduled.value.table
    ensures c.reply.CallbackOk? ==>
      c.reply.value == NewEnquiry(Prepared(d, branch.value), s.nextId) && createFault.None?
      && (c.scheduled.Some? ==> c.scheduled.value.result.Resolved?)
    ensures (&& branch.Resolved? && KnownBranch(branch.value) && createFault.None?
             && d.leadGeneratedDate.Given? && Calendar.ParseDmy(d.leadGeneratedDate.s).Some?) ==>
      c.scheduled.Some?
    ensures (&& branch.Resolved? && KnownBranch(branch.value) && createFault.None?
             && (c.scheduled.None? || c.scheduled.value.result.Resolved?)) ==>
      c.reply == EnquiryStore.CallbackOk(NewEnquiry(Prepared(d, branch.value), s.nextId))
  {
    if branch.Rejected? then Created(EnquiryStore.NoCallback(branch.error), s, tb, None)
    else if !KnownBranch(branch.value) then Created(EnquiryStore.CallbackErr(InvalidBranch), s, tb, None)
    else
      var data := Prepared(d, branch.value);
      var ins := EnquiryStore.Create(s, data, env, createFault);
      match ins.0
      case CallbackErr(e) => Created(EnquiryStore.CallbackErr(e), ins.1, tb, None)
      case NoCallback(e) => Created(EnquiryStore.NoCallback(e), ins.1, tb, None)
      case CallbackOk(res) =>
        var created := NewEnquiry(data, res.insertId);
        if d.leadGeneratedDate.Given? && Calendar.ParseDmy(d.leadGeneratedDate.s).Some? then
          var lead := NewLead(d, res.insertId, Calendar.ParseDmy(d.leadGeneratedDate.s).value, branch.value);
          var sch := NurtureService.ScheduleNurtureMessages(lead, Nurture, tb, instanceId, env, canSend, accessToken, reply,
                                                            todayUtc, faults);
          var answer := if sch.result.Resolved? then EnquiryStore.CallbackOk(created)
                        else EnquiryStore.NoCallback(sch.result.error);
          Created(answer, ins.1, sch.table, Some(sch))
        else Created(EnquiryStore.CallbackOk(created), ins.1, tb, None)
  }

  /** No store failure at any step. */
  const NoFaults: nat -> Option<Js.Error> := _ => None

  /** A new enquiry with all its fields gets its four follow-ups, stored
      under its new id. */
  lemma CreatedEnquiryIsNurtured(d: EnquiryStore.Data, b: int, s: EnquiryStore.Store, tb: NurtureStore.Table,
                                 env: string, instanceId: Js.Nullable, canSend: Js.Nullable,
                                 accessToken: Js.Nullable, reply: PingerClient.Reply, todayUtc: Calendar.Date)
    requires b != 0 && d.name.Given? && d.phone.Given?
    requires d.leadGeneratedDate.Given? && Calendar.ParseDmy(d.leadGeneratedDate.s).Some?
    ensures CreateEnquiry(d, Js.Resolved(Some(b)), s, tb, env, None, instanceId, canSend, accessToken, reply, todayUtc,
                          NoFaults).reply
            == EnquiryStore.CallbackOk(NewEnquiry(Prepared(d, Some(b)), s.nextId))
    ensures var rows := CreateEnquiry(d, Js.Resolved(Some(b)), s, tb, env, None, instanceId, canSend, accessToken,
                                      reply, todayUtc, NoFaults).nurture.rows;
      && |rows| == |tb.rows| + 4
      && forall j :: |tb.rows| <= j < |rows| ==> rows[j].enquiryId == Some(s.nextId)
  {
    var c := CreateEnquiry(d, Js.Resolved(Some(b)), s, tb, env, None, instanceId, canSend, accessToken, reply, todayUtc,
                           NoFaults);
    var lead := NewLead(d, s.nextId, Calendar.ParseDmy(d.leadGeneratedDate.s).value, Some(b));
    var sch := NurtureService.ScheduleNurtureMessages(lead, Nurture, tb, instanceId, env, canSend, accessToken, reply,
                                                      todayUtc, NoFaults);
    assert c.scheduled == Some(sch) && c.nurture == sch.table;
    assert NurtureService.Defined(lead);
    NurtureService.LaterStepsOfLead(lead, Nurture.text, tb, sch.table);
  }
}
