/** `src/services/bulkMessageService.js`: draining the queue through the
    available sender numbers. `processMessageQueue` is a fold over the fetched
    messages with a cursor into the sender snapshot; the gateway's replies and
    the store failures are oracles indexed by the message's position. */
module BulkDispatch {
  import opened Wrappers
  import Js
  import Text
  import Calendar
  import PingerClient
  import Messaging
  import Tracking
  import QueueStore
  import ResponseHelpers

  /** Texts the source logs, throws or returns, as it writes them. */
  const ReadPropertiesOf := "Cannot read properties of "
  const ReadingIncludes := " (reading 'includes')"
  const SentLabel := " - Messages sent: "

  /** What the run consults outside the process. */
  datatype World = World(env: string, today: Calendar.Date, accessToken: Js.Nullable, attempts: nat -> Attempt)

  /** What the outside world does with the attempt to send one message: the
      gateway's reply, and whether the tracking write and the queue delete fail. */
  datatype Attempt = Attempt(reply: PingerClient.Reply, trackFault: Option<Js.Error>, deleteFault: Option<Js.Error>)

  /** One entry of `messageCounts`: a sender phone and the messages it delivered. */
  datatype Tally = Tally(phone: string, sent: nat)

  /** The loop's state: the sender index, the snapshot's (mutated) counts, the
      tally, how many messages it has tried to send, the ids it deleted, and
      the two tables. */
  datatype Cursor = Cursor(idx: nat, counts: seq<nat>, tally: seq<Tally>, processed: nat,
                           deleted: seq<nat>, table: Tracking.Table, queue: QueueStore.Store)

  /** Why the loop stopped: every message visited, the senders ran out (`break`),
      or something threw. */
  datatype Halt = Walked | SendersExhausted | Aborted(error: Js.Error)

  datatype Next = Continue(c: Cursor) | Stop(halt: Halt, c: Cursor)

  datatype Outcome = Outcome(halt: Halt, cursor: Cursor)

  /** Which sender a message goes through: the code as written, which reads
      the sender before advancing past an exhausted one, or the corrected walk
      that skips exhausted senders before reading. */
  datatype Policy = ReadThenAdvance | SkipExhaustedFirst

  // ---------------------------------------------------------------- the tally

  /** `messageCounts[phone]`, with 0 for a phone not yet present. */
  function TallyOf(t: seq<Tally>, phone: string): nat {
    if |t| == 0 then 0 else if t[0].phone == phone then t[0].sent else TallyOf(t[1..], phone)
  }

  /** `messageCounts[phone] = (messageCounts[phone] || 0) + 1`, new keys at the end. */
  function Bump(t: seq<Tally>, phone: string): (u: seq<Tally>)
    ensures forall q :: TallyOf(u, q) == TallyOf(t, q) + (if q == phone then 1 else 0)
    ensures |u| == |t| || u == t + [Tally(phone, 1)]
  {
    if |t| == 0 then [Tally(phone, 1)]
    else if t[0].phone == phone then [Tally(phone, t[0].sent + 1)] + t[1..]
    else [t[0]] + Bump(t[1..], phone)
  }

  function TallyTotal(t: seq<Tally>): nat {
    if |t| == 0 then 0 else t[0].sent + TallyTotal(t[1..])
  }

  function Keys(t: seq<Tally>): (r: seq<string>)
    ensures |r| == |t| && forall i :: 0 <= i < |t| ==> r[i] == t[i].phone
  {
    if |t| == 0 then [] else [t[0].phone] + Keys(t[1..])
  }

  // ---------------------------------------------------------------- one message

  const SendFailed := "Message sending failed. Skipping to the next message."

  /** Destructuring `availableNumbers[0]` of an empty snapshot. */
  const NoSender := Js.TypeError("Cannot destructure property 'phone_number' of 'availableNumbers[currentNumberIndex]' as it is undefined.")

  /** `result.includes(...)` on a result that is not a string. */
  function NoIncludes(v: Js.Nullable): Js.Error {
    Js.TypeError(ReadPropertiesOf + Js.Render(v) + ReadingIncludes)
  }

  /** `media_url ? 'media' : 'text'`. */
  function KindOf(m: QueueStore.Row): string {
    if Js.Present(m.mediaUrl) then "media" else "text"
  }

  /** The `sendMessage` argument for a queued message sent through sender `s`. */
  function RequestFor(m: QueueStore.Row, s: Tracking.Sender): (rq: Messaging.Request)
    ensures rq.kind == KindOf(m)
  {
    Messaging.Request(Js.FromColumn(m.name), Js.FromColumn(m.phone), KindOf(m), Js.FromColumn(m.message),
                      Js.FromColumn(m.mediaUrl), Js.FromColumn(s.instanceId), Js.FromColumn(m.filename))
  }

  /** The dispatcher's success test on the result of sending `m` with reply `r`. */
  predicate Accepted(m: QueueStore.Row, r: PingerClient.Reply) {
    var res := PingerClient.Classify(KindOf(m), r);
    res.Given? && Text.Contains(res.s, PingerClient.Marker)
  }

  /** Move on to the next sender once `count` has reached `limit`, and stop
      when there is none (`break`). */
  function Advance(c: Cursor, count: nat, limit: nat): (n: Next)
    requires c.idx < |c.counts|
    ensures n.c == c || (n.c == c.(idx := c.idx + 1) && count >= limit)
    ensures n.Stop? ==> n.halt == SendersExhausted
    ensures n.Continue? ==> n.c.idx < |c.counts| && (n.c.idx == c.idx ==> count < limit)
  {
    if count >= limit then
      if c.idx + 1 >= |c.counts| then Stop(SendersExhausted, c.(idx := c.idx + 1))
      else Continue(c.(idx := c.idx + 1))
    else Continue(c)
  }

  /** After a send the test accepted: bump the count at the cursor and the
      tally of the sender used, write the count, delete the message, and move
      on when the count has reached `limit`. */
  function Record(m: QueueStore.Row, w: World, c: Cursor, s: Tracking.Sender, limit: nat, a: Attempt): (n: Next)
    requires c.idx < |c.counts|
    ensures |n.c.counts| == |c.counts| && n.c.processed == c.processed
    ensures n.Stop? ==> !n.halt.Walked?
    ensures !(n.Stop? && n.halt.Aborted?) ==>
      && n.c.deleted == c.deleted + [m.id] && n.c.tally == Bump(c.tally, s.phone)
      && a.deleteFault.None? && n.c.queue == QueueStore.Delete(c.queue, m.id, None).store
    ensures n.c.counts == c.counts[c.idx := c.counts[c.idx] + 1] && n.c.tally == Bump(c.tally, s.phone)
    ensures a.trackFault.None? ==> n.c.table == Tracking.SetCount(c.table, s.phone, c.counts[c.idx] + 1, w.today)
    ensures n.c.idx == c.idx || (n.c.idx == c.idx + 1 && c.counts[c.idx] + 1 >= limit)
    ensures n.Continue? ==> n.c.idx < |c.counts| && (n.c.idx == c.idx ==> c.counts[c.idx] + 1 < limit)
  {
    var count := c.counts[c.idx] + 1;
    var up := Tracking.UpdateTracking(c.table, s.phone, count, w.today, w.env, a.trackFault);
    var c1 := c.(counts := c.counts[c.idx := count], tally := Bump(c.tally, s.phone), table := up.table);
    if up.result.Rejected? then Stop(Aborted(up.result.error), c1)
    else Settle(m.id, c1, a.deleteFault, count, limit)
  }

  /** The tail of `Record` once the count is written: delete message `id`,
      then move on when `count` has reached `limit`. Only the queue, the
      deleted ids and the index change. */
  function Settle(id: nat, c: Cursor, fault: Option<Js.Error>, count: nat, limit: nat): (n: Next)
    requires c.idx < |c.counts|
    ensures n.c == c.(idx := n.c.idx, queue := n.c.queue, deleted := n.c.deleted)
    ensures n.Stop? ==> !n.halt.Walked?
    ensures !(n.Stop? && n.halt.Aborted?) ==>
      n.c.deleted == c.deleted + [id] && fault.None? && n.c.queue == QueueStore.Delete(c.queue, id, None).store
    ensures n.c.idx == c.idx || (n.c.idx == c.idx + 1 && count >= limit)
    ensures n.Continue? ==> n.c.idx < |c.counts| && (n.c.idx == c.idx ==> count < limit)
  {
    var del := QueueStore.Delete(c.queue, id, fault);
    if del.result.Rejected? then Stop(Aborted(del.result.error), c.(queue := del.store))
    else Advance(c.(queue := del.store, deleted := c.deleted + [id]), count, limit)
  }

  /** How the send of a message through a sender came out, as the loop reads it. */
  datatype Verdict = Threw(error: Js.Error) | Taken | Refused

  /** Send `m` through sender `s`: a rejection (the guard), a result that is
      not a string, or a string the marker test accepts or refuses. */
  function Judge(m: QueueStore.Row, s: Tracking.Sender, w: World, a: Attempt): (v: Verdict)
    ensures v.Taken? ==> Accepted(m, a.reply)
    ensures v.Refused? ==> !Accepted(m, a.reply)
    ensures Messaging.HasRequired(RequestFor(m, s)) ==> (v.Taken? <==> Accepted(m, a.reply))
  {
    var sent := Messaging.SendMessage(RequestFor(m, s), w.accessToken, a.reply).result;
    SendReads(m, s, w, a);
    if sent.Rejected? then Threw(sent.error)
    else if !sent.value.Given? then Threw(NoIncludes(sent.value))
    else if Text.Contains(sent.value.s, PingerClient.Marker) then Taken
    else Refused
  }

  /** Act on the verdict for message number `c.processed`: record an accepted
      send, report a refused one through `handleError`, stop on a throw. */
  function SendWith(m: QueueStore.Row, w: World, c: Cursor, s: Tracking.Sender, a: Attempt,
                    v: Verdict): (n: Next)
    requires c.idx < |c.counts|
    ensures |n.c.counts| == |c.counts| && n.c.processed == c.processed + 1
    ensures n.Stop? ==> !n.halt.Walked?
    ensures v.Refused? && !(n.Stop? && n.halt.Aborted?) ==> n == Continue(c.(processed := c.processed + 1))
    ensures v.Taken? ==> n == Record(m, w, c.(processed := c.processed + 1), s, s.dailyLimit, a)
    ensures !v.Taken? ==> n.c == c.(processed := c.processed + 1)
  {
    var c0 := c.(processed := c.processed + 1);
    match v
    case Threw(e) => Stop(Aborted(e), c0)
    case Taken => Record(m, w, c0, s, s.dailyLimit, a)
    case Refused =>
      var r := ResponseHelpers.Await(w.env, ResponseHelpers.Default(SendFailed, None));
      if r.Rejected? then Stop(Aborted(r.error), c0) else Continue(c0)
  }

  /** The first sender at or after `i` with headroom left, or `|snap|`. */
  function SkipExhausted(snap: seq<Tracking.Sender>, counts: seq<nat>, i: nat): (j: nat)
    requires |counts| == |snap| && i <= |snap|
    ensures i <= j <= |snap|
    ensures j < |snap| ==> counts[j] < snap[j].dailyLimit
    ensures forall x :: i <= x < j ==> counts[x] >= snap[x].dailyLimit
    decreases |snap| - i
  {
    if i == |snap| || counts[i] < snap[i].dailyLimit then i else SkipExhausted(snap, counts, i + 1)
  }

  /** The sender an iteration sends through (and the cursor it sends with),
      or the reason it stops before sending. */
  datatype Pick = Use(c: Cursor, s: Tracking.Sender) | Quit(halt: Halt, c: Cursor)

  /** The head of the loop body: destructure `availableNumbers[currentNumberIndex]`
      and handle a sender already at its cap. */
  function Choose(policy: Policy, snap: seq<Tracking.Sender>, c: Cursor): (p: Pick)
    requires |c.counts| == |snap|
    ensures p.c.counts == c.counts && p.c.processed == c.processed && c.idx <= p.c.idx
    ensures p.Use? ==> p.c.idx < |snap|
    ensures p.Quit? ==> !p.halt.Walked? && p.c == c.(idx := p.c.idx)
    ensures p.Use? && policy.SkipExhaustedFirst? ==>
      p.s == snap[p.c.idx] && p.c.counts[p.c.idx] < p.s.dailyLimit
    ensures p.Use? && policy.ReadThenAdvance? ==> c.idx < |snap| && p.s == snap[c.idx]
    ensures p.Use? ==> p.c == c.(idx := p.c.idx)
  {
    if c.idx >= |snap| then Quit(Aborted(NoSender), c)
    else match policy
      case ReadThenAdvance =>
        var s := snap[c.idx];
        if c.counts[c.idx] >= s.dailyLimit then
          if c.idx + 1 >= |snap| then Quit(SendersExhausted, c.(idx := c.idx + 1))
          else Use(c.(idx := c.idx + 1), s)
        else Use(c, s)
      case SkipExhaustedFirst =>
        var j := SkipExhausted(snap, c.counts, c.idx);
        if j >= |snap| then Quit(SendersExhausted, c.(idx := j))
        else Use(c.(idx := j), snap[j])
  }

  /** One iteration of the `for (const messageEntry of messages)` body. */
  function Step(policy: Policy, snap: seq<Tracking.Sender>, m: QueueStore.Row, w: World, c: Cursor): (n: Next)
    requires |c.counts| == |snap|
    ensures |n.c.counts| == |snap|
    ensures n.Continue? ==> n.c.processed == c.processed + 1
    ensures n.c.processed <= c.processed + 1
    ensures n.Stop? ==> !n.halt.Walked?
  {
    var p := Choose(policy, snap, c);
    if p.Quit? then Stop(p.halt, p.c)
    else
      var a := w.attempts(c.processed);
      SendWith(m, w, p.c, p.s, a, Judge(m, p.s, w, a))
  }

  /** The loop from message `c.processed` on. */
  function Run(policy: Policy, snap: seq<Tracking.Sender>, msgs: seq<QueueStore.Row>, w: World, c: Cursor): (o: Outcome)
    requires |c.counts| == |snap| && c.processed <= |msgs|
    ensures |o.cursor.counts| == |snap| && c.processed <= o.cursor.processed <= |msgs|
    ensures o.halt == Walked ==> o.cursor.processed == |msgs|
    decreases |msgs| - c.processed
  {
    if c.processed == |msgs| then Outcome(Walked, c)
    else
      var n := Step(policy, snap, msgs[c.processed], w, c);
      if n.Continue? then Run(policy, snap, msgs, w, n.c) else Outcome(n.halt, n.c)
  }

  function CountsOf(snap: seq<Tracking.Sender>): (r: seq<nat>)
    ensures |r| == |snap| && forall i :: 0 <= i < |snap| ==> r[i] == snap[i].messageCount
  {
    if |snap| == 0 then [] else [snap[0].messageCount] + CountsOf(snap[1..])
  }

  function Start(snap: seq<Tracking.Sender>, t: Tracking.Table, q: QueueStore.Store): Cursor {
    Cursor(0, CountsOf(snap), [], 0, [], t, q)
  }

  // ---------------------------------------------------------------- the summary

  const Header := "*Summary of Queued Message Sent*\n"

  function Lines(keys: seq<string>, t: seq<Tally>): string {
    if |keys| == 0 then ""
    else keys[0] + SentLabel + Text.NatToString(TallyOf(t, keys[0])) + "\n" + Lines(keys[1..], t)
  }

  /** The summary text: the header, then one line per tally key in `Object.keys` order. */
  function Summary(t: seq<Tally>): (r: string)
    ensures Text.OccursAt(r, Header, 0)
    ensures r == Header <==> |t| == 0
  {
    var keys := Js.OwnKeyOrder(Keys(t));
    assert |keys| == |multiset(keys)| == |multiset(Keys(t))|;
    Header + Lines(keys, t)
  }

  /** What `processMessageQueue(messages, availableNumbers)` settles to, with the walk behind it. */
  datatype Drained = Drained(result: Js.Settled<string>, outcome: Outcome)

  function ProcessMessageQueue(policy: Policy, snap: seq<Tracking.Sender>, msgs: seq<QueueStore.Row>, w: World,
                               t: Tracking.Table, q: QueueStore.Store): (d: Drained)
    ensures d.outcome.cursor.processed <= |msgs|
    ensures d.result.Rejected? <==> d.outcome.halt.Aborted?
    ensures d.result.Rejected? ==> d.result.error == d.outcome.halt.error
    ensures d.result.Resolved? ==> Text.OccursAt(d.result.value, Header, 0)
    ensures d.outcome.halt.Walked? ==> d.outcome.cursor.processed == |msgs|
  {
    var o := Run(policy, snap, msgs, w, Start(snap, t, q));
    var result := if o.halt.Aborted? then Js.Rejected(o.halt.error) else Js.Resolved(Summary(o.cursor.tally));
    Drained(result, o)
  }

  // ---------------------------------------------------------------- the ledger

  /** The ids, in order, of those among the first `n` messages whose send result the dispatcher accepts. */
  function AcceptedIds(msgs: seq<QueueStore.Row>, attempts: nat -> Attempt, n: nat): seq<nat>
    requires n <= |msgs|
  {
    if n == 0 then []
    else AcceptedIds(msgs, attempts, n - 1) + (if Accepted(msgs[n - 1], attempts(n - 1).reply) then [msgs[n - 1].id] else [])
  }

  ghost predicate DistinctKeys(t: seq<Tally>) {
    forall i, j :: 0 <= i < j < |t| ==> t[i].phone != t[j].phone
  }

  /** The books a cursor keeps: the tally counts one per deletion, with one
      entry per phone and none at zero, and the queue has lost exactly the
      deleted ids. */
  ghost predicate Books(q0: QueueStore.Store, c: Cursor) {
    && TallyTotal(c.tally) == |c.deleted|
    && DistinctKeys(c.tally)
    && (forall i :: 0 <= i < |c.tally| ==> c.tally[i].sent >= 1)
    && (forall x :: x in c.queue.rows <==> x in q0.rows && x.id !in c.deleted)
  }

  /** What a run that has not thrown has done so far: besides keeping its
      books, it deleted exactly the accepted messages among those it sent. */
  ghost predicate Ledger(msgs: seq<QueueStore.Row>, w: World, q0: QueueStore.Store, c: Cursor) {
    && c.processed <= |msgs|
    && c.deleted == AcceptedIds(msgs, w.attempts, c.processed)
    && Books(q0, c)
  }

  lemma {:induction false} BumpTotal(t: seq<Tally>, phone: string)
    ensures TallyTotal(Bump(t, phone)) == TallyTotal(t) + 1
    decreases |t|
  {
    if |t| > 0 && t[0].phone != phone {
      BumpTotal(t[1..], phone);
      assert Bump(t, phone)[1..] == Bump(t[1..], phone);
    } else if |t| > 0 {
      assert Bump(t, phone)[1..] == t[1..];
    }
  }

  /** With distinct keys, the first key does not recur, and the rest keep distinct keys. */
  lemma DistinctTail(t: seq<Tally>)
    requires |t| > 0 && DistinctKeys(t)
    ensures DistinctKeys(t[1..]) && t[0].phone !in Keys(t[1..])
  {
    var ks := Keys(t[1..]);
    forall m | 0 <= m < |ks| ensures ks[m] != t[0].phone {
      assert ks[m] == t[m + 1].phone;
    }
    forall i, j | 0 <= i < j < |t[1..]| ensures t[1..][i].phone != t[1..][j].phone {
      assert t[1..][i] == t[i + 1] && t[1..][j] == t[j + 1];
    }
  }

  /** Bumping adds no key but `phone`. */
  lemma {:induction false} BumpKeys(t: seq<Tally>, phone: string)
    ensures forall i :: 0 <= i < |Bump(t, phone)| ==> Bump(t, phone)[i].phone in Keys(t) + [phone]
    decreases |t|
  {
    var u := Bump(t, phone);
    if |t| > 0 && t[0].phone != phone {
      var v := Bump(t[1..], phone);
      BumpKeys(t[1..], phone);
      assert u == [t[0]] + v;
      forall j | 1 <= j < |u| ensures u[j].phone in Keys(t) + [phone] {
        assert u[j] == v[j - 1];
        assert Keys(t) == [t[0].phone] + Keys(t[1..]);
      }
    }
  }

  /** Bumping leaves no entry at zero. */
  lemma {:induction false} BumpPositive(t: seq<Tally>, phone: string)
    requires forall i :: 0 <= i < |t| ==> t[i].sent >= 1
    ensures forall i :: 0 <= i < |Bump(t, phone)| ==> Bump(t, phone)[i].sent >= 1
    decreases |t|
  {
    if |t| > 0 && t[0].phone != phone {
      BumpPositive(t[1..], phone);
      assert Bump(t, phone) == [t[0]] + Bump(t[1..], phone);
    }
  }

  /** Putting a new key in front of distinct keys keeps them distinct. */
  lemma DistinctCons(x: Tally, v: seq<Tally>)
    requires DistinctKeys(v) && forall j :: 0 <= j < |v| ==> v[j].phone != x.phone
    ensures DistinctKeys([x] + v)
  {
    var u := [x] + v;
    forall i, j | 0 <= i < j < |u| ensures u[i].phone != u[j].phone {
      assert u[j] == v[j - 1];
      if i > 0 {
        assert u[i] == v[i - 1];
      }
    }
  }

  /** Bumping keeps one entry per phone. */
  lemma {:induction false} BumpDistinct(t: seq<Tally>, phone: string)
    requires DistinctKeys(t)
    ensures DistinctKeys(Bump(t, phone))
    decreases |t|
  {
    if |t| == 0 {
      assert Bump(t, phone) == [Tally(phone, 1)];
    } else if t[0].phone == phone {
      var u := Bump(t, phone);
      assert u == [Tally(phone, t[0].sent + 1)] + t[1..];
      assert forall i :: 0 <= i < |u| ==> u[i].phone == t[i].phone;
    } else {
      var v := Bump(t[1..], phone);
      DistinctTail(t);
      BumpDistinct(t[1..], phone);
      BumpKeys(t[1..], phone);
      assert Bump(t, phone) == [t[0]] + v;
      DistinctCons(t[0], v);
    }
  }

  /** What one send through `s` resolves to, as the loop reads it. */
  lemma SendReads(m: QueueStore.Row, s: Tracking.Sender, w: World, a: Attempt)
    ensures var sent := Messaging.SendMessage(RequestFor(m, s), w.accessToken, a.reply).result;
      sent.Resolved? ==> sent.value == PingerClient.Classify(KindOf(m), a.reply)
  {
  }

  /** One more deletion, tallied against `phone`, keeps the books. */
  lemma BumpKeepsBooks(q0: QueueStore.Store, c: Cursor, d: Cursor, phone: string, id: nat)
    requires Books(q0, c)
    requires d.deleted == c.deleted + [id] && d.tally == Bump(c.tally, phone)
    requires d.queue == QueueStore.Delete(c.queue, id, None).store
    ensures Books(q0, d)
  {
    BumpTotal(c.tally, phone);
    BumpDistinct(c.tally, phone);
    BumpPositive(c.tally, phone);
  }

  /** Recording an accepted send deletes that message and keeps the books. */
  lemma RecordKeepsBooks(m: QueueStore.Row, w: World, c: Cursor, s: Tracking.Sender, limit: nat,
                         a: Attempt, q0: QueueStore.Store)
    requires c.idx < |c.counts| && Books(q0, c)
    ensures var n := Record(m, w, c, s, limit, a);
      !(n.Stop? && n.halt.Aborted?) ==> n.c.deleted == c.deleted + [m.id] && Books(q0, n.c)
  {
    var n := Record(m, w, c, s, limit, a);
    if !(n.Stop? && n.halt.Aborted?) {
      BumpKeepsBooks(q0, c, n.c, s.phone, m.id);
    }
  }

  /** The ids accepted among one more message. */
  lemma AcceptedIdsStep(msgs: seq<QueueStore.Row>, attempts: nat -> Attempt, k: nat)
    requires k < |msgs|
    ensures Accepted(msgs[k], attempts(k).reply) ==>
      AcceptedIds(msgs, attempts, k + 1) == AcceptedIds(msgs, attempts, k) + [msgs[k].id]
    ensures !Accepted(msgs[k], attempts(k).reply) ==> AcceptedIds(msgs, attempts, k + 1) == AcceptedIds(msgs, attempts, k)
  {
    assert msgs[(k + 1) - 1] == msgs[k];
  }

  lemma SendKeepsLedger(msgs: seq<QueueStore.Row>, w: World, q0: QueueStore.Store, c: Cursor,
                        s: Tracking.Sender, v: Verdict)
    requires c.idx < |c.counts| && c.processed < |msgs| && Ledger(msgs, w, q0, c)
    requires v.Taken? ==> Accepted(msgs[c.processed], w.attempts(c.processed).reply)
    requires v.Refused? ==> !Accepted(msgs[c.processed], w.attempts(c.processed).reply)
    ensures var n := SendWith(msgs[c.processed], w, c, s, w.attempts(c.processed), v);
      !(n.Stop? && n.halt.Aborted?) ==> Ledger(msgs, w, q0, n.c)
  {
    AcceptedIdsStep(msgs, w.attempts, c.processed);
    if v.Taken? {
      RecordKeepsBooks(msgs[c.processed], w, c.(processed := c.processed + 1), s, s.dailyLimit,
                       w.attempts(c.processed), q0);
    }
  }

  lemma StepKeepsLedger(policy: Policy, snap: seq<Tracking.Sender>, msgs: seq<QueueStore.Row>, w: World,
                        q0: QueueStore.Store, c: Cursor)
    requires |c.counts| == |snap| && c.processed < |msgs| && Ledger(msgs, w, q0, c)
    ensures var n := Step(policy, snap, msgs[c.processed], w, c);
      !(n.Stop? && n.halt.Aborted?) ==> Ledger(msgs, w, q0, n.c)
  {
    var p := Choose(policy, snap, c);
    if p.Use? {
      var a := w.attempts(c.processed);
      SendKeepsLedger(msgs, w, q0, p.c, p.s, Judge(msgs[c.processed], p.s, w, a));
    }
  }

  lemma {:induction false} RunKeepsLedger(policy: Policy, snap: seq<Tracking.Sender>, msgs: seq<QueueStore.Row>,
                                          w: World, q0: QueueStore.Store, c: Cursor)
    requires |c.counts| == |snap| && Ledger(msgs, w, q0, c)
    ensures var o := Run(policy, snap, msgs, w, c); !o.halt.Aborted? ==> Ledger(msgs, w, q0, o.cursor)
    decreases |msgs| - c.processed
  {
    if c.processed < |msgs| {
      var n := Step(policy, snap, msgs[c.processed], w, c);
      StepKeepsLedger(policy, snap, msgs, w, q0, c);
      if n.Continue? {
        RunKeepsLedger(policy, snap, msgs, w, q0, n.c);
      }
    }
  }

  /** Under either policy, a run that does not throw deletes a queued message
      exactly when the dispatcher accepted its send result, removes nothing
      else from the queue, and tallies one message per deletion. */
  lemma DeleteIffAccepted(policy: Policy, snap: seq<Tracking.Sender>, msgs: seq<QueueStore.Row>, w: World,
                          t: Tracking.Table, q: QueueStore.Store)
    ensures var o := Run(policy, snap, msgs, w, Start(snap, t, q));
      !o.halt.Aborted? ==>
        && o.cursor.deleted == AcceptedIds(msgs, w.attempts, o.cursor.processed)
        && (forall x :: x in o.cursor.queue.rows <==> x in q.rows && x.id !in o.cursor.deleted)
        && TallyTotal(o.cursor.tally) == |o.cursor.deleted|
        && DistinctKeys(o.cursor.tally)
  {
    RunKeepsLedger(policy, snap, msgs, w, q, Start(snap, t, q));
  }

  // ---------------------------------------------------------------- caps

  ghost predicate DistinctPhones(snap: seq<Tracking.Sender>) {
    forall i, j :: 0 <= i < j < |snap| ==> snap[i].phone != snap[j].phone
  }

  /** No sender starts above its cap (what every snapshot guarantees). */
  ghost predicate Headroom(snap: seq<Tracking.Sender>) {
    forall i :: 0 <= i < |snap| ==> snap[i].messageCount <= snap[i].dailyLimit
  }

  /** Every sender's running count is its starting count plus the messages
      tallied against its phone, and never above its cap. */
  ghost predicate Caps(snap: seq<Tracking.Sender>, c: Cursor) {
    && |c.counts| == |snap|
    && forall i :: 0 <= i < |snap| ==>
         c.counts[i] == snap[i].messageCount + TallyOf(c.tally, snap[i].phone) && c.counts[i] <= snap[i].dailyLimit
  }

  /** One more send through the sender at the cursor, below its cap, keeps the caps. */
  lemma BumpKeepsCaps(snap: seq<Tracking.Sender>, c: Cursor, d: Cursor)
    requires Caps(snap, c) && DistinctPhones(snap) && c.idx < |snap| && c.counts[c.idx] < snap[c.idx].dailyLimit
    requires d.counts == c.counts[c.idx := c.counts[c.idx] + 1] && d.tally == Bump(c.tally, snap[c.idx].phone)
    ensures Caps(snap, d)
  {
    forall i | 0 <= i < |snap|
      ensures d.counts[i] == snap[i].messageCount + TallyOf(d.tally, snap[i].phone) && d.counts[i] <= snap[i].dailyLimit
    {
      if i != c.idx {
        assert snap[i].phone != snap[c.idx].phone;
      }
    }
  }

  lemma RecordKeepsCaps(snap: seq<Tracking.Sender>, m: QueueStore.Row, w: World, c: Cursor, a: Attempt)
    requires Caps(snap, c) && DistinctPhones(snap) && c.idx < |snap| && c.counts[c.idx] < snap[c.idx].dailyLimit
    ensures Caps(snap, Record(m, w, c, snap[c.idx], snap[c.idx].dailyLimit, a).c)
  {
    BumpKeepsCaps(snap, c, Record(m, w, c, snap[c.idx], snap[c.idx].dailyLimit, a).c);
  }

  lemma SendKeepsCaps(snap: seq<Tracking.Sender>, m: QueueStore.Row, w: World, c: Cursor, a: Attempt, v: Verdict)
    requires Caps(snap, c) && DistinctPhones(snap) && c.idx < |snap| && c.counts[c.idx] < snap[c.idx].dailyLimit
    ensures Caps(snap, SendWith(m, w, c, snap[c.idx], a, v).c)
  {
    if v.Taken? {
      RecordKeepsCaps(snap, m, w, c.(processed := c.processed + 1), a);
    }
  }

  lemma StepKeepsCaps(snap: seq<Tracking.Sender>, m: QueueStore.Row, w: World, c: Cursor)
    requires Caps(snap, c) && DistinctPhones(snap)
    ensures Caps(snap, Step(SkipExhaustedFirst, snap, m, w, c).c)
  {
    var p := Choose(SkipExhaustedFirst, snap, c);
    if p.Use? {
      var a := w.attempts(c.processed);
      SendKeepsCaps(snap, m, w, p.c, a, Judge(m, p.s, w, a));
    }
  }

  lemma {:induction false} RunKeepsCaps(snap: seq<Tracking.Sender>, msgs: seq<QueueStore.Row>, w: World, c: Cursor)
    requires Caps(snap, c) && DistinctPhones(snap) && c.processed <= |msgs|
    ensures Caps(snap, Run(SkipExhaustedFirst, snap, msgs, w, c).cursor)
    decreases |msgs| - c.processed
  {
    if c.processed < |msgs| {
      var n := Step(SkipExhaustedFirst, snap, msgs[c.processed], w, c);
      StepKeepsCaps(snap, msgs[c.processed], w, c);
      if n.Continue? {
        RunKeepsCaps(snap, msgs, w, n.c);
      }
    }
  }

  /** With senders that start within their caps and distinct phones, the
      corrected walk never sends more through a sender than its remaining
      headroom, however the run ends. */
  lemma SkipFirstRespectsCaps(snap: seq<Tracking.Sender>, msgs: seq<QueueStore.Row>, w: World,
                              t: Tracking.Table, q: QueueStore.Store)
    requires Headroom(snap) && DistinctPhones(snap)
    ensures var o := Run(SkipExhaustedFirst, snap, msgs, w, Start(snap, t, q));
      forall i :: 0 <= i < |snap| ==>
        TallyOf(o.cursor.tally, snap[i].phone) <= snap[i].dailyLimit - snap[i].messageCount
  {
    RunKeepsCaps(snap, msgs, w, Start(snap, t, q));
  }

  // ---------------------------------------------------------------- the two walks

  /** Every sender starts strictly below its cap. */
  ghost predicate Clean(snap: seq<Tracking.Sender>) {
    forall i :: 0 <= i < |snap| ==> snap[i].messageCount < snap[i].dailyLimit
  }

  /** The cursor's sender has headroom and the senders after it are untouched. */
  ghost predicate Fresh(snap: seq<Tracking.Sender>, c: Cursor) {
    && |c.counts| == |snap|
    && (c.idx < |snap| ==> c.counts[c.idx] < snap[c.idx].dailyLimit)
    && forall j :: c.idx < j < |snap| ==> c.counts[j] == snap[j].messageCount
  }

  lemma ChoicesAgree(snap: seq<Tracking.Sender>, c: Cursor)
    requires Fresh(snap, c)
    ensures Choose(ReadThenAdvance, snap, c) == Choose(SkipExhaustedFirst, snap, c)
  {
    if c.idx < |snap| {
      assert SkipExhausted(snap, c.counts, c.idx) == c.idx;
      assert c.(idx := c.idx) == c;
    }
  }

  /** An accepted send through the cursor's sender keeps the cursor fresh when the loop goes on. */
  lemma TakenKeepsFresh(snap: seq<Tracking.Sender>, m: QueueStore.Row, w: World, c: Cursor, a: Attempt)
    requires Clean(snap) && Fresh(snap, c) && c.idx < |snap|
    ensures var n := Record(m, w, c, snap[c.idx], snap[c.idx].dailyLimit, a); n.Continue? ==> Fresh(snap, n.c)
  {
  }

  lemma SendKeepsFresh(snap: seq<Tracking.Sender>, m: QueueStore.Row, w: World, c: Cursor, a: Attempt, v: Verdict)
    requires Clean(snap) && Fresh(snap, c) && c.idx < |snap|
    ensures var n := SendWith(m, w, c, snap[c.idx], a, v); n.Continue? ==> Fresh(snap, n.c)
  {
    if v.Taken? {
      TakenKeepsFresh(snap, m, w, c.(processed := c.processed + 1), a);
    }
  }

  lemma StepsAgree(snap: seq<Tracking.Sender>, m: QueueStore.Row, w: World, c: Cursor)
    requires Clean(snap) && Fresh(snap, c)
    ensures Step(ReadThenAdvance, snap, m, w, c) == Step(SkipExhaustedFirst, snap, m, w, c)
    ensures var n := Step(SkipExhaustedFirst, snap, m, w, c); n.Continue? ==> Fresh(snap, n.c)
  {
    ChoicesAgree(snap, c);
    var p := Choose(SkipExhaustedFirst, snap, c);
    if p.Use? {
      var a := w.attempts(c.processed);
      SendKeepsFresh(snap, m, w, p.c, a, Judge(m, p.s, w, a));
    }
  }

  lemma {:induction false} RunsAgree(snap: seq<Tracking.Sender>, msgs: seq<QueueStore.Row>, w: World, c: Cursor)
    requires Clean(snap) && Fresh(snap, c) && c.processed <= |msgs|
    ensures Run(ReadThenAdvance, snap, msgs, w, c) == Run(SkipExhaustedFirst, snap, msgs, w, c)
    decreases |msgs| - c.processed
  {
    if c.processed < |msgs| {
      StepsAgree(snap, msgs[c.processed], w, c);
      var n := Step(SkipExhaustedFirst, snap, msgs[c.processed], w, c);
      if n.Continue? {
        RunsAgree(snap, msgs, w, n.c);
      }
    }
  }

  /** When every sender starts below its cap, the code as written walks the
      senders exactly as the corrected loop does, and so respects every cap. */
  lemma ReadThenAdvanceRespectsCapsWhenClean(snap: seq<Tracking.Sender>, msgs: seq<QueueStore.Row>, w: World,
                                             t: Tracking.Table, q: QueueStore.Store)
    requires Clean(snap) && DistinctPhones(snap)
    ensures Run(ReadThenAdvance, snap, msgs, w, Start(snap, t, q)) == Run(SkipExhaustedFirst, snap, msgs, w, Start(snap, t, q))
    ensures var o := Run(ReadThenAdvance, snap, msgs, w, Start(snap, t, q));
      forall i :: 0 <= i < |snap| ==>
        TallyOf(o.cursor.tally, snap[i].phone) <= snap[i].dailyLimit - snap[i].messageCount
  {
    RunsAgree(snap, msgs, w, Start(snap, t, q));
    SkipFirstRespectsCaps(snap, msgs, w, t, q);
  }

  /** The snapshot of the counterexample: a stale sender whose cap is 0 (the
      snapshot keeps it, reading its count as 0) ahead of one with room for one. */
  function ZeroCapFirst(a: string, ia: string, b: string, ib: string): seq<Tracking.Sender> {
    [Tracking.Sender(a, Some(ia), 0, 0, None), Tracking.Sender(b, Some(ib), 0, 1, None)]
  }

  /** As written, the loop reads the zero-cap sender, advances past it, and
      still sends the message through it: that sender's tally and tracking
      count become 1, above its cap of 0, while the sender with room is never
      used. */
  lemma ReadThenAdvanceOverrunsZeroCap(a: string, ia: string, b: string, ib: string, m: QueueStore.Row, w: World,
                                       t: Tracking.Table, q: QueueStore.Store)
    requires a != b && ia != ""
    requires Js.Present(m.phone) && Js.Present(m.message)
    requires Accepted(m, w.attempts(0).reply) && w.attempts(0).trackFault.None? && w.attempts(0).deleteFault.None?
    ensures var snap := ZeroCapFirst(a, ia, b, ib);
      var o := Run(ReadThenAdvance, snap, [m], w, Start(snap, t, q));
      && TallyOf(o.cursor.tally, a) == 1 > snap[0].dailyLimit - snap[0].messageCount
      && TallyOf(o.cursor.tally, b) == 0
      && |o.cursor.table| == |t|
      && forall i :: 0 <= i < |t| && t[i].phone == a ==> o.cursor.table[i].messageCount == 1
  {
    var snap := ZeroCapFirst(a, ia, b, ib);
    var c := Start(snap, t, q);
    assert c.counts == [0, 0];
    assert Choose(ReadThenAdvance, snap, c) == Use(c.(idx := 1), snap[0]);
    assert Messaging.HasRequired(RequestFor(m, snap[0]));
    assert Judge(m, snap[0], w, w.attempts(0)).Taken?;
    RunOfOne(ReadThenAdvance, snap, m, w, c);
  }

  /** A run over one message ends where its one step leaves the cursor. */
  lemma RunOfOne(policy: Policy, snap: seq<Tracking.Sender>, m: QueueStore.Row, w: World, c: Cursor)
    requires |c.counts| == |snap| && c.processed == 0
    ensures Run(policy, snap, [m], w, c).cursor == Step(policy, snap, m, w, c).c
  {
    var n := Step(policy, snap, m, w, c);
    if n.Continue? {
      assert Run(policy, snap, [m], w, n.c) == Outcome(Walked, n.c);
    }
  }

  /** On the same snapshot, the corrected walk skips the zero-cap sender and
      sends through the one with room. */
  lemma SkipFirstUsesSenderWithRoom(a: string, ia: string, b: string, ib: string, m: QueueStore.Row, w: World,
                                    t: Tracking.Table, q: QueueStore.Store)
    requires a != b && ib != ""
    requires Js.Present(m.phone) && Js.Present(m.message)
    requires Accepted(m, w.attempts(0).reply) && w.attempts(0).trackFault.None? && w.attempts(0).deleteFault.None?
    ensures var snap := ZeroCapFirst(a, ia, b, ib);
      var o := Run(SkipExhaustedFirst, snap, [m], w, Start(snap, t, q));
      TallyOf(o.cursor.tally, a) == 0 && TallyOf(o.cursor.tally, b) == 1
  {
    var snap := ZeroCapFirst(a, ia, b, ib);
    var c := Start(snap, t, q);
    assert c.counts == [0, 0];
    assert SkipExhausted(snap, c.counts, 0) == 1;
    assert Choose(SkipExhaustedFirst, snap, c) == Use(c.(idx := 1), snap[1]);
    assert Messaging.HasRequired(RequestFor(m, snap[1]));
    assert Judge(m, snap[1], w, w.attempts(0)).Taken?;
  }

  // ---------------------------------------------------------------- the summary adds up

  /** The counts the summary lines report for `keys`, added up. */
  function Reported(keys: seq<string>, t: seq<Tally>): nat {
    if |keys| == 0 then 0 else TallyOf(t, keys[0]) + Reported(keys[1..], t)
  }

  lemma {:induction false} ReportedConcat(a: seq<string>, b: seq<string>, t: seq<Tally>)
    ensures Reported(a + b, t) == Reported(a, t) + Reported(b, t)
    decreases |a|
  {
    if |a| > 0 {
      assert (a + b)[0] == a[0] && (a + b)[1..] == a[1..] + b;
      ReportedConcat(a[1..], b, t);
    } else {
      assert a + b == b;
    }
  }

  /** Removing one element from a sequence removes one occurrence from its multiset. */
  lemma MultisetRemove(b: seq<string>, j: nat)
    requires j < |b|
    ensures multiset(b[..j] + b[j + 1..]) == multiset(b) - multiset{b[j]}
  {
    assert b == b[..j] + [b[j]] + b[j + 1..];
    assert multiset(b) == multiset(b[..j]) + multiset{b[j]} + multiset(b[j + 1..]);
  }

  /** The count reported for one key, then for the others. */
  lemma ReportedRemove(b: seq<string>, j: nat, t: seq<Tally>)
    requires j < |b|
    ensures Reported(b, t) == TallyOf(t, b[j]) + Reported(b[..j] + b[j + 1..], t)
  {
    assert b == b[..j] + ([b[j]] + b[j + 1..]);
    ReportedConcat(b[..j], [b[j]] + b[j + 1..], t);
    ReportedConcat(b[..j], b[j + 1..], t);
    assert ([b[j]] + b[j + 1..])[1..] == b[j + 1..];
  }

  /** The reported total does not depend on the order the keys are listed in. */
  lemma {:induction false} ReportedPermutation(a: seq<string>, b: seq<string>, t: seq<Tally>)
    requires multiset(a) == multiset(b)
    ensures Reported(a, t) == Reported(b, t)
    decreases |a|
  {
    if |a| == 0 {
      assert |b| == |multiset(b)| == 0;
    } else {
      var x := a[0];
      assert x in multiset(b);
      var j :| 0 <= j < |b| && b[j] == x;
      var rest := b[..j] + b[j + 1..];
      assert multiset(a[1..]) == multiset(a) - multiset{x} by {
        MultisetRemove(a, 0);
        assert a[..0] + a[1..] == a[1..];
      }
      assert multiset(rest) == multiset(b) - multiset{x} by {
        MultisetRemove(b, j);
      }
      ReportedRemove(b, j, t);
      ReportedPermutation(a[1..], rest, t);
    }
  }

  lemma {:induction false} ReportedSkipsOtherKey(keys: seq<string>, t: seq<Tally>)
    requires |t| > 0 && forall i :: 0 <= i < |keys| ==> keys[i] != t[0].phone
    ensures Reported(keys, t) == Reported(keys, t[1..])
    decreases |keys|
  {
    if |keys| > 0 {
      ReportedSkipsOtherKey(keys[1..], t);
    }
  }

  /** With one entry per phone, the counts listed per key add up to the whole tally. */
  lemma {:induction false} ReportedOwnKeys(t: seq<Tally>)
    requires DistinctKeys(t)
    ensures Reported(Keys(t), t) == TallyTotal(t)
    decreases |t|
  {
    if |t| > 0 {
      var ks := Keys(t[1..]);
      assert Keys(t) == [t[0].phone] + ks;
      assert forall i :: 0 <= i < |ks| ==> ks[i] == t[i + 1].phone;
      ReportedSkipsOtherKey(ks, t);
      assert DistinctKeys(t[1..]) by {
        forall i, j | 0 <= i < j < |t[1..]| ensures t[1..][i].phone != t[1..][j].phone {
          assert t[1..][i] == t[i + 1] && t[1..][j] == t[j + 1];
        }
      }
      ReportedOwnKeys(t[1..]);
    }
  }

  /** The per-number counts in the summary add up to the number of queued
      messages the run deleted. */
  lemma SummaryCountsDeletions(policy: Policy, snap: seq<Tracking.Sender>, msgs: seq<QueueStore.Row>, w: World,
                               t: Tracking.Table, q: QueueStore.Store)
    ensures var o := Run(policy, snap, msgs, w, Start(snap, t, q));
      !o.halt.Aborted? ==> Reported(Js.OwnKeyOrder(Keys(o.cursor.tally)), o.cursor.tally) == |o.cursor.deleted|
  {
    var o := Run(policy, snap, msgs, w, Start(snap, t, q));
    DeleteIffAccepted(policy, snap, msgs, w, t, q);
    if !o.halt.Aborted? {
      var tl := o.cursor.tally;
      ReportedPermutation(Js.OwnKeyOrder(Keys(tl)), Keys(tl), tl);
      ReportedOwnKeys(tl);
    }
  }

  // ---------------------------------------------------------------- processBulkMessages

  const AllAtLimit := "All WhatsApp numbers have reached their daily limit"
  const NoMessages := "No messages found to process."
  const CatchMessage := "Error in bulk message processing:"
  const ReportNumber := "8089947074"
  const NoLength := Js.TypeError("Cannot read properties of null (reading 'length')")
  const NoFetch := Js.TypeError("whatsappQueueService.getPendingMessages is not a function")

  /** `totalAvailableMessages`: the headroom left across the snapshot. */
  function Capacity(snap: seq<Tracking.Sender>): (r: int)
    ensures Headroom(snap) ==> r >= 0
  {
    if |snap| == 0 then 0
    else
      assert Headroom(snap) ==> Headroom(snap[1..]) by {
        if Headroom(snap) {
          forall i | 0 <= i < |snap[1..]| ensures snap[1..][i].messageCount <= snap[1..][i].dailyLimit {
            assert snap[1..][i] == snap[i + 1];
          }
        }
      }
      (snap[0].dailyLimit - snap[0].messageCount) + Capacity(snap[1..])
  }

  lemma SnapshotsHaveHeadroom(t: Tracking.Table, today: Calendar.Date)
    ensures Headroom(Tracking.Snapshot(t, today))
  {
    forall i | 0 <= i < |Tracking.Snapshot(t, today)|
      ensures Tracking.Snapshot(t, today)[i].messageCount <= Tracking.Snapshot(t, today)[i].dailyLimit
    {
      Tracking.SnapshotHeadroom(t, today, i);
    }
  }

  /** The `catch` of `processBulkMessages`: rethrown in development only. */
  function Catch(env: string, e: Js.Error): (r: Js.Settled<()>)
    ensures r.Rejected? <==> env == "development"
    ensures r.Rejected? ==> r.error == e
  {
    ResponseHelpers.Recover(env, CatchMessage, e, ())
  }

  /** What one run of `processBulkMessages` leaves behind: how it settled, the
      tracking table and queue, the batch it fetched, the walk over that batch
      and the summary send, when each got that far. */
  datatype Report = Report(result: Js.Settled<()>, table: Tracking.Table, queue: QueueStore.Store,
                           batch: seq<QueueStore.Row>, outcome: Option<Outcome>, summary: Option<Messaging.Sent>)

  function Stopped(env: string, e: Js.Error, t: Tracking.Table, q: QueueStore.Store): (r: Report)
    ensures r.table == t && r.queue == q && r.outcome.None? && r.summary.None?
    ensures r.result.Rejected? <==> env == "development"
  {
    Report(Catch(env, e), t, q, [], None, None)
  }

  /** The request that carries the summary to the report number through the first sender. */
  function SummaryRequest(snap: seq<Tracking.Sender>, summary: string): (rq: Messaging.Request)
    requires |snap| > 0
    ensures rq.kind == "text" && rq.name == Js.Undef
    ensures Messaging.HasRequired(rq) <==> summary != "" && snap[0].instanceId.Some? && snap[0].instanceId.value != ""
  {
    Messaging.TextRequest(Js.Given(ReportNumber), Js.Given(summary), Js.FromColumn(snap[0].instanceId))
  }

  /** Step 3 and the summary: walk the batch, then report through the first sender. */
  function Finish(policy: Policy, snap: seq<Tracking.Sender>, msgs: seq<QueueStore.Row>, w: World,
                  t: Tracking.Table, q: QueueStore.Store, summaryReply: PingerClient.Reply): (r: Report)
    ensures r.result.Rejected? ==> w.env == "development"
    ensures r.batch == msgs && r.outcome == Some(Run(policy, snap, msgs, w, Start(snap, t, q)))
    ensures r.table == r.outcome.value.cursor.table && r.queue == r.outcome.value.cursor.queue
    ensures r.summary.Some? <==> |snap| > 0 && !r.outcome.value.halt.Aborted?
    ensures r.summary.Some? && r.summary.value.payload.Some? ==>
      var p := r.summary.value.payload.value;
      p.number == "91" + ReportNumber && p.kind == "text" && p.message == Summary(r.outcome.value.cursor.tally)
  {
    var d := ProcessMessageQueue(policy, snap, msgs, w, t, q);
    var o := d.outcome;
    if d.result.Rejected? then
      Report(Catch(w.env, d.result.error), o.cursor.table, o.cursor.queue, msgs, Some(o), None)
    else if |snap| == 0 then
      Report(Js.Resolved(()), o.cursor.table, o.cursor.queue, msgs, Some(o), None)
    else
      var sent := Messaging.SendMessage(SummaryRequest(snap, d.result.value), w.accessToken, summaryReply);
      var result := if sent.result.Rejected? then Catch(w.env, sent.result.error) else Js.Resolved(());
      Report(result, o.cursor.table, o.cursor.queue, msgs, Some(o), Some(sent))
  }

  /** Steps 1 to 2 once the snapshot is in hand: the empty-snapshot notice,
      the fetch of the oldest pending messages up to the capacity, and the
      empty-batch notice. */
  function Dispatch(policy: Policy, snap: seq<Tracking.Sender>, w: World, t: Tracking.Table, q: QueueStore.Store,
                    fetchFault: Option<Js.Error>, summaryReply: PingerClient.Reply): (r: Report)
    requires Headroom(snap)
    ensures r.result.Rejected? ==> w.env == "development"
    ensures r.outcome.None? ==> r.table == t && r.queue == q && r.summary.None?
    ensures r.outcome.Some? ==>
      && fetchFault.None?
      && QueueStore.OldestPendingSpec(q.rows, Capacity(snap), r.batch)
      && r.outcome.value == Run(policy, snap, r.batch, w, Start(snap, t, q))
      && r.table == r.outcome.value.cursor.table && r.queue == r.outcome.value.cursor.queue
    ensures |snap| == 0 && w.env == "development" ==> r == Stopped(w.env, Js.PlainError(AllAtLimit), t, q)
    ensures fetchFault.Some? ==> r.outcome.None?
    ensures r.summary.Some? && r.summary.value.payload.Some? ==>
      r.outcome.Some? && r.summary.value.payload.value.message == Summary(r.outcome.value.cursor.tally)
  {
    var limited := if |snap| == 0 then ResponseHelpers.Await(w.env, ResponseHelpers.Default(AllAtLimit, None))
                   else Js.Resolved(());
    if limited.Rejected? then Stopped(w.env, limited.error, t, q)
    else
      var fetched := QueueStore.GetPending(q, Capacity(snap) as nat, fetchFault);
      if fetched.Rejected? then Stopped(w.env, fetched.error, t, q)
      else
        var msgs := fetched.value;
        var none := if |msgs| == 0 then ResponseHelpers.Await(w.env, ResponseHelpers.Default(NoMessages, None))
                    else Js.Resolved(());
        if none.Rejected? then Stopped(w.env, none.error, t, q)
        else Finish(policy, snap, msgs, w, t, q, summaryReply)
  }

  /** `processBulkMessages()`, with the queue fetched through the repository's
      `getPendingMessages` and the sender walk chosen by `policy`. Outside
      development it never rejects; the queue only loses the messages the run
      accepted, and the summary goes to the report number. */
  function ProcessBulkMessages(policy: Policy, t: Tracking.Table, q: QueueStore.Store, w: World,
                               snapFault: Option<Js.Error>, fetchFault: Option<Js.Error>,
                               summaryReply: PingerClient.Reply): (r: Report)
    ensures r.result.Rejected? ==> w.env == "development"
    ensures snapFault.Some? ==> r.table == t && r.queue == q && r.outcome.None? && r.summary.None?
    ensures snapFault.Some? ==> (r.result.Rejected? <==> w.env == "development")
    ensures r.outcome.Some? ==>
      && snapFault.None? && fetchFault.None?
      && QueueStore.OldestPendingSpec(q.rows, Capacity(Tracking.Snapshot(t, w.today)), r.batch)
      && r.outcome.value == Run(policy, Tracking.Snapshot(t, w.today), r.batch, w, Start(Tracking.Snapshot(t, w.today), t, q))
      && r.table == r.outcome.value.cursor.table && r.queue == r.outcome.value.cursor.queue
    ensures r.outcome.None? ==> r.table == t && r.queue == q && r.summary.None?
    ensures r.summary.Some? && r.summary.value.payload.Some? ==>
      r.outcome.Some? && r.summary.value.payload.value.message == Summary(r.outcome.value.cursor.tally)
  {
    var avail := Tracking.GetAvailableNumbers(t, w.today, w.env, snapFault);
    if avail.Rejected? then Stopped(w.env, avail.error, t, q)
    else if avail.value.None? then Stopped(w.env, NoLength, t, q)
    else
      SnapshotsHaveHeadroom(t, w.today);
      Dispatch(policy, avail.value.value, w, t, q, fetchFault, summaryReply)
  }

  /** After a run that did not throw, the queue has lost exactly the fetched
      messages the dispatcher accepted, and the summary's counts add up to
      them. */
  lemma ProcessBulkDeletesAccepted(policy: Policy, t: Tracking.Table, q: QueueStore.Store, w: World,
                                   snapFault: Option<Js.Error>, fetchFault: Option<Js.Error>,
                                   summaryReply: PingerClient.Reply)
    ensures var r := ProcessBulkMessages(policy, t, q, w, snapFault, fetchFault, summaryReply);
      r.outcome.Some? && !r.outcome.value.halt.Aborted? ==>
        var c := r.outcome.value.cursor;
        && c.deleted == AcceptedIds(r.batch, w.attempts, c.processed)
        && (forall x :: x in r.queue.rows <==> x in q.rows && x.id !in c.deleted)
        && Reported(Js.OwnKeyOrder(Keys(c.tally)), c.tally) == |c.deleted|
  {
    var r := ProcessBulkMessages(policy, t, q, w, snapFault, fetchFault, summaryReply);
    if r.outcome.Some? {
      var snap := Tracking.Snapshot(t, w.today);
      DeleteIffAccepted(policy, snap, r.batch, w, t, q);
      SummaryCountsDeletions(policy, snap, r.batch, w, t, q);
    }
  }

  /** `processBulkMessages()` as written: `whatsappQueueService` has no
      `getPendingMessages`, so every run that gets past the snapshot throws a
      `TypeError` into the `catch`, and no message is ever sent, tracked or
      dequeued. */
  function ProcessBulkMessagesAsWritten(t: Tracking.Table, q: QueueStore.Store, w: World, snapFault: Option<Js.Error>)
    : (r: Report)
    ensures r.table == t && r.queue == q && r.outcome.None? && r.summary.None?
    ensures r.result.Rejected? <==> w.env == "development"
    ensures snapFault.None? && w.env == "development" && |Tracking.Snapshot(t, w.today)| > 0 ==>
      r.result == Js.Rejected(NoFetch)
  {
    var avail := Tracking.GetAvailableNumbers(t, w.today, w.env, snapFault);
    if avail.Rejected? then Stopped(w.env, avail.error, t, q)
    else if avail.value.None? then Stopped(w.env, NoLength, t, q)
    else
      var snap := avail.value.value;
      var limited := if |snap| == 0 then ResponseHelpers.Await(w.env, ResponseHelpers.Default(AllAtLimit, None))
                     else Js.Resolved(());
      if limited.Rejected? then Stopped(w.env, limited.error, t, q)
      else Stopped(w.env, NoFetch, t, q)
  }
}
