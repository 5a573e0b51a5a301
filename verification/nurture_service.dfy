/** `src/services/nurtureScheduleService.js`: the fixed five-step nurture
    sequence, scheduling a new lead's follow-ups, and the daily sweep that
    moves today's follow-ups into the outbound queue and dispatches them. */
module NurtureService {
  import opened Wrappers
  import Js
  import Seqs
  import Calendar
  import Messaging
  import PingerClient
  import NurtureStore
  import QueueStore
  import Tracking
  import BulkDispatch

  /** The five steps of the sequence, in the order they go out. */
  datatype Stage = Welcome | SuccessStory | FitnessTip | Offer | YesOrNo

  /** One step of the sequence: the day it goes out on (day 1 is the sign-up day) and its content. */
  datatype Item = Item(day: nat, stage: Stage)

  /** A step's message text, kept as short pieces laid end to end. */
  function Pieces(st: Stage): seq<string> {
    match st
    case Welcome => [
        "Hey *{Name}* \U{1F44B} \n\nI notic",
        "ed you signed up with *T",
        "he Absolute Fitness*, an",
        "d I wanted to personally",
        " follow up.\n\nWe\U{2019}re ready",
        " to help you *transform ",
        "in just 3 months!* \U{1F4A5}\U{2728} \n\n",
        "All we need is *YOU to g",
        "et started*. \U{1F4AF}\n\nReady fo",
        "r more details? \n\nReach ",
        "out to me anytime \U{1F4AA}\n\n\U{1F525}Le",
        "ts make those fitness go",
        "als happen!"]
    case SuccessStory => [
        "\U{2728} *\U{2728} The Transformation ",
        "Journey of Dharshini \U{2728}* ",
        "\U{2728}\n\nDharshini tried every",
        "thing \U{2013} just walking, on",
        "ly dieting \U{2013} but saw no ",
        "results. \U{1F6D1}\U{274C}\n\nAfter joini",
        "ng *The Absolute Fitness",
        "*, things changed. She s",
        "et a goal: to look fit a",
        "nd feel amazing. \U{1F457}\U{1F483} With",
        " dedication and support ",
        "from our trainers, she i",
        "s on her way! \U{1F4AA}\U{1F525}\n\nFor he",
        "r, gym time is *me time*",
        " \U{2013} an investment in heal",
        "th. \U{1F552}\U{1F496}\n\nIf you are ready",
        " to make a change, come ",
        "join *The Absolute Fitne",
        "ss*! \U{1F680}"]
    case FitnessTip => [
        "Hey! \U{1F4A1} Ready for a quick",
        " fitness tip to kickstar",
        "t your gym routine?\n\n\U{1F449} S",
        "tart your day strong wit",
        "h a black coffee (no sug",
        "ar!) and an apple or ban",
        "ana before your morning ",
        "workout. \U{1F34E}\U{1F34C}\n\n\U{1F4A7} During th",
        "e session, keep it simpl",
        "e \U{2013} lemon and salt will ",
        "keep you hydrated. \U{1F3CB}\U{FE0F}\U{200D}\U{2642}\U{FE0F}",
        "\n\nIf you\U{2019}re hitting the ",
        "gym in the evening, fuel",
        " up with a banana or app",
        "le 30 minutes before. \U{1F34F}\U{1F552}",
        "\n\n\U{1F4A5} Oh, and don\U{2019}t forget",
        " \U{2013} cardio is great, but ",
        "muscle training will get",
        " you real results!\n\nLet\U{2019}",
        "s get those gains! \U{1F4AA}\U{1F525}\n\nN",
        "eed more tips? Just reac",
        "h out! \U{1F4F2}"]
    case Offer => [
        "Worried that half your s",
        "alary will disappear jus",
        "t for 6 months of gym? \U{1F605}",
        " No need to stress!\n\nAt ",
        "The Absolute Fitness, we",
        "\U{2019}ve got your back with a",
        "n easy EMI option. \U{1F4B8}\U{2728}\n\nA",
        "nd here\U{2019}s the best part ",
        "\U{2013} if you complete 6 mont",
        "hs with us, you get the ",
        "next 6 months FREE! \U{1F3CB}\U{FE0F}\U{200D}\U{2642}",
        "\U{FE0F}\U{1F525}\n\nIt\U{2019}s time to invest ",
        "in yourself without brea",
        "king the bank. \U{1F4AA} Ready t",
        "o take the first step? L",
        "et\U{2019}s make this journey a",
        "ffordable and rewarding!",
        " \U{1F680}"]
    case YesOrNo => [
        "Why are you still waitin",
        "g? \U{1F914}\n\nIf you care about ",
        "your health, it\U{2019}s time t",
        "o take action NOW! \U{1F4AF}\n\nWe",
        "\U{2019}re ready to transform y",
        "ou, but the real questio",
        "n is\U{2026} are YOU ready? \U{1F4AA}\n\n",
        "This is a serious commit",
        "ment to yourself. Yes or",
        " No \U{2013} it\U{2019}s that simple. ",
        "\U{2714}\U{FE0F}\U{274C}\n\nIf it\U{2019}s a YES, then",
        " let\U{2019}s make it happen at",
        " The Absolute Fitness! \U{1F3CB}",
        "\U{FE0F}\U{200D}\U{2642}\U{FE0F}\U{2728}\n\nYour transformati",
        "on starts TODAY. \U{1F4A5} Don\U{2019}t",
        " wait any longer!"]
  }

  /** The pieces written one after another. */
  function Join(ps: seq<string>): string {
    if |ps| == 0 then "" else ps[0] + Join(ps[1..])
  }

  /** A step's message text. */
  function Text(st: Stage): string {
    Join(Pieces(st))
  }

  /** A step's video. */
  function Media(st: Stage): string {
    match st
    case Welcome => "https://theabsolutefitness.com/assets/nurture_sequence/1.About.mp4"
    case SuccessStory => "https://theabsolutefitness.com/assets/nurture_sequence/2.Success_Story.mp4"
    case FitnessTip => "https://theabsolutefitness.com/assets/nurture_sequence/3.WOW_Info.mp4"
    case Offer => "https://theabsolutefitness.com/assets/nurture_sequence/4.Offer.mp4"
    case YesOrNo => "https://theabsolutefitness.com/assets/nurture_sequence/5.Yes_or_No.mp4"
  }

  /** The `nurtureSchedule` table. */
  const Sequence: seq<Item> := [
    Item(1, Welcome), Item(3, SuccessStory), Item(5, FitnessTip), Item(7, Offer), Item(9, YesOrNo)
  ]

  /** `items.find(item => item.day === day)`. */
  function Find(items: seq<Item>, day: nat): (r: Option<Item>)
    ensures r.Some? ==> r.value in items && r.value.day == day
    ensures r.None? <==> forall i :: 0 <= i < |items| ==> items[i].day != day
    ensures r.Some? && |items| > 0 && items[0].day == day ==> r.value == items[0]
  {
    if |items| == 0 then None else if items[0].day == day then Some(items[0]) else Find(items[1..], day)
  }

  // ---------------------------------------------------------------- scheduleNurtureMessages

  /** The fields of the enquiry the scheduler reads; `leadGeneratedDate` is the `YYYY-MM-DD` date. */
  datatype Lead = Lead(id: Option<nat>, name: Js.Nullable, phone: Js.Nullable, leadGeneratedDate: Calendar.Date,
                       branchId: Option<int>)

  /** `[id, name, phone, message, date].every(p => p !== undefined && p !== null)`;
      the message and the date are always defined. An empty name or phone still counts. */
  predicate Defined(lead: Lead) {
    lead.id.Some? && lead.name.Given? && lead.phone.Given?
  }

  /** Whether the immediate day-1 send is attempted: `NODE_ENV === 'production'`
      or a non-empty `CAN_SEND_WA_MESSAGE`. */
  predicate MaySendNow(env: string, canSend: Js.Nullable) {
    env == "production" || Js.IsTruthy(canSend)
  }

  function StepDate(lead: Lead, it: Item): (d: Calendar.Date)
    requires Calendar.Valid(lead.leadGeneratedDate)
    ensures Calendar.Valid(d)
    ensures Calendar.DayNumber(d) == Calendar.DayNumber(lead.leadGeneratedDate) + it.day - 1
  {
    Calendar.AddDays(lead.leadGeneratedDate, it.day - 1)
  }

  /** The repository request for one later step. */
  function StepRequest(lead: Lead, it: Item, text: Stage -> string): NurtureStore.Request
    requires Calendar.Valid(lead.leadGeneratedDate)
  {
    NurtureStore.Request(lead.id, lead.name, lead.phone, Js.Given(text(it.stage)), Some(StepDate(lead, it)), Js.Given("high"))
  }

  /** The row one later step stores for a lead whose fields are all defined. */
  function StepRow(lead: Lead, it: Item, text: Stage -> string, id: nat): (r: NurtureStore.Row)
    requires Calendar.Valid(lead.leadGeneratedDate) && Defined(lead)
    ensures r == NurtureStore.Row(id, lead.id, lead.name.s, lead.phone.s, text(it.stage), StepDate(lead, it), "high", "pending")
  {
    NurtureStore.NewRow(StepRequest(lead, it, text), id, lead.leadGeneratedDate)
  }

  /** The rows the later steps store, one per item, with consecutive ids. */
  function StepRows(lead: Lead, items: seq<Item>, text: Stage -> string, firstId: nat): (r: seq<NurtureStore.Row>)
    requires Calendar.Valid(lead.leadGeneratedDate) && Defined(lead)
    ensures |r| == |items|
    decreases |items|
  {
    if |items| == 0 then [] else [StepRow(lead, items[0], text, firstId)] + StepRows(lead, items[1..], text, firstId + 1)
  }

  lemma {:induction false} StepRowsAt(lead: Lead, items: seq<Item>, text: Stage -> string, firstId: nat, j: nat)
    requires Calendar.Valid(lead.leadGeneratedDate) && Defined(lead) && j < |items|
    ensures StepRows(lead, items, text, firstId)[j] == StepRow(lead, items[j], text, firstId + j)
    decreases j
  {
    if j > 0 {
      StepRowsAt(lead, items[1..], text, firstId + 1, j - 1);
    }
  }

  /** Storing one step's row, then the rest, stores all the steps' rows. */
  lemma AppendStep(rows: seq<NurtureStore.Row>, lead: Lead, items: seq<Item>, text: Stage -> string, id: nat)
    requires Calendar.Valid(lead.leadGeneratedDate) && Defined(lead) && |items| > 0
    ensures (rows + [StepRow(lead, items[0], text, id)]) + StepRows(lead, items[1..], text, id + 1)
            == rows + StepRows(lead, items, text, id)
  {
    assert StepRows(lead, items, text, id) == [StepRow(lead, items[0], text, id)] + StepRows(lead, items[1..], text, id + 1);
  }

  /** The `for (const nurtureItem of nurtureSchedule.slice(1))` loop from step
      `k` on; `faults(k)` is the store's answer to the k-th insert. A step
      whose insert rejects ends the whole call. */
  function ScheduleSteps(items: seq<Item>, text: Stage -> string, lead: Lead, tb: NurtureStore.Table, todayUtc: Calendar.Date, env: string,
                         faults: nat -> Option<Js.Error>, k: nat): (st: NurtureStore.Step<()>)
    requires Calendar.Valid(lead.leadGeneratedDate)
    ensures !Defined(lead) ==> st == NurtureStore.Step(Js.Resolved(()), tb)
    ensures st.result.Rejected? ==> env == "development"
    ensures Defined(lead) && (forall j :: k <= j < k + |items| ==> faults(j).None?) ==>
      st == NurtureStore.Step(Js.Resolved(()),
                              NurtureStore.Table(tb.rows + StepRows(lead, items, text, tb.nextId), tb.nextId + |items|))
    decreases |items|
  {
    if |items| == 0 then
      assert tb.rows + [] == tb.rows;
      NurtureStore.Step(Js.Resolved(()), tb)
    else if !Defined(lead) then ScheduleSteps(items[1..], text, lead, tb, todayUtc, env, faults, k + 1)
    else
      var one := NurtureStore.Schedule(tb, StepRequest(lead, items[0], text), todayUtc, env, faults(k));
      if one.result.Rejected? then NurtureStore.Step(one.result, one.table)
      else
        AppendStep(tb.rows, lead, items, text, tb.nextId);
        ScheduleSteps(items[1..], text, lead, one.table, todayUtc, env, faults, k + 1)
  }

  /** `after` holds the rows of `tb` followed by the four later steps of the
      sequence: ids in order, the lead's name and number, the stage text, high
      priority, pending, each dated its day of the sequence counted from the
      lead's date. */
  ghost predicate AddsLaterSteps(lead: Lead, text: Stage -> string, tb: NurtureStore.Table, after: NurtureStore.Table)
    requires Calendar.Valid(lead.leadGeneratedDate) && Defined(lead)
  {
    && |after.rows| == |tb.rows| + 4 && after.rows[..|tb.rows|] == tb.rows
    && var added := after.rows[|tb.rows|..];
       forall j :: 0 <= j < 4 ==>
         var r := added[j];
         && r.id == tb.nextId + j && r.enquiryId == lead.id && r.name == lead.name.s && r.number == lead.phone.s
         && r.message == text(Sequence[j + 1].stage) && r.priority == "high" && r.status == "pending"
         && Calendar.Valid(r.scheduledDate)
         && Calendar.DayNumber(r.scheduledDate) == Calendar.DayNumber(lead.leadGeneratedDate) + Sequence[j + 1].day - 1
  }

  /** The four later steps, stored in order as `StepRows` lays them out. */
  lemma LaterRows(lead: Lead, text: Stage -> string, tb: NurtureStore.Table, after: NurtureStore.Table)
    requires Calendar.Valid(lead.leadGeneratedDate)
    ensures Defined(lead) && after.rows == tb.rows + StepRows(lead, Sequence[1..], text, tb.nextId) ==>
      AddsLaterSteps(lead, text, tb, after)
  {
    if Defined(lead) && after.rows == tb.rows + StepRows(lead, Sequence[1..], text, tb.nextId) {
      var rows := StepRows(lead, Sequence[1..], text, tb.nextId);
      assert after.rows[|tb.rows|..] == rows;
      forall j | 0 <= j < 4
        ensures rows[j] == StepRow(lead, Sequence[j + 1], text, tb.nextId + j)
      {
        StepRowsAt(lead, Sequence[1..], text, tb.nextId, j);
        assert Sequence[1..][j] == Sequence[j + 1];
      }
    }
  }

  /** The immediate day-1 send, the same for every lead; it goes out as media. */
  function ImmediateRequest(lead: Lead, it: Item, text: Stage -> string, media: Stage -> string, instanceId: Js.Nullable)
    : Messaging.Request
  {
    Messaging.Request(lead.name, lead.phone, "media", Js.Given(text(it.stage)), Js.Given(media(it.stage)), instanceId, Js.Undef)
  }

  /** The day-1 send, attempted only when `MaySendNow`; the first step of the sequence is day 1. */
  function SendWelcome(lead: Lead, text: Stage -> string, media: Stage -> string, instanceId: Js.Nullable, env: string, canSend: Js.Nullable,
                       accessToken: Js.Nullable, reply: PingerClient.Reply): (r: Option<Messaging.Sent>)
    ensures r.Some? <==> MaySendNow(env, canSend)
    ensures r.Some? && r.value.payload.Some? ==>
      r.value.payload.value.kind == "media" && instanceId.Given? && r.value.payload.value.instanceId == instanceId.s
    ensures r.Some? && r.value.payload.Some? ==>
      lead.phone.Given? && r.value.payload.value.number == Messaging.NormalizeNumber(lead.phone.s)
      && r.value.payload.value.message == Messaging.Personalize(text(Welcome), lead.name)
  {
    var first := Find(Sequence, 1);
    assert first == Some(Sequence[0]);
    if first.Some? && MaySendNow(env, canSend)
    then Some(Messaging.SendMessage(ImmediateRequest(lead, first.value, text, media, instanceId), accessToken, reply))
    else None
  }

  /** What `scheduleNurtureMessages` did: the day-1 send, if attempted, and the scheduling. */
  datatype Scheduled = Scheduled(immediate: Option<Messaging.Sent>, result: Js.Settled<()>, table: NurtureStore.Table)

  /** The sequence's content: each step's text and video. The service uses
      `Content(Text, Media)`; nothing proved about scheduling depends on the
      words themselves. */
  datatype Content = Content(text: Stage -> string, media: Stage -> string)

  /** `scheduleNurtureMessages(lead)` with the default instance already looked
      up (`getDefaultInstanceId` never rejects), the gateway's reply to the
      day-1 send, and the store's answer to each later step's insert. */
  function ScheduleNurtureMessages(lead: Lead, content: Content, tb: NurtureStore.Table, instanceId: Js.Nullable,
                                   env: string, canSend: Js.Nullable, accessToken: Js.Nullable,
                                   reply: PingerClient.Reply, todayUtc: Calendar.Date,
                                   faults: nat -> Option<Js.Error>): (s: Scheduled)
    requires Calendar.Valid(lead.leadGeneratedDate)
    ensures s.immediate == SendWelcome(lead, content.text, content.media, instanceId, env, canSend, accessToken, reply)
    ensures s.result.Rejected? ==> env == "development"
    ensures !Defined(lead) ==> s.result.Resolved? && s.table == tb
    ensures Defined(lead) && (forall j :: 0 <= j < 4 ==> faults(j).None?) ==>
      s.result.Resolved? && s.table.nextId == tb.nextId + 4 && AddsLaterSteps(lead, content.text, tb, s.table)
  {
    var sent := SendWelcome(lead, content.text, content.media, instanceId, env, canSend, accessToken, reply);
    var st := ScheduleSteps(Sequence[1..], content.text, lead, tb, todayUtc, env, faults, 0);
    LaterRows(lead, content.text, tb, st.table);
    Scheduled(sent, st.result, st.table)
  }

  /** The later steps are four rows, all stored under the lead's enquiry id. */
  lemma LaterStepsOfLead(lead: Lead, text: Stage -> string, tb: NurtureStore.Table, after: NurtureStore.Table)
    requires Calendar.Valid(lead.leadGeneratedDate) && Defined(lead) && AddsLaterSteps(lead, text, tb, after)
    ensures |after.rows| == |tb.rows| + 4
    ensures forall j :: |tb.rows| <= j < |after.rows| ==> after.rows[j].enquiryId == lead.id
  {
    var added := after.rows[|tb.rows|..];
    forall j | |tb.rows| <= j < |after.rows| ensures after.rows[j].enquiryId == lead.id {
      assert added[j - |tb.rows|] == after.rows[j];
    }
  }

  /** The day-1 send never decides what is scheduled: whatever the gate and
      the gateway's reply, the scheduling comes out the same. */
  lemma ImmediateSendNeverBlocks(lead: Lead, content: Content, tb: NurtureStore.Table, instanceId: Js.Nullable,
                                 env: string, canSend1: Js.Nullable, reply1: PingerClient.Reply,
                                 canSend2: Js.Nullable, reply2: PingerClient.Reply,
                                 accessToken: Js.Nullable, todayUtc: Calendar.Date, faults: nat -> Option<Js.Error>)
    requires Calendar.Valid(lead.leadGeneratedDate)
    ensures var a := ScheduleNurtureMessages(lead, content, tb, instanceId, env, canSend1, accessToken, reply1,
                                             todayUtc, faults);
      var b := ScheduleNurtureMessages(lead, content, tb, instanceId, env, canSend2, accessToken, reply2,
                                       todayUtc, faults);
      a.result == b.result && a.table == b.table
  {
  }

  /** A lead generated on 2023-09-01 is followed up on 09-03, 09-05, 09-07 and 09-09. */
  lemma FollowUpDatesExample()
    ensures var lead := Lead(Some(1), Js.Given("A"), Js.Given("9876543210"), Calendar.Date(2023, 9, 1), None);
      && StepDate(lead, Sequence[1]) == Calendar.Date(2023, 9, 3)
      && StepDate(lead, Sequence[2]) == Calendar.Date(2023, 9, 5)
      && StepDate(lead, Sequence[3]) == Calendar.Date(2023, 9, 7)
      && StepDate(lead, Sequence[4]) == Calendar.Date(2023, 9, 9)
  {
    var d := Calendar.Date(2023, 9, 1);
    Calendar.AddDaysWithinMonth(d, 2);
    Calendar.AddDaysWithinMonth(d, 4);
    Calendar.AddDaysWithinMonth(d, 6);
    Calendar.AddDaysWithinMonth(d, 8);
  }

  // ---------------------------------------------------------------- sendScheduledNurtureMessages

  const NoLength := Js.TypeError("Cannot read properties of undefined (reading 'length')")

  /** The queue row built from a due follow-up: no media, pending, high
      priority, and the follow-up's (never stored, so absent) branch. */
  function ToEntry(r: NurtureStore.Row): (e: QueueStore.Entry)
    ensures e.phone == Some(r.number) && e.name == Some(r.name) && e.message == Some(r.message)
    ensures e.mediaUrl.None? && e.filename.None? && e.status == Some("pending") && e.priority == Some("high")
  {
    QueueStore.Entry(Some(r.name), Some(r.number), Some(r.message), None, None, Some("pending"), Some("high"), None)
  }

  function Ids(rows: seq<NurtureStore.Row>): (r: seq<nat>)
    ensures |r| == |rows| && forall i :: 0 <= i < |rows| ==> r[i] == rows[i].id
  {
    if |rows| == 0 then [] else [rows[0].id] + Ids(rows[1..])
  }

  /** `scheduledMessages.forEach(m => markMessageAsSent(m.id))`, none of it
      awaited: each mark lands unless its own update fails, and no failure
      reaches the sweep. */
  function MarkAll(tb: NurtureStore.Table, ids: seq<nat>, env: string, markFault: nat -> Option<Js.Error>)
    : (u: NurtureStore.Table)
    ensures u.nextId == tb.nextId && |u.rows| == |tb.rows|
    ensures forall i :: 0 <= i < |tb.rows| ==>
      u.rows[i] == if tb.rows[i].id in ids && markFault(tb.rows[i].id).None? then tb.rows[i].(status := NurtureStore.Sent)
                   else tb.rows[i]
    decreases |ids|
  {
    if |ids| == 0 then tb
    else
      var one := NurtureStore.MarkAsSent(tb, ids[0], env, markFault(ids[0])).table;
      MarkAll(one, ids[1..], env, markFault)
  }

  /** What the sweep did. */
  datatype Sweep = Sweep(result: Js.Settled<()>, nurture: NurtureStore.Table, queue: QueueStore.Store,
                         tracking: Tracking.Table, dispatched: Option<BulkDispatch.Report>)

  /** `sendScheduledNurtureMessages()` for the local date `today`, as
      written: fetch today's high-priority follow-ups, queue them, run the
      bulk dispatcher, then mark every fetched follow-up sent. The dispatcher
      as written never sends (`BulkDispatch.ProcessBulkMessagesAsWritten`):
      outside development it resolves having done nothing, so the follow-ups
      stay queued and unsent while they are marked sent; in development it
      rejects into the sweep's `catch`, and nothing is marked. */
  function SendScheduled(ns: NurtureStore.Table, q: QueueStore.Store, t: Tracking.Table, today: Calendar.Date,
                         now: int, w: BulkDispatch.World, fetchFault: Option<Js.Error>, insertFault: Option<Js.Error>,
                         snapFault: Option<Js.Error>, markFault: nat -> Option<Js.Error>): (s: Sweep)
    ensures s.result.Rejected? <==> fetchFault.Some?
    ensures s.tracking == t
    ensures s.dispatched.None? ==> s.queue == q
    ensures fetchFault.None? && |NurtureStore.DueRows(ns.rows, today, Js.Given("high"))| == 0 ==>
      s == Sweep(Js.Resolved(()), ns, q, t, None)
    ensures insertFault.Some? || w.env == "development" ==> s.nurture == ns
    ensures fetchFault.None? && insertFault.None? ==>
      var due := NurtureStore.DueRows(ns.rows, today, Js.Given("high"));
      && s.queue.rows == q.rows + QueueStore.NewRows(Seqs.Map(due, ToEntry), q.nextId, now)
      && (forall i :: |q.rows| <= i < |s.queue.rows| ==> QueueStore.IsPending(s.queue.rows[i]))
      && (w.env != "development" ==> s.nurture == MarkAll(ns, Ids(due), w.env, markFault))
  {
    var got := NurtureStore.GetScheduled(ns, today, Js.Given("high"), w.env, fetchFault);
    if got.Rejected? then Sweep(Js.Rejected(got.error), ns, q, t, None)
    else if got.value.None? then Sweep(Js.Rejected(NoLength), ns, q, t, None)
    else
      var rows := got.value.value;
      assert fetchFault.None? && rows == NurtureStore.DueRows(ns.rows, today, Js.Given("high"));
      if |rows| == 0 then Sweep(Js.Resolved(()), ns, q, t, None)
      else
        var ins := QueueStore.Insert(q, Seqs.Map(rows, ToEntry), now, insertFault);
        if ins.result.Rejected? then Sweep(Js.Resolved(()), ns, q, t, None)
        else
          var rep := BulkDispatch.ProcessBulkMessagesAsWritten(t, ins.store, w, snapFault);
          if rep.result.Rejected? then Sweep(Js.Resolved(()), ns, rep.queue, rep.table, Some(rep))
          else Sweep(Js.Resolved(()), MarkAll(ns, Ids(rows), w.env, markFault), rep.queue, rep.table, Some(rep))
  }

  /** Outside development every due follow-up whose mark lands ends up
      `sent` although no message went out: its queue row is still pending
      and no sender's count moved. */
  lemma {:induction false} MarkedSentButStillQueued(ns: NurtureStore.Table, q: QueueStore.Store, t: Tracking.Table,
                                                    today: Calendar.Date, now: int, w: BulkDispatch.World,
                                                    snapFault: Option<Js.Error>, markFault: nat -> Option<Js.Error>,
                                                    k: nat)
    requires w.env != "development"
    requires k < |NurtureStore.DueRows(ns.rows, today, Js.Given("high"))|
    requires markFault(NurtureStore.DueRows(ns.rows, today, Js.Given("high"))[k].id).None?
    ensures var s := SendScheduled(ns, q, t, today, now, w, None, None, snapFault, markFault);
      var due := NurtureStore.DueRows(ns.rows, today, Js.Given("high"));
      && s.tracking == t
      && s.queue.rows[|q.rows| + k].phone == Some(due[k].number)
      && s.queue.rows[|q.rows| + k].message == Some(due[k].message)
      && QueueStore.IsPending(s.queue.rows[|q.rows| + k])
      && exists i :: 0 <= i < |ns.rows| && ns.rows[i] == due[k] && s.nurture.rows[i].status == NurtureStore.Sent
  {
    var s := SendScheduled(ns, q, t, today, now, w, None, None, snapFault, markFault);
    var due := NurtureStore.DueRows(ns.rows, today, Js.Given("high"));
    var entries := Seqs.Map(due, ToEntry);
    assert s.queue.rows[|q.rows| + k] == QueueStore.NewRows(entries, q.nextId, now)[k];
    assert entries[k] == ToEntry(due[k]);
    assert due[k] in due;
    var i :| 0 <= i < |ns.rows| && ns.rows[i] == due[k];
    assert Ids(due)[k] == due[k].id;
    assert ns.rows[i].id in Ids(due);
  }

  /** The sweep as evidently intended, over the corrected dispatcher
      (`BulkDispatch.ProcessBulkMessages` with the sender that has room
      first): the queued follow-ups are really dispatched before they are
      marked. */
  function SendScheduledCorrected(ns: NurtureStore.Table, q: QueueStore.Store, t: Tracking.Table, today: Calendar.Date,
                         now: int, w: BulkDispatch.World, fetchFault: Option<Js.Error>, insertFault: Option<Js.Error>,
                         snapFault: Option<Js.Error>, pendFault: Option<Js.Error>, summaryReply: PingerClient.Reply,
                         markFault: nat -> Option<Js.Error>): (s: Sweep)
    ensures s.result.Rejected? <==> fetchFault.Some?
    ensures s.dispatched.None? ==> s.queue == q && s.tracking == t
    ensures s.dispatched.Some? ==>
      && fetchFault.None? && insertFault.None?
      && s.queue == s.dispatched.value.queue && s.tracking == s.dispatched.value.table
    ensures fetchFault.None? && |NurtureStore.DueRows(ns.rows, today, Js.Given("high"))| == 0 ==>
      s == Sweep(Js.Resolved(()), ns, q, t, None)
    ensures insertFault.Some? ==> s.nurture == ns && s.queue == q && s.tracking == t && s.dispatched.None?
    ensures fetchFault.None? && insertFault.None? && w.env != "development" ==>
      s.nurture == MarkAll(ns, Ids(NurtureStore.DueRows(ns.rows, today, Js.Given("high"))), w.env, markFault)
  {
    var got := NurtureStore.GetScheduled(ns, today, Js.Given("high"), w.env, fetchFault);
    if got.Rejected? then Sweep(Js.Rejected(got.error), ns, q, t, None)
    else if got.value.None? then Sweep(Js.Rejected(NoLength), ns, q, t, None)
    else
      var rows := got.value.value;
      assert fetchFault.None? && rows == NurtureStore.DueRows(ns.rows, today, Js.Given("high"));
      if |rows| == 0 then Sweep(Js.Resolved(()), ns, q, t, None)
      else
        var ins := QueueStore.Insert(q, Seqs.Map(rows, ToEntry), now, insertFault);
        if ins.result.Rejected? then Sweep(Js.Resolved(()), ns, q, t, None)
        else
          var rep := BulkDispatch.ProcessBulkMessages(BulkDispatch.SkipExhaustedFirst, t, ins.store, w, snapFault,
                                                      pendFault, summaryReply);
          if rep.result.Rejected? then Sweep(Js.Resolved(()), ns, rep.queue, rep.table, Some(rep))
          else Sweep(Js.Resolved(()), MarkAll(ns, Ids(rows), w.env, markFault), rep.queue, rep.table, Some(rep))
  }
}
