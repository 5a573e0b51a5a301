/** `src/services/whatsappQueueService.js`: turning an audience into queue
    rows, and the thin wrappers over the queue store. Client contacts come
    from `clientService.getClientContacts()`, passed in as its outcome. */
module QueueService {
  import opened Wrappers
  import Js
  import ResponseHelpers
  import EnquiryStore
  import QueueStore

  /** Texts the source logs, throws or returns, as it writes them. */
  const NoQuery := "db.query is not a function"

  /** Anyone who can be sent a message: enquiries and clients alike. */
  datatype Contact = Contact(name: Option<string>, phone: Option<string>)

  const InvalidAudience := "Invalid audience type. Choose EnquiryOnly, ClientsOnly, or Both."
  const Created := "Message queue entries created successfully."

  /** The tables the operation touches. */
  datatype Tables = Tables(enquiries: EnquiryStore.Store, queue: QueueStore.Store)

  datatype Step = Step(result: Js.Settled<Option<string>>, queue: QueueStore.Store)

  /** `clientService.getClientContacts()` as written: it calls `db.query`, which
      `src/config/db.js` does not export, so the call always rejects. */
  function ClientContactsAsWritten(): (r: Js.Settled<seq<Contact>>)
    ensures r.Rejected? && r.error.name == "TypeError"
  {
    Js.Rejected(Js.TypeError(NoQuery))
  }

  function FromEnquiries(cs: seq<EnquiryStore.Contact>): (r: seq<Contact>)
    ensures |r| == |cs|
    ensures forall i :: 0 <= i < |cs| ==> r[i] == Contact(cs[i].name, cs[i].phone)
  {
    if |cs| == 0 then [] else [Contact(cs[0].name, cs[0].phone)] + FromEnquiries(cs[1..])
  }

  /** The contacts an audience type names, in order; `None` for an unknown type. */
  function Audience(kind: string, enquiries: Js.Settled<seq<EnquiryStore.Contact>>,
                    clients: Js.Settled<seq<Contact>>): (r: Option<Js.Settled<seq<Contact>>>)
    ensures r.None? <==> kind !in {"EnquiryOnly", "ClientsOnly", "Both"}
    ensures kind == "EnquiryOnly" ==> r == Some(if enquiries.Rejected? then Js.Rejected(enquiries.error)
                                               else Js.Resolved(FromEnquiries(enquiries.value)))
    ensures kind == "ClientsOnly" ==> r == Some(clients)
    ensures kind == "Both" && enquiries.Rejected? ==> r == Some(Js.Rejected(enquiries.error))
    ensures kind == "Both" && enquiries.Resolved? && clients.Rejected? ==> r == Some(Js.Rejected(clients.error))
    ensures kind == "Both" && enquiries.Resolved? && clients.Resolved? ==>
      r == Some(Js.Resolved(FromEnquiries(enquiries.value) + clients.value))
  {
    if kind == "EnquiryOnly" then
      Some(if enquiries.Rejected? then Js.Rejected(enquiries.error) else Js.Resolved(FromEnquiries(enquiries.value)))
    else if kind == "ClientsOnly" then Some(clients)
    else if kind == "Both" then
      if enquiries.Rejected? then Some(Js.Rejected(enquiries.error))
      else if clients.Rejected? then Some(Js.Rejected(clients.error))
      else Some(Js.Resolved(FromEnquiries(enquiries.value) + clients.value))
    else None
  }

  function ToEntry(c: Contact, message: Option<string>, mediaUrl: Option<string>): QueueStore.Entry {
    QueueStore.Entry(c.name, c.phone, message, mediaUrl, None, Some("pending"), None, None)
  }

  /** One queue entry per contact, in order. */
  function Entries(cs: seq<Contact>, message: Option<string>, mediaUrl: Option<string>): (r: seq<QueueStore.Entry>)
    ensures |r| == |cs|
    ensures forall i :: 0 <= i < |cs| ==>
      r[i].name == cs[i].name && r[i].phone == cs[i].phone && r[i].message == message
      && r[i].mediaUrl == mediaUrl && r[i].filename.None? && r[i].status == Some("pending")
  {
    if |cs| == 0 then [] else [ToEntry(cs[0], message, mediaUrl)] + Entries(cs[1..], message, mediaUrl)
  }

  /** `insertQueueEntries(entries)`: an empty list never reaches the store. */
  function InsertEntries(q: QueueStore.Store, entries: seq<QueueStore.Entry>, now: int, fault: Option<Js.Error>)
    : (st: QueueStore.Step<()>)
    ensures |entries| == 0 ==> st == QueueStore.Step(Js.Resolved(()), q)
    ensures |entries| > 0 ==> st == QueueStore.Insert(q, entries, now, fault)
  {
    if |entries| == 0 then QueueStore.Step(Js.Resolved(()), q) else QueueStore.Insert(q, entries, now, fault)
  }

  /** The service's guard repeats the store's own: the two agree on every input. */
  lemma GuardIsRedundant(q: QueueStore.Store, entries: seq<QueueStore.Entry>, now: int, fault: Option<Js.Error>)
    ensures InsertEntries(q, entries, now, fault) == QueueStore.Insert(q, entries, now, fault)
  {
  }

  /** `createQueueEntries(message, mediaUrl, audienceType)`. The enquiry read
      is made only for `EnquiryOnly` and `Both`, the client read only for
      `ClientsOnly` and `Both`; both outcomes are passed in. */
  function CreateQueueEntries(enquiries: EnquiryStore.Store, enquiryFault: Option<Js.Error>,
                              clients: Js.Settled<seq<Contact>>, q: QueueStore.Store,
                              message: Option<string>, mediaUrl: Option<string>, kind: string,
                              env: string, now: int, insertFault: Option<Js.Error>): (st: Step)
    ensures Audience(kind, EnquiryStore.GetNameAndContacts(enquiries, enquiryFault), clients).None? ==>
      st.queue == q
      && (st.result.Rejected? <==> env == "development")
      && (st.result.Rejected? ==> st.result.error == Js.PlainError(InvalidAudience))
      && (st.result.Resolved? ==> st.result.value.None?)
    ensures st.result.Resolved? && st.result.value.Some? ==> st.result.value.value == Created
    ensures |q.rows| <= |st.queue.rows| && st.queue.rows[..|q.rows|] == q.rows
  {
    var aud := Audience(kind, EnquiryStore.GetNameAndContacts(enquiries, enquiryFault), clients);
    if aud.None? then
      var r := ResponseHelpers.Await(env, ResponseHelpers.Default(InvalidAudience, None));
      if r.Rejected? then Step(Js.Rejected(r.error), q) else Step(Js.Resolved(None), q)
    else if aud.value.Rejected? then Step(Js.Rejected(aud.value.error), q)
    else
      var ins := InsertEntries(q, Entries(aud.value.value, message, mediaUrl), now, insertFault);
      if ins.result.Rejected? then Step(Js.Rejected(ins.result.error), ins.store)
      else Step(Js.Resolved(Some(Created)), ins.store)
  }

  /** A valid audience that reads cleanly adds exactly one pending row per
      contact, in audience order, and reports success even when it is empty. */
  lemma ValidAudienceQueuesEveryContact(enquiries: EnquiryStore.Store, clients: seq<Contact>, q: QueueStore.Store,
                                        message: Option<string>, mediaUrl: Option<string>, kind: string,
                                        env: string, now: int)
    requires kind in {"EnquiryOnly", "ClientsOnly", "Both"}
    ensures var cs := Audience(kind, Js.Resolved(EnquiryStore.ContactsOf(enquiries.rows)), Js.Resolved(clients)).value.value;
            var st := CreateQueueEntries(enquiries, None, Js.Resolved(clients), q, message, mediaUrl, kind, env, now, None);
            st.result == Js.Resolved(Some(Created))
            && st.queue.rows == q.rows + QueueStore.NewRows(Entries(cs, message, mediaUrl), q.nextId, now)
  {
  }

  /** As written, any audience that includes clients ends in a rejection and
      queues nothing, whatever the tables hold. */
  lemma ClientAudiencesAlwaysReject(enquiries: EnquiryStore.Store, enquiryFault: Option<Js.Error>, q: QueueStore.Store,
                                    message: Option<string>, mediaUrl: Option<string>, kind: string,
                                    env: string, now: int, insertFault: Option<Js.Error>)
    requires kind == "ClientsOnly" || kind == "Both"
    ensures var st := CreateQueueEntries(enquiries, enquiryFault, ClientContactsAsWritten(), q, message, mediaUrl,
                                         kind, env, now, insertFault);
            st.result.Rejected? && st.queue == q
  {
  }

  /** `deleteMessageFromQueue(id)`: forwards the id to the store unchanged. */
  function DeleteMessage(q: QueueStore.Store, id: nat, fault: Option<Js.Error>): (st: QueueStore.Step<()>)
    ensures fault.None? ==> forall x :: x in st.store.rows <==> x in q.rows && x.id != id
    ensures fault.Some? ==> st.store == q && st.result.Rejected?
  {
    QueueStore.Delete(q, id, fault)
  }
}
