/** `src/services/whatsappMessagingService.js`: the guard and normalisation in
    front of the gateway client, the group variant, the default-instance lookup
    and the routing of management notices. */
module Messaging {
  import opened Wrappers
  import Js
  import Text
  import PingerClient
  import Tracking
  import ResponseHelpers

  /** Texts the source logs, throws or returns, as it writes them. */
  const MissingFields := "Missing required fields - number : "
  const FieldLabel := ", number : "
  const ServiceFailed := "[getInstanceDetailsByPhoneNumber] Error in service:"
  const InstanceUnavailable := "Failed to fetch instance details for the given phone number."

  /** The argument object of `sendMessage`. */
  datatype Request = Request(name: Js.Nullable, number: Js.Nullable, kind: string, message: Js.Nullable,
                             mediaUrl: Js.Nullable, instanceId: Js.Nullable, filename: Js.Nullable)

  /** A plain text request with only the three required fields, `type` left at its default `'text'`. */
  function TextRequest(number: Js.Nullable, message: Js.Nullable, instanceId: Js.Nullable): Request {
    Request(Js.Undef, number, "text", message, Js.Undef, instanceId, Js.Undef)
  }

  predicate HasRequired(rq: Request) {
    Js.IsTruthy(rq.number) && Js.IsTruthy(rq.message) && Js.IsTruthy(rq.instanceId)
  }

  /** The guard's message; every field is labelled `number`, and absent values print as `undefined`/`null`. */
  function GuardMessage(rq: Request): string {
    MissingFields + Js.Render(rq.number) + FieldLabel + Js.Render(rq.message) + FieldLabel + Js.Render(rq.instanceId)
  }

  /** A 10-character number gets the country code `91`. */
  function NormalizeNumber(n: string): (r: string)
    ensures |n| == 10 ==> r == "91" + n && |r| == 12
    ensures |n| != 10 ==> r == n
  {
    if |n| == 10 then "91" + n else n
  }

  /** With a truthy name, the first `{Name}` becomes the name. */
  function Personalize(message: string, name: Js.Nullable): (r: string)
    ensures !Js.IsTruthy(name) || !Text.Contains(message, "{Name}") ==> r == message
    ensures forall i: nat :: Js.IsTruthy(name) && '$' !in name.s && Text.OccursAt(message, "{Name}", i)
              && (forall j: nat :: j < i ==> !Text.OccursAt(message, "{Name}", j))
              ==> r == message[..i] + name.s + message[i + 6..]
  {
    if Js.IsTruthy(name) then Text.ReplaceFirst(message, "{Name}", name.s) else message
  }

  /** What one send did: the payload posted, if it got that far, and how the call settled. */
  datatype Sent = Sent(payload: Option<PingerClient.Payload>, result: Js.Settled<Js.Nullable>)

  /** `sendMessage(rq)` with `PINGER_ACCESS_TOKEN` and the gateway's reply as inputs. */
  function SendMessage(rq: Request, accessToken: Js.Nullable, reply: PingerClient.Reply): (s: Sent)
    ensures !HasRequired(rq) ==> s == Sent(None, Js.Rejected(Js.PlainError(GuardMessage(rq))))
    ensures HasRequired(rq) ==> s.payload.Some? && s.result == Js.Resolved(PingerClient.Classify(rq.kind, reply))
    ensures HasRequired(rq) ==>
      var p := s.payload.value;
      && p.number == NormalizeNumber(rq.number.s) && p.message == Personalize(rq.message.s, rq.name)
      && p.instanceId == rq.instanceId.s && p.kind == rq.kind && p.accessToken == accessToken
      && (p.mediaUrl.Some? <==> rq.kind == "media" && Js.IsTruthy(rq.mediaUrl))
      && (p.mediaUrl.Some? ==> p.mediaUrl.value == rq.mediaUrl.s)
      && (p.filename.Some? <==> p.mediaUrl.Some? && Js.IsTruthy(rq.filename))
      && (p.filename.Some? ==> p.filename.value == rq.filename.s)
  {
    if !HasRequired(rq) then Sent(None, Js.Rejected(Js.PlainError(GuardMessage(rq))))
    else
      var out := PingerClient.SendMessage(NormalizeNumber(rq.number.s), rq.kind, Personalize(rq.message.s, rq.name),
                                          rq.instanceId.s, accessToken, rq.mediaUrl, rq.filename, reply);
      Sent(Some(out.0), Js.Resolved(out.1))
  }

  /** The example from the service's own comment. */
  lemma TenDigitNumberGetsCountryCode()
    ensures NormalizeNumber("1234567890") == "911234567890"
  {
  }

  /** The gateway client never rejects, so a request that passes the guard
      always resolves: the service's `Failed to send <type> message` rethrow is
      never reached. */
  lemma GuardIsTheOnlyRejection(rq: Request, accessToken: Js.Nullable, reply: PingerClient.Reply)
    ensures SendMessage(rq, accessToken, reply).result.Rejected? <==> !HasRequired(rq)
  {
  }

  // ---------------------------------------------------------------- groups

  datatype GroupPayload = GroupPayload(groupId: string, kind: string, message: string, instanceId: string,
                                       accessToken: Js.Nullable)

  datatype GroupSent = GroupSent(payload: Option<GroupPayload>, result: Js.Nullable)

  /** `sendGroupMessage({groupId, type, message, instanceId})`: `null` without
      a call when the message or instance is missing or the group id is blank. */
  function SendGroupMessage(groupId: Js.Nullable, kind: string, message: Js.Nullable, instanceId: Js.Nullable,
                            accessToken: Js.Nullable, reply: PingerClient.Reply): (s: GroupSent)
    ensures s.payload.None? <==>
      !Js.IsTruthy(message) || !Js.IsTruthy(instanceId) || !groupId.Given? || Text.Trim(groupId.s) == ""
    ensures s.payload.None? ==> s.result == Js.Nil
    ensures s.payload.Some? ==> s.result == PingerClient.ClassifyGroup(kind, reply)
                                && s.payload.value.groupId == groupId.s && s.payload.value.message == message.s
  {
    if !Js.IsTruthy(message) || !Js.IsTruthy(instanceId) then GroupSent(None, Js.Nil)
    else if !groupId.Given? || Text.Trim(groupId.s) == "" then GroupSent(None, Js.Nil)
    else
      GroupSent(Some(GroupPayload(groupId.s, kind, message.s, instanceId.s, accessToken)),
                PingerClient.ClassifyGroup(kind, reply))
  }

  // ---------------------------------------------------------------- default instance

  /** `getDefaultInstanceId()`: the instance of the `DEFAULT_WHATSAPP_NUMBER`
      row, or `null` when there is no such row, it has no instance, or the
      lookup fails (every failure is caught here). */
  function GetDefaultInstanceId(t: Tracking.Table, defaultNumber: Js.Nullable, env: string,
                                fault: Option<Js.Error>): (id: Js.Nullable)
    ensures id.Undef? == false
    ensures id.Given? <==>
      fault.None? && Tracking.FirstFor(t, defaultNumber).Some?
      && Js.Present(t[Tracking.FirstFor(t, defaultNumber).value].instanceId)
    ensures id.Given? ==> id.s == t[Tracking.FirstFor(t, defaultNumber).value].instanceId.value
  {
    var looked := ResponseHelpers.ThroughService(
      env, Tracking.GetInstanceDetails(t, defaultNumber, env, fault),
      ServiceFailed, InstanceUnavailable);
    if looked.Rejected? then Js.Nil
    else if looked.value.None? || !Js.Present(looked.value.value.instanceId) then Js.Nil
    else Js.Given(looked.value.value.instanceId.value)
  }

  /** `getDefaultInstanceId()` awaited to the end. In production a missing
      default row (or a failing default lookup) calls `handleError`, whose
      notice needs the default instance again, so the call never settles; an
      unset `DEFAULT_WHATSAPP_NUMBER` matches no row and always does this. */
  function GetDefaultInstanceIdAwaited(t: Tracking.Table, defaultNumber: Js.Nullable, env: string,
                                       fault: Option<Js.Error>): (a: Js.Awaited<Js.Nullable>)
    ensures a.Hangs? <==> env == "production" && Tracking.LookupMisses(t, defaultNumber, fault)
    ensures env == "production" && !defaultNumber.Given? ==> a.Hangs?
    ensures a.Settles? ==> a.settled == Js.Resolved(GetDefaultInstanceId(t, defaultNumber, env, fault))
  {
    var looked := Tracking.GetInstanceDetailsAwaited(t, defaultNumber, defaultNumber, env, fault, fault);
    if looked.Hangs? then Js.Hangs else Js.Settles(Js.Resolved(GetDefaultInstanceId(t, defaultNumber, env, fault)))
  }

  /** A `handleError` call awaited to the end. When it notifies management
      (production, default flags) it first awaits the default instance, so it
      settles only if the default lookup hits; it then settles as
      `ResponseHelpers.Await` says, the notice's delivery aside. */
  function HandleErrorAwaited(env: string, c: ResponseHelpers.Call, t: Tracking.Table, defaultNumber: Js.Nullable,
                              fault: Option<Js.Error>): (a: Js.Awaited<()>)
    ensures a.Hangs? <==> ResponseHelpers.Notifies(env, c) && Tracking.LookupMisses(t, defaultNumber, fault)
    ensures a.Settles? ==> a.settled == ResponseHelpers.Await(env, c)
  {
    if ResponseHelpers.Notifies(env, c) && GetDefaultInstanceIdAwaited(t, defaultNumber, env, fault).Hangs?
    then Js.Hangs
    else Js.Settles(ResponseHelpers.Await(env, c))
  }

  // ---------------------------------------------------------------- management notices

  /** Where a management notice went. */
  datatype Notice = NoInstance | ToGroup(group: GroupSent) | ToNumber(direct: Sent)

  /** `sendMessageToManagement(message, sendToGroup)` given the default
      instance, `MANAGEMENT_WHATSAPP_GROUP`, `MANAGEMENT_WHATSAPP_NUMBER` and the
      gateway's reply. The call itself always resolves. */
  function SendMessageToManagement(message: string, sendToGroup: bool, instanceId: Js.Nullable,
                                   group: Js.Nullable, number: Js.Nullable, accessToken: Js.Nullable,
                                   reply: PingerClient.Reply): (n: Notice)
    ensures !Js.IsTruthy(instanceId) <==> n.NoInstance?
    ensures Js.IsTruthy(instanceId) && sendToGroup ==>
      n == ToGroup(SendGroupMessage(group, "text", Js.Given(message), instanceId, accessToken, reply))
    ensures Js.IsTruthy(instanceId) && !sendToGroup ==>
      n == ToNumber(SendMessage(TextRequest(number, Js.Given(message), instanceId), accessToken, reply))
  {
    if !Js.IsTruthy(instanceId) then NoInstance
    else if sendToGroup then ToGroup(SendGroupMessage(group, "text", Js.Given(message), instanceId, accessToken, reply))
    else ToNumber(SendMessage(TextRequest(number, Js.Given(message), instanceId), accessToken, reply))
  }

  /** A group notice, once the instance and `MANAGEMENT_WHATSAPP_GROUP` are
      set, is posted to that group, and its result names the group delivery
      exactly when the gateway confirmed a `remoteJid`; every other answer
      reads as the fixed failure text or `undefined`. */
  lemma GroupNoticeConfirmedIffDelivered(message: string, instanceId: string, group: string,
                                         accessToken: Js.Nullable, reply: PingerClient.Reply)
    requires message != "" && instanceId != "" && Text.Trim(group) != ""
    ensures var n := SendMessageToManagement(message, true, Js.Given(instanceId), Js.Given(group), Js.Undef,
                                             accessToken, reply);
      && n.ToGroup? && n.group.payload == Some(GroupPayload(group, "text", message, instanceId, accessToken))
      && (n.group.result.Given? && Text.Contains(n.group.result.s, PingerClient.SentToGroup)
          <==> PingerClient.Delivered(reply))
  {
    var g := SendGroupMessage(Js.Given(group), "text", Js.Given(message), Js.Given(instanceId), accessToken, reply);
    assert SendMessageToManagement(message, true, Js.Given(instanceId), Js.Given(group), Js.Undef, accessToken, reply)
           == ToGroup(g);
    assert g.payload.Some? && g.result == PingerClient.ClassifyGroup("text", reply);
    PingerClient.GroupResultIffDelivered("text", reply);
  }

  /** As written the number route is not awaited: a rejected send is not seen
      by any `catch` and surfaces as an unhandled rejection. */
  function EscapedRejection(n: Notice): Option<Js.Error> {
    if n.ToNumber? && n.direct.result.Rejected? then Some(n.direct.result.error) else None
  }

  /** With `MANAGEMENT_WHATSAPP_NUMBER` unset, every notice sent to the number
      rejects in the guard, and that rejection escapes. */
  lemma UnsetManagementNumberEscapes(message: string, instanceId: string, accessToken: Js.Nullable,
                                     group: Js.Nullable, reply: PingerClient.Reply)
    requires message != "" && instanceId != ""
    ensures EscapedRejection(SendMessageToManagement(message, false, Js.Given(instanceId), group, Js.Undef,
                                                     accessToken, reply))
            == Some(Js.PlainError(MissingFields + "undefined" + FieldLabel + message + FieldLabel + instanceId))
  {
  }

  /** The notice step of `handleError` with the number route awaited: a
      rejected send reaches the surrounding `catch`, whose recursive
      `handleError` call is silent, so nothing escapes and nothing is thrown. */
  function NotifyAwaited(env: string, n: Notice): (escaped: Option<Js.Error>)
    ensures escaped.None?
  {
    if n.ToNumber? && n.direct.result.Rejected? then
      var e := ResponseHelpers.HandleError(env, ResponseHelpers.Call(ResponseHelpers.NotifyFailed,
                                                                    Some(n.direct.result.error), false, false, true, false));
      e.thrown
    else None
  }
}
