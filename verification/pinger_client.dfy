/** The WhatsApp gateway client (`src/integrations/pingerApiClient.js`): the
    request payload it posts, and how it turns the gateway's answer into the
    result string its callers inspect. The HTTP post itself is an input: the
    answer the gateway gave, or the error the request failed with. */
module PingerClient {
  import opened Wrappers
  import Js
  import Text

  /** Texts the source logs, throws or returns, as it writes them. */
  const ObjectText := "[object Object]"
  const SentToGroup := " message successfully sent to group : "
  const GroupFailed := "Failed to send message."

  /** The JSON body posted to `/api/send`. */
  datatype Payload = Payload(number: string, kind: string, message: string, instanceId: string,
                             accessToken: Js.Nullable, mediaUrl: Option<string>, filename: Option<string>)

  /** `response.data.message` as far as the client inspects it: absent (or a
      falsy non-string), a string, or an object whose `key.remoteJid` may be set. */
  datatype MessageField = NoMessage | TextMessage(text: string) | Delivery(remoteJid: Js.Nullable)

  /** `response.data`: missing (`undefined`/`null`), a string, or an object. */
  datatype Data = NoData | TextData(text: string) | Record(message: MessageField)

  /** What the post produced. */
  datatype Reply = RequestFailed(error: Js.Error) | Answered(data: Data)

  /** The phrase the dispatcher looks for in a result. */
  const Marker := "message successfully sent to number"
  const FailurePrefix := "Failed to send message: "

  /** `media_url` only for media messages with a URL, `filename` only alongside it. */
  function BuildPayload(number: string, kind: string, message: string, instanceId: string,
                        accessToken: Js.Nullable, mediaUrl: Js.Nullable, filename: Js.Nullable): (p: Payload)
    ensures p.number == number && p.kind == kind && p.message == message && p.instanceId == instanceId
    ensures p.accessToken == accessToken
    ensures p.mediaUrl.Some? <==> kind == "media" && Js.IsTruthy(mediaUrl)
    ensures p.mediaUrl.Some? ==> p.mediaUrl.value == mediaUrl.s
    ensures p.filename.Some? <==> p.mediaUrl.Some? && Js.IsTruthy(filename)
    ensures p.filename.Some? ==> p.filename.value == filename.s
  {
    var media := kind == "media" && Js.IsTruthy(mediaUrl);
    Payload(number, kind, message, instanceId, accessToken,
            if media then Some(mediaUrl.s) else None,
            if media && Js.IsTruthy(filename) then Some(filename.s) else None)
  }

  function Label(kind: string): string {
    if kind == "media" then "Media" else "Text"
  }

  /** `<Media|Text> message successfully sent to number : <jid>`. */
  function SuccessText(kind: string, jid: string): string {
    Label(kind) + " " + Marker + " : " + jid
  }

  /** The gateway confirmed delivery: `response.data.message.key.remoteJid` is truthy. */
  predicate Delivered(r: Reply) {
    r.Answered? && r.data.Record? && r.data.message.Delivery? && Js.IsTruthy(r.data.message.remoteJid)
  }

  /** The result of `sendMessage` for the gateway's reply: the success sentence,
      a `Failed to send message: ...` string, or `undefined` when the request
      failed or the answer had no body to read (the thrown `TypeError` is
      caught, and this file's own `handleError` never rethrows by default). */
  function Classify(kind: string, r: Reply): (res: Js.Nullable)
    ensures Delivered(r) ==>
      res == Js.Given(SuccessText(kind, r.data.message.remoteJid.s))
    ensures res.Undef? <==> r.RequestFailed? || r == Answered(NoData)
    ensures !Delivered(r) && res.Given? ==> |res.s| >= |FailurePrefix| && res.s[..|FailurePrefix|] == FailurePrefix
    ensures res.Nil? == false
  {
    match r
    case RequestFailed(_) => Js.Undef
    case Answered(data) =>
      match data
      case NoData => Js.Undef
      case TextData(t) => Js.Given(FailurePrefix + t)
      case Record(m) =>
        if Delivered(r) then Js.Given(SuccessText(kind, m.remoteJid.s))
        else if m.TextMessage? && m.text != "" then Js.Given(FailurePrefix + m.text)
        else if m.Delivery? then Js.Given(FailurePrefix + ObjectText)
        else Js.Given(FailurePrefix + ObjectText)
  }

  /** `sendMessage(...)`: the payload it posts and the result it resolves to.
      The payload carries the arguments, with the media fields only for a
      media message; the result is `undefined` exactly when nothing readable
      came back, and carries the dispatcher's marker exactly when the gateway
      confirmed delivery or echoed the marker in its own text. */
  function SendMessage(number: string, kind: string, message: string, instanceId: string,
                       accessToken: Js.Nullable, mediaUrl: Js.Nullable, filename: Js.Nullable, reply: Reply)
    : (out: (Payload, Js.Nullable))
    ensures out.0.number == number && out.0.kind == kind && out.0.message == message
    ensures out.0.instanceId == instanceId && out.0.accessToken == accessToken
    ensures out.0.mediaUrl.Some? <==> kind == "media" && Js.IsTruthy(mediaUrl)
    ensures out.0.filename.Some? <==> out.0.mediaUrl.Some? && Js.IsTruthy(filename)
    ensures out.1.Undef? <==> reply.RequestFailed? || reply == Answered(NoData)
    ensures out.1.Given? ==> (Text.Contains(out.1.s, Marker) <==> Delivered(reply) || EchoesMarker(reply))
  {
    var res := Classify(kind, reply);
    assert res.Given? ==> (Text.Contains(res.s, Marker) <==> Delivered(reply) || EchoesMarker(reply)) by {
      if res.Given? {
        MarkerClassifies(kind, reply);
      }
    }
    (BuildPayload(number, kind, message, instanceId, accessToken, mediaUrl, filename), res)
  }

  // ---------------------------------------------------------------- the marker

  /** No occurrence of the marker starts inside the failure prefix. */
  lemma PrefixHidesMarker(t: string)
    ensures forall i: nat :: i < |FailurePrefix| ==> !Text.OccursAt(FailurePrefix + t, Marker, i)
  {
    var s := FailurePrefix + t;
    forall i: nat | i < |FailurePrefix| ensures !Text.OccursAt(s, Marker, i) {
      if i == 15 {
        assert s[22] == ':' && Marker[7] == ' ';
      } else {
        assert s[i] != 'm' && Marker[0] == 'm';
      }
    }
  }

  /** A failure string built from the gateway's own text carries the marker
      exactly when that text does. */
  lemma FailureMarkerIffText(t: string)
    ensures Text.Contains(FailurePrefix + t, Marker) <==> Text.Contains(t, Marker)
  {
    PrefixHidesMarker(t);
    Text.ContainsAfterPrefix(FailurePrefix, t, Marker);
  }

  lemma SuccessCarriesMarker(kind: string, jid: string)
    ensures Text.Contains(SuccessText(kind, jid), Marker)
  {
    var pre := Label(kind) + " ";
    Text.OccursAfterPrefix(pre, Marker, Marker, 0);
    Text.OccursBeforeSuffix(pre + Marker, " : " + jid, Marker, |pre|);
    assert SuccessText(kind, jid) == (pre + Marker) + (" : " + jid);
  }

  lemma ObjectFailureLacksMarker()
    ensures !Text.Contains(FailurePrefix + ObjectText, Marker)
  {
    FailureMarkerIffText(ObjectText);
  }

  /** The gateway answered with a failure text of its own that contains the marker. */
  predicate EchoesMarker(r: Reply) {
    || (r.Answered? && r.data.TextData? && Text.Contains(r.data.text, Marker))
    || (r.Answered? && r.data.Record? && r.data.message.TextMessage? && r.data.message.text != ""
        && Text.Contains(r.data.message.text, Marker))
  }

  /** The dispatcher's marker test on a result: it holds exactly for a
      confirmed delivery, or for a failure whose gateway text itself contains
      the marker. */
  lemma MarkerClassifies(kind: string, r: Reply)
    requires Classify(kind, r).Given?
    ensures Text.Contains(Classify(kind, r).s, Marker) <==> Delivered(r) || EchoesMarker(r)
  {
    if Delivered(r) {
      SuccessCarriesMarker(kind, r.data.message.remoteJid.s);
    } else if r.data.TextData? {
      FailureMarkerIffText(r.data.text);
    } else if r.data.message.TextMessage? && r.data.message.text != "" {
      FailureMarkerIffText(r.data.message.text);
    } else {
      ObjectFailureLacksMarker();
    }
  }

  // ---------------------------------------------------------------- groups

  /** The result of `sendMessageToGroup`: the group success sentence, the
      fixed failure text, or `undefined` when the request failed. */
  function ClassifyGroup(kind: string, r: Reply): (res: Js.Nullable)
    ensures r.RequestFailed? <==> res.Undef?
    ensures Delivered(r) ==>
      res == Js.Given(Label(kind) + SentToGroup + r.data.message.remoteJid.s)
    ensures r.Answered? && !Delivered(r) ==> res == Js.Given(GroupFailed)
  {
    if r.RequestFailed? then Js.Undef
    else if Delivered(r) then
      Js.Given(Label(kind) + SentToGroup + r.data.message.remoteJid.s)
    else Js.Given(GroupFailed)
  }

  /** A group result names the group delivery exactly when the gateway
      confirmed a `remoteJid`: the fixed failure text is too short to hold it. */
  lemma GroupResultIffDelivered(kind: string, r: Reply)
    ensures ClassifyGroup(kind, r).Given? && Text.Contains(ClassifyGroup(kind, r).s, SentToGroup) <==> Delivered(r)
  {
    var res := ClassifyGroup(kind, r);
    if Delivered(r) {
      var pre := Label(kind);
      var jid := r.data.message.remoteJid.s;
      Text.OccursAfterPrefix(pre, SentToGroup, SentToGroup, 0);
      Text.OccursBeforeSuffix(pre + SentToGroup, jid, SentToGroup, |pre|);
      assert res.s == (pre + SentToGroup) + jid;
    } else if res.Given? {
      assert |res.s| < |SentToGroup|;
    }
  }
}
