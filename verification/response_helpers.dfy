/** `src/utils/responseHelpers.js`: the JSON envelopes written to HTTP
    responses, and `handleError`, the log / notify / throw policy used by every
    layer below the controllers. */
module ResponseHelpers {
  import opened Wrappers
  import Js

  /** Texts the source logs, throws or returns, as it writes them. */
  const NoticePrefix := "Error in Node.js App: "
  const NotifyFailed := "Failed to send WhatsApp notification"

  // ---------------------------------------------------------------- envelopes

  /** A JSON response body; an absent `Option` is a key the object does not have. */
  datatype Body = Body(success: bool, data: Option<Js.Value>, message: string, errors: Option<Js.Value>)

  datatype Response = Response(status: nat, body: Body)

  /** `successResponse(res, data = null, message = 'Operation successful', statusCode = 200)`. */
  function SuccessResponse(data: Js.Value := Js.Null, message: string := "Operation successful",
                           status: nat := 200): (r: Response)
    ensures r.status == status && r.body.success
    ensures r.body.data == Some(data) && r.body.message == message && r.body.errors.None?
  {
    Response(status, Body(true, Some(data), message, None))
  }

  /** `errorResponse(res, message = 'An error occurred', statusCode = 500, errors = null)`;
      its `shouldThrow` parameter is never read. */
  function ErrorResponse(message: string := "An error occurred", status: nat := 500,
                         errors: Js.Value := Js.Null): (r: Response)
    ensures r.status == status && !r.body.success
    ensures r.body.data == Some(Js.Null) && r.body.message == message && r.body.errors == Some(errors)
  {
    Response(status, Body(false, Some(Js.Null), message, Some(errors)))
  }

  lemma EnvelopeDefaults()
    ensures SuccessResponse() == Response(200, Body(true, Some(Js.Null), "Operation successful", None))
    ensures ErrorResponse() == Response(500, Body(false, Some(Js.Null), "An error occurred", Some(Js.Null)))
  {
  }

  // ---------------------------------------------------------------- handleError

  /** `process.env.NODE_ENV || 'development'`. */
  function ResolveEnv(nodeEnv: Option<string>): (env: string)
    ensures env != ""
    ensures Js.Present(nodeEnv) ==> env == nodeEnv.value
    ensures !Js.Present(nodeEnv) ==> env == "development"
  {
    if Js.Present(nodeEnv) then nodeEnv.value else "development"
  }

  /** The arguments of one `handleError` call. */
  datatype Call = Call(message: string, error: Option<Js.Error>, sendToWhatsApp: bool,
                       shouldThrow: bool, isRecursive: bool, forceNoThrow: bool)

  /** `handleError(message, error)` with every other argument defaulted. */
  function Default(message: string, error: Option<Js.Error>): Call {
    Call(message, error, true, false, false, false)
  }

  /** What one call does: how many log lines it writes, the notice it sends to
      management (if any), and what it throws (if anything). */
  datatype Effect = Effect(logLines: nat, notice: Option<string>, thrown: Option<Js.Error>)

  /** The value thrown: the supplied error, or `new Error(message)`. */
  function ThrownValue(c: Call): Js.Error {
    if c.error.Some? then c.error.value else Js.PlainError(c.message)
  }

  /** The management notice text. */
  function NoticeText(c: Call): string {
    NoticePrefix + (if c.error.Some? then c.message + ": " + c.error.value.message else c.message)
  }

  predicate Throws(env: string, c: Call) {
    !c.isRecursive && ((!c.forceNoThrow && env == "development") || (c.shouldThrow && env == "production"))
  }

  predicate Notifies(env: string, c: Call) {
    !c.isRecursive && c.sendToWhatsApp && env == "production"
  }

  /** `handleError` under the resolved environment `env`, once it settles. A
      failed delivery of the notice is passed to a recursive call, which is
      silent (see `NotificationFailureAbsorbed`); whether a notifying call
      settles at all depends on the default sender's lookup
      (`Messaging.HandleErrorAwaited`). */
  function HandleError(env: string, c: Call): (e: Effect)
    ensures c.isRecursive ==> e == Effect(0, None, None)
    ensures !c.isRecursive ==> e.logLines == 2
    ensures e.thrown.Some? <==> Throws(env, c)
    ensures e.thrown.Some? ==> e.thrown.value == ThrownValue(c)
    ensures e.notice.Some? <==> Notifies(env, c)
    ensures e.notice.Some? ==> e.notice.value == NoticeText(c)
  {
    if c.isRecursive then Effect(0, None, None)
    else
      Effect(2,
             if c.sendToWhatsApp && env == "production" then Some(NoticeText(c)) else None,
             if (!c.forceNoThrow && env == "development") || (c.shouldThrow && env == "production")
             then Some(ThrownValue(c)) else None)
  }

  /** Whether a call with default flags throws: exactly in development (including an unset `NODE_ENV`). */
  lemma DefaultThrowsOnlyInDevelopment(nodeEnv: Option<string>, message: string, error: Option<Js.Error>)
    ensures HandleError(ResolveEnv(nodeEnv), Default(message, error)).thrown.Some?
            <==> (!Js.Present(nodeEnv) || nodeEnv.value == "development")
  {
  }

  /** Under `NODE_ENV=test` nothing is ever thrown or sent, whatever the flags. */
  lemma TestNeverThrows(c: Call)
    ensures HandleError("test", c).thrown.None? && HandleError("test", c).notice.None?
  {
  }

  /** `forceNoThrow` suppresses every throw outside production. */
  lemma ForceNoThrowOutsideProduction(env: string, c: Call)
    requires c.forceNoThrow && env != "production"
    ensures HandleError(env, c).thrown.None?
  {
  }

  /** The catch around the management notice calls `handleError` with
      `isRecursive` set: that call neither logs, nor notifies, nor throws. */
  lemma NotificationFailureAbsorbed(env: string, failure: Js.Error)
    ensures HandleError(env, Call(NotifyFailed, Some(failure), false, false, true, false))
            == Effect(0, None, None)
  {
  }

  /** Whether a caller that awaits `handleError` carries on: the awaited call
      resolves exactly when nothing is thrown. */
  function Await(env: string, c: Call): (r: Js.Settled<()>)
    ensures r.Rejected? <==> Throws(env, c)
    ensures r.Rejected? ==> r.error == ThrownValue(c)
  {
    var e := HandleError(env, c);
    if e.thrown.Some? then Js.Rejected(e.thrown.value) else Js.Resolved(())
  }

  /** A `catch (error) { await handleError(message, error); return fallback; }` block:
      the caller rejects with the caught error exactly in development. */
  function Recover<T>(env: string, message: string, error: Js.Error, fallback: T): (r: Js.Settled<T>)
    ensures r.Rejected? <==> env == "development"
    ensures r.Rejected? ==> r.error == error
    ensures r.Resolved? ==> r.value == fallback
  {
    var a := Await(env, Default(message, Some(error)));
    if a.Rejected? then Js.Rejected(a.error) else Js.Resolved(fallback)
  }

  /** A `catch (error) { await handleError(message, error); throw error; }` block:
      in development `handleError` throws the same error first, so the caller
      rejects with the caught error in every environment. */
  function Rethrow<T>(env: string, message: string, error: Js.Error): (r: Js.Settled<T>)
    ensures r == Js.Rejected(error)
  {
    var a := Await(env, Default(message, Some(error)));
    if a.Rejected? then Js.Rejected(a.error) else Js.Rejected(error)
  }

  /** `try { return await inner; } catch (e) { await handleError(message, e); throw new Error(failure); }`,
      the wrapper every service puts around its repository call. */
  function ThroughService<T>(env: string, inner: Js.Settled<T>, message: string, failure: string): Js.Settled<T> {
    if inner.Resolved? then inner
    else
      var a := Await(env, Default(message, Some(inner.error)));
      if a.Rejected? then Js.Rejected(a.error) else Js.Rejected(Js.PlainError(failure))
  }

  /** A repository that rejects only in development passes through its service
      wrapper unchanged: the wrapper's `handleError` rethrows the same error first. */
  lemma ServiceIsTransparent<T>(env: string, inner: Js.Settled<T>, message: string, failure: string)
    requires inner.Rejected? ==> env == "development"
    ensures ThroughService(env, inner, message, failure) == inner
  {
  }
}
