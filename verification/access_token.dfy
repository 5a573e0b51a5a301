/** The `validateAccessToken` middleware (src/middlewares/validateAccessToken.js). */
module AccessToken {
  import opened Wrappers
  import Js
  import ResponseHelpers

  /** The middleware either passes the request on or answers it. */
  datatype Decision = Next | Respond(response: ResponseHelpers.Response)

  const NotConfigured := ResponseHelpers.ErrorResponse("Expected access token is not set on the server.", 500)
  const Invalid := ResponseHelpers.ErrorResponse("Invalid access token.", 401)

  /** `header` is `req.headers['authorization']`, `body` is `req.body.accessToken`,
      and `expected` is `APP_ACCESS_TOKEN`; comparison is strict equality. */
  function ValidateAccessToken(header: Js.Value, body: Js.Value, expected: Option<string>): (d: Decision)
    ensures !Js.Present(expected) ==> d == Respond(NotConfigured)
    ensures d.Next? <==> Js.Present(expected) && (header == Js.Str(expected.value) || body == Js.Str(expected.value))
    ensures Js.Present(expected) && d.Respond? ==> d.response == Invalid
  {
    if !Js.Present(expected) then Respond(NotConfigured)
    else if header == Js.Str(expected.value) || body == Js.Str(expected.value) then Next
    else Respond(Invalid)
  }

  /** Whatever the request carries, an empty configured token never lets it through. */
  lemma EmptyTokenNeverMatches(header: Js.Value, body: Js.Value)
    ensures ValidateAccessToken(header, body, Some("")) == Respond(NotConfigured)
    ensures ValidateAccessToken(header, body, None) == Respond(NotConfigured)
  {
  }

  /** A request that carries the token in either place is passed on, whatever the other place holds. */
  lemma EitherPlaceSuffices(token: string, other: Js.Value)
    requires token != ""
    ensures ValidateAccessToken(Js.Str(token), other, Some(token)) == Next
    ensures ValidateAccessToken(other, Js.Str(token), Some(token)) == Next
  {
  }
}
