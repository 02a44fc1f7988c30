/** The posts API's error boundary: it maps whatever reached `next(err)` to
    a status, a body holding only `message`, and, for an expired access
    token, the `WWW-Authenticate` challenge the client watches for. */
module ErrorHandler {
  import opened Http

  /** The challenge sent with an expired access token. */
  const TOKEN_EXPIRED_CHALLENGE: string :=
    "Bearer error=\"" + TOKEN_EXPIRED_MARKER + "\", error_description=\"The access token expired\""

  /** The marker the client searches the challenge for. */
  const TOKEN_EXPIRED_MARKER: string := "token_expired"

  const INTERNAL_ERROR: string := "Internal server error"

  /** The status text of Express's own last-resort reply, sent when the
      handler itself throws. */
  const FALLBACK_ERROR: string := "Internal Server Error"

  /** The response: status, the body's `message`, and the
      `WWW-Authenticate` header if one is set. The body has no `code`. */
  datatype ErrorResponse = ErrorResponse(status: int, message: string, wwwAuthenticate: Option<string>)

  /** The statuses Express 5's `res.status` accepts; any other integer makes
      it throw a `RangeError`. */
  predicate SettableStatus(status: int) {
    100 <= status <= 999
  }

  /** `errorHandler(err)`. The challenge header is set before the status;
      a cause status `res.status` refuses makes the handler throw, and
      Express then answers 500 itself, with the header already set. */
  function HandleError(err: Thrown): (r: ErrorResponse)
    ensures SettableStatus(r.status)
    ensures err.NonError? ==> r == ErrorResponse(500, INTERNAL_ERROR, None)
    ensures err.ErrorObj? && err.cause.None? ==> r == ErrorResponse(500, err.message, None)
    ensures err.ErrorObj? && err.cause.Some? && err.cause.value.status.None? ==>
              r.status == 500 && r.message == err.message
    ensures err.ErrorObj? && err.cause.Some? && err.cause.value.status.Some? ==>
              if SettableStatus(err.cause.value.status.value)
              then r.status == err.cause.value.status.value && r.message == err.message
              else r.status == 500 && r.message == FALLBACK_ERROR
    ensures r.wwwAuthenticate.Some? <==>
              err.ErrorObj? && err.cause.Some? && err.cause.value.code == Some(ACCESS_TOKEN_EXPIRED)
    ensures r.wwwAuthenticate.Some? ==> r.wwwAuthenticate.value == TOKEN_EXPIRED_CHALLENGE
  {
    match err
    case NonError => ErrorResponse(500, INTERNAL_ERROR, None)
    case ErrorObj(message, None) => ErrorResponse(500, message, None)
    case ErrorObj(message, Some(cause)) =>
      var header := if cause.code == Some(ACCESS_TOKEN_EXPIRED) then Some(TOKEN_EXPIRED_CHALLENGE) else None;
      var status := match cause.status case Some(st) => st case None => 500;
      if SettableStatus(status) then ErrorResponse(status, message, header)
      else ErrorResponse(500, FALLBACK_ERROR, header)
  }

  /** The challenge carries the marker `token_expired` the client looks for. */
  lemma ChallengeMentionsExpiry()
    ensures Contains(TOKEN_EXPIRED_CHALLENGE, TOKEN_EXPIRED_MARKER)
  {
    var p: string := "Bearer error=\"";
    var q: string := "\", error_description=\"The access token expired\"";
    var c := p + TOKEN_EXPIRED_MARKER + q;
    assert c == TOKEN_EXPIRED_CHALLENGE;
    assert c[|p|..|p| + |TOKEN_EXPIRED_MARKER|] == TOKEN_EXPIRED_MARKER;
    assert OccursAt(c, TOKEN_EXPIRED_MARKER, |p|);
  }

  /** An error raised with a status `res.status` accepts keeps that status
      and message at the boundary; any other status ends as Express's 500.
      Only the expiry code adds the challenge, whatever the status. */
  lemma RaisedErrorsRoundTrip(message: string, status: int, code: string)
    ensures SettableStatus(status) ==> HandleError(Raise(message, status)) == ErrorResponse(status, message, None)
    ensures !SettableStatus(status) ==> HandleError(Raise(message, status)) == ErrorResponse(500, FALLBACK_ERROR, None)
    ensures SettableStatus(status) ==> HandleError(RaiseCode(message, status, code)).status == status
    ensures HandleError(RaiseCode(message, status, code)).wwwAuthenticate.Some? <==> code == ACCESS_TOKEN_EXPIRED
  {
  }
}
