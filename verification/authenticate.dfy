/** The access-token gate of the posts API. It reads only the cookie and the
    verifier's verdict; it never touches a store. */
module AuthenticateMiddleware {
  import opened Http
  import opened Jwt

  /** `req.user`: the subject and the roles the token carries. */
  datatype Identity = Identity(id: string, roles: seq<string>)

  const NOT_AUTHENTICATED: string := "Not authenticated"
  const EXPIRED_ACCESS: string := "Expired access token"
  const INVALID_ACCESS: string := "Invalid access token."

  /** The body of the `try` block: `jwt.verify`, then the subject check that
      throws a 403. Whatever it throws, the `catch` below rewrites. */
  function VerifyTry(verdict: Verdict): (r: Result<Identity>)
    ensures r.Ok? <==> verdict.Verified? && Truthy(verdict.payload.sub)
    ensures r.Ok? ==> r.value == Identity(verdict.payload.sub.value, verdict.payload.roles)
    ensures verdict.Verified? && !Truthy(verdict.payload.sub) ==>
              r == Fail(Raise("Invalid or expired access token.", 403))
    ensures !verdict.Verified? ==> r.thrown.ErrorObj? && r.thrown.cause.None?
  {
    match verdict
    case Expired => Fail(ErrorObj("jwt expired", None))
    case Invalid => Fail(ErrorObj("invalid token", None))
    case Verified(p) =>
      if !Truthy(p.sub) then Fail(Raise("Invalid or expired access token.", 403))
      else Ok(Identity(p.sub.value, p.roles))
  }

  /** `authenticate`: `Ok(identity)` is `next()` with `req.user` set;
      `Fail(e)` is `next(e)` or a throw. Every failure carries 401, the
      expiry code marks exactly the expired tokens, and a verified token
      without a subject fails 401 as well, because the 403 thrown for it
      inside the `try` is caught and replaced. */
  function Authenticate(cookie: Option<string>, verify: string -> Verdict): (r: Result<Identity>)
    ensures !Truthy(cookie) ==> r == Fail(Raise(NOT_AUTHENTICATED, 401))
    ensures r.Fail? ==> r.thrown.ErrorObj? && r.thrown.cause.Some? && r.thrown.cause.value.status == Some(401)
    ensures r.Fail? ==> (r.thrown.cause.value.code == Some(ACCESS_TOKEN_EXPIRED)
                         <==> Truthy(cookie) && verify(cookie.value) == Expired)
    ensures r.Fail? ==> r.thrown.cause.value.code.None? || r.thrown.cause.value.code == Some(ACCESS_TOKEN_EXPIRED)
    ensures r.Ok? <==> Truthy(cookie) && verify(cookie.value).Verified? && Truthy(verify(cookie.value).payload.sub)
    ensures r.Ok? ==> r.value == Identity(verify(cookie.value).payload.sub.value, verify(cookie.value).payload.roles)
  {
    if !Truthy(cookie) then Fail(Raise(NOT_AUTHENTICATED, 401))
    else
      var verdict := verify(cookie.value);
      match VerifyTry(verdict)
      case Ok(user) => Ok(user)
      case Fail(_) =>
        if verdict == Expired then Fail(RaiseCode(EXPIRED_ACCESS, 401, ACCESS_TOKEN_EXPIRED))
        else Fail(Raise(INVALID_ACCESS, 401))
  }

  /** The outcome depends on the verifier only through its verdict on the
      presented cookie. */
  lemma DependsOnlyOnVerdict(cookie: Option<string>, verify: string -> Verdict, verify': string -> Verdict)
    requires Truthy(cookie) ==> verify(cookie.value) == verify'(cookie.value)
    ensures Authenticate(cookie, verify) == Authenticate(cookie, verify')
  {
  }
}
