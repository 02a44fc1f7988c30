/** Properties that cross the three programs: an access token minted by the
    auth service passes the API's gate; the API's expiry challenge is the
    signal the client's wrapper acts on; the two services classify token
    failures alike; and the login, refresh, replay sequence of a session. */
module Scenario {
  import opened Http
  import opened Jwt
  import opened UserModel
  import opened RefreshTokens
  import opened AuthUtils
  import opened AuthSchemas
  import opened AuthController
  import opened Sessions
  import opened AuthenticateMiddleware
  import opened ErrorHandler
  import opened FetchInterceptor

  /** An access token issued for a user passes the API's gate as that user,
      with that user's roles, as long as the verifier is honest about it. */
  lemma IssuedTokenAuthenticates(tokens: Tokens, user: User, uuid: string, now: int, cfg: Config,
                                 sign: Claims -> string, verify: string -> Verdict)
    requires user.id != ""
    requires Honest(sign, verify, CreateTokens(tokens, user, uuid, now, cfg, sign).claims)
    requires sign(CreateTokens(tokens, user, uuid, now, cfg, sign).claims) != ""
    ensures var access := CreateTokens(tokens, user, uuid, now, cfg, sign).pair.1;
            Authenticate(Some(access), verify) == Ok(Identity(user.id, user.roles))
  {
  }

  /** An access token issued for a stored user, whose id is stored in its
      canonical spelling, passes `me`, which answers with that user's profile. */
  lemma IssuedTokenPassesMe(tokens: Tokens, users: Users, user: User, uuid: string, now: int, cfg: Config,
                            sign: Claims -> string, verify: string -> Verdict, cast: ObjectIdCast)
    requires user.id != "" && user.id in users && users[user.id] == user && cast(user.id) == Some(user.id)
    requires Honest(sign, verify, CreateTokens(tokens, user, uuid, now, cfg, sign).claims)
    requires sign(CreateTokens(tokens, user, uuid, now, cfg, sign).claims) != ""
    ensures var access := CreateTokens(tokens, user, uuid, now, cfg, sign).pair.1;
            Me(users, Some(access), verify, cast) == Ok(Reply(200, "Valid token", Some(ProfileOf(user)), []))
  {
  }

  /** The response the API sends for a rejected access token, as the client sees it. */
  function AsSeenByClient(e: ErrorResponse): FetchResponse {
    FetchResponse(e.status, e.wwwAuthenticate, e.message)
  }

  /** An expired access token makes the wrapper call the refresh endpoint,
      exactly once. */
  lemma ExpiredAccessTriggersOneRefresh(cookie: Option<string>, verify: string -> Verdict,
                                        authServiceURL: Option<string>, url: string, options: Option<Init>,
                                        network: (nat, Call) -> Settled)
    requires Truthy(cookie) && verify(cookie.value) == Expired
    requires network(0, Call(url, WithCredentials(options)))
             == Resolved(AsSeenByClient(HandleError(Authenticate(cookie, verify).thrown)))
    ensures var r := WrappedFetch(authServiceURL, url, options, network);
            |r.calls| >= 2 && r.calls[1] == RefreshCall(authServiceURL)
  {
    ChallengeMentionsExpiry();
    assert TOKEN_EXPIRED_MARKER == EXPIRY_MARKER;
  }

  /** Any other rejection of the access token reaches the caller as it is,
      after a single call: no refresh is attempted. */
  lemma OtherRejectionsPassThrough(cookie: Option<string>, verify: string -> Verdict,
                                   authServiceURL: Option<string>, url: string, options: Option<Init>,
                                   network: (nat, Call) -> Settled)
    requires !(Truthy(cookie) && verify(cookie.value) == Expired)
    requires Authenticate(cookie, verify).Fail?
    requires network(0, Call(url, WithCredentials(options)))
             == Resolved(AsSeenByClient(HandleError(Authenticate(cookie, verify).thrown)))
    ensures var r := WrappedFetch(authServiceURL, url, options, network);
            |r.calls| == 1 && r.outcome.Returned? && r.outcome.response.status == 401
  {
  }

  /** The auth service's `me` and the API's `authenticate` fail alike: both
      with 401, and with the expiry code in the same cases. Where the gate
      admits a subject, `me` succeeds exactly when the subject is an ObjectId
      and a user is stored under it. */
  lemma MeAgreesWithAuthenticate(users: Users, cookie: Option<string>, verify: string -> Verdict, cast: ObjectIdCast)
    ensures var m := Me(users, cookie, verify, cast);
            var a := Authenticate(cookie, verify);
            && (a.Fail? ==> m.Fail? && m.thrown.cause == a.thrown.cause)
            && (a.Ok? ==> (m.Ok? <==> cast(a.value.id).Some? && cast(a.value.id).value in users))
            && (a.Ok? && m.Fail? ==> m.thrown.cause == Some(Cause(Some(401), None)))
  {
  }

  /** A session's life: after a login with the right password, refreshing with the cookie it set
      succeeds and leaves the user one session; replaying that cookie then
      fails with 403. */
  lemma LoginRefreshReplay(s: Store, body: LoginDto, env1: Env, env2: Env, env3: Env, cfg: Config,
                           sign: Claims -> string, compare: (string, string) -> bool)
    requires Valid(s) && !HasToken(s.tokens, env1.uuid)
    requires EmailTaken(s.users, body.email)
    requires compare(body.password, FindByEmail(s.users, body.email).value.password)
    requires env1.uuid != "" && env2.uuid != env1.uuid
    requires !HasToken(Login(s, body, env1, cfg, sign, compare).store.tokens, env2.uuid)
    ensures var u := FindByEmail(s.users, body.email).value;
            var s1 := Login(s, body, env1, cfg, sign, compare).store;
            var r2 := Refresh(s1, Some(env1.uuid), env2, cfg, sign);
            && r2.outcome.Ok?
            && CountOf(r2.store.tokens, u.id) == 1
            && Refresh(r2.store, Some(env1.uuid), env3, cfg, sign)
               == Step(Fail(Raise(REFRESH_NOT_FOUND, 403)), r2.store)
  {
    var u := FindByEmail(s.users, body.email).value;
    var s1 := Login(s, body, env1, cfg, sign, compare).store;
    LoginKeepsValid(s, body, env1, cfg, sign, compare);
    assert TokenRecord(env1.uuid, u.id) in s1.tokens;
    var k :| 0 <= k < |s1.tokens| && s1.tokens[k] == TokenRecord(env1.uuid, u.id);
    assert HasToken(s1.tokens, env1.uuid);
    var i := FindToken(s1.tokens, env1.uuid).value;
    assert i == k;
    assert u.id in s.users;
    RefreshRotates(s1, Some(env1.uuid), env2, cfg, sign);
    RefreshIsSingleUse(s1, Some(env1.uuid), env2, env3, cfg, sign);
  }
}
