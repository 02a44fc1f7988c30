/** The five handlers of the auth service as transitions of the store: each
    takes the store and a request and yields an outcome (a reply or a thrown
    error) and the store afterwards. */
module AuthController {
  import opened Http
  import opened Jwt
  import opened UserModel
  import opened RefreshTokens
  import opened AuthUtils
  import opened AuthSchemas

  /** The auth service's database: the user table and the refresh-token collection. */
  datatype Store = Store(users: Users, tokens: Tokens)

  /** The store invariant: users keyed by id with unique emails, and one
      record per refresh-token string. */
  predicate Valid(s: Store) {
    ValidUsers(s.users) && UniqueTokens(s.tokens)
  }

  /** What one request draws from outside the handler: the clock in seconds,
      the value `randomUUID()` yields, the id the database gives a new user,
      and the bcrypt hash of the submitted password. */
  datatype Env = Env(now: int, uuid: string, newUserId: UserId, hashed: string)

  /** The stated assumption about the generators: the UUID is not yet a
      token in the collection and the new id is not yet a user. */
  predicate FreshIn(env: Env, s: Store) {
    !HasToken(s.tokens, env.uuid) && env.newUserId !in s.users
  }

  /** A user record as `me` returns it: everything but the password hash. */
  datatype Profile = Profile(
    id: UserId, email: string, roles: seq<string>,
    firstName: Option<string>, lastName: Option<string>, createdAt: int)

  function ProfileOf(u: User): Profile {
    Profile(u.id, u.email, u.roles, u.firstName, u.lastName, u.createdAt)
  }

  /** A successful reply: status, the `message` of the JSON body, the user
      record when `me` sends one, and the cookies set or cleared. */
  datatype Reply = Reply(status: int, message: string, user: Option<Profile>, cookies: seq<CookieOp>)

  datatype Step = Step(outcome: Result<Reply>, store: Store)

  const EMAIL_EXISTS: string := "Email already exists"
  const INCORRECT_CREDENTIALS: string := "Incorrect credentials"
  const REFRESH_REQUIRED: string := "Refresh token is required."
  const REFRESH_NOT_FOUND: string := "Refresh token not found."
  const USER_NOT_FOUND: string := "User not found."
  const ACCESS_REQUIRED: string := "Access token is required."
  const EXPIRED_ACCESS: string := "Expired access token"
  const INVALID_ACCESS: string := "Invalid access token."

  /** `register`: refuse a taken email with 409; otherwise create the user
      (roles defaulted), issue a token pair and set both cookies. */
  function Register(s: Store, body: RegisterDto, env: Env, cfg: Config, sign: Claims -> string): (r: Step)
    requires env.newUserId !in s.users
    ensures EmailTaken(s.users, body.email) ==> r == Step(Fail(Raise(EMAIL_EXISTS, 409)), s)
    ensures r.outcome.Ok? <==> !EmailTaken(s.users, body.email) && Required(body.email) && Required(env.hashed)
    ensures r.outcome.Fail? ==> r.store == s
    ensures r.outcome.Ok? ==>
              && r.outcome.value.status == 201
              && r.store.users.Keys == s.users.Keys + {env.newUserId}
              && (forall id :: id in s.users ==> r.store.users[id] == s.users[id])
              && r.store.users[env.newUserId] ==
                   User(env.newUserId, body.email, env.hashed, ["user"], body.firstName, body.lastName, env.now)
              && r.store.tokens == s.tokens + [TokenRecord(env.uuid, env.newUserId)]
              && r.outcome.value.cookies ==
                   SetAuthCookies(cfg, env.uuid, sign(Claims(["user"], env.newUserId, env.now, env.now + cfg.accessTtl)))
  {
    if EmailTaken(s.users, body.email) then Step(Fail(Raise(EMAIL_EXISTS, 409)), s)
    else
      match CreateUser(env.newUserId, body.email, env.hashed, None, body.firstName, body.lastName, env.now)
      case Fail(e) => Step(Fail(e), s)
      case Ok(user) =>
        var issued := CreateTokens(s.tokens, user, env.uuid, env.now, cfg, sign);
        var reply := Reply(201, "Registered", None, SetAuthCookies(cfg, issued.pair.0, issued.pair.1));
        Step(Ok(reply), Store(s.users[user.id := user], issued.tokens))
  }

  /** `login`: find the user by email, compare the password with the stored
      hash, delete every refresh token of that user, issue a fresh pair. */
  function Login(s: Store, body: LoginDto, env: Env, cfg: Config, sign: Claims -> string,
                 compare: (string, string) -> bool): (r: Step)
    requires UniqueEmails(s.users)
    ensures !EmailTaken(s.users, body.email) ==> r == Step(Fail(Raise(INCORRECT_CREDENTIALS, 401)), s)
    ensures EmailTaken(s.users, body.email) ==>
              (!compare(body.password, FindByEmail(s.users, body.email).value.password)
               <==> r == Step(Fail(Raise(INCORRECT_CREDENTIALS, 401)), s))
    ensures r.outcome.Ok? <==>
              EmailTaken(s.users, body.email) && compare(body.password, FindByEmail(s.users, body.email).value.password)
    ensures r.outcome.Ok? ==>
              var u := FindByEmail(s.users, body.email).value;
              && r.outcome.value.status == 200
              && r.outcome.value.cookies ==
                   SetAuthCookies(cfg, env.uuid, sign(Claims(u.roles, u.id, env.now, env.now + cfg.accessTtl)))
              && r.store.users == s.users
              && r.store.tokens == DeleteMany(s.tokens, u.id) + [TokenRecord(env.uuid, u.id)]
              && CountOf(r.store.tokens, u.id) == 1
              && TokenRecord(env.uuid, u.id) in r.store.tokens
              && (forall v :: v != u.id ==> CountOf(r.store.tokens, v) == CountOf(s.tokens, v))
              && (forall x: TokenRecord :: x.userId != u.id ==> (x in r.store.tokens <==> x in s.tokens))
  {
    match FindByEmail(s.users, body.email)
    case None => Step(Fail(Raise(INCORRECT_CREDENTIALS, 401)), s)
    case Some(user) =>
      if !compare(body.password, user.password) then Step(Fail(Raise(INCORRECT_CREDENTIALS, 401)), s)
      else
        var kept := DeleteMany(s.tokens, user.id);
        var issued := CreateTokens(kept, user, env.uuid, env.now, cfg, sign);
        assert issued.tokens == kept + [TokenRecord(env.uuid, user.id)];
        assert issued.tokens[|kept|] == TokenRecord(env.uuid, user.id);
        assert forall x: TokenRecord :: x in issued.tokens <==> x in kept || x == TokenRecord(env.uuid, user.id);
        var reply := Reply(200, "Logged in", None, SetAuthCookies(cfg, issued.pair.0, issued.pair.1));
        Step(Ok(reply), Store(s.users, issued.tokens))
  }

  /** `refresh`: look up the presented token, delete its record, then look up
      its owner, and only then issue a new pair. */
  function Refresh(s: Store, cookie: Option<string>, env: Env, cfg: Config, sign: Claims -> string): (r: Step)
    ensures !Truthy(cookie) ==> r == Step(Fail(Raise(REFRESH_REQUIRED, 401)), s)
    ensures Truthy(cookie) && !HasToken(s.tokens, cookie.value) ==> r == Step(Fail(Raise(REFRESH_NOT_FOUND, 403)), s)
    ensures r.store.users == s.users
    ensures Truthy(cookie) && HasToken(s.tokens, cookie.value) ==>
              var i := FindToken(s.tokens, cookie.value).value;
              var owner := s.tokens[i].userId;
              && (owner !in s.users ==> r == Step(Fail(Raise(USER_NOT_FOUND, 403)), Store(s.users, RemoveAt(s.tokens, i))))
              && (owner in s.users ==>
                    && r.outcome.Ok? && r.outcome.value.status == 200
                    && r.store.tokens == RemoveAt(s.tokens, i) + [TokenRecord(env.uuid, s.users[owner].id)]
                    && r.outcome.value.cookies == SetAuthCookies(cfg, env.uuid,
                         sign(Claims(s.users[owner].roles, s.users[owner].id, env.now, env.now + cfg.accessTtl))))
  {
    if !Truthy(cookie) then Step(Fail(Raise(REFRESH_REQUIRED, 401)), s)
    else
      match FindToken(s.tokens, cookie.value)
      case None => Step(Fail(Raise(REFRESH_NOT_FOUND, 403)), s)
      case Some(i) =>
        var owner := s.tokens[i].userId;
        var rest := RemoveAt(s.tokens, i);
        if owner !in s.users then Step(Fail(Raise(USER_NOT_FOUND, 403)), Store(s.users, rest))
        else
          var issued := CreateTokens(rest, s.users[owner], env.uuid, env.now, cfg, sign);
          assert issued.tokens == rest + [TokenRecord(env.uuid, s.users[owner].id)];
          var reply := Reply(200, "Refreshed", None, SetAuthCookies(cfg, issued.pair.0, issued.pair.1));
          Step(Ok(reply), Store(s.users, issued.tokens))
  }

  /** `logout`: delete the record of the presented token, if any, and clear
      both cookies; it never fails. */
  function Logout(s: Store, cookie: Option<string>): (r: Step)
    ensures r.outcome == Ok(Reply(200, "Successfully logged out", None,
                                  [ClearCookie(REFRESH_COOKIE), ClearCookie(ACCESS_COOKIE)]))
    ensures r.store.users == s.users
    ensures !Truthy(cookie) ==> r.store == s
    ensures Truthy(cookie) ==> r.store.tokens == DeleteOne(s.tokens, cookie.value)
  {
    var tokens := if Truthy(cookie) then DeleteOne(s.tokens, cookie.value) else s.tokens;
    Step(Ok(Reply(200, "Successfully logged out", None, [ClearCookie(REFRESH_COOKIE), ClearCookie(ACCESS_COOKIE)])),
         Store(s.users, tokens))
  }

  /** `me`: a missing cookie is thrown as 401; every failure inside the `try`
      block (verification, a missing subject, a missing user) is turned by
      the `catch` into 401, with the expiry code only for an expired token.
      The subject is cast to an ObjectId before the user is looked up. It
      reads the store and changes nothing. */
  function Me(users: Users, cookie: Option<string>, verify: string -> Verdict, cast: ObjectIdCast): (r: Result<Reply>)
    ensures !Truthy(cookie) ==> r == Fail(Raise(ACCESS_REQUIRED, 401))
    ensures r.Fail? ==> r.thrown.ErrorObj? && r.thrown.cause.Some? && r.thrown.cause.value.status == Some(401)
    ensures r.Fail? ==> (r.thrown.cause.value.code == Some(ACCESS_TOKEN_EXPIRED)
                         <==> Truthy(cookie) && verify(cookie.value) == Expired)
    ensures r.Fail? ==> r.thrown.cause.value.code.None? || r.thrown.cause.value.code == Some(ACCESS_TOKEN_EXPIRED)
    ensures r.Ok? <==> Truthy(cookie) && verify(cookie.value).Verified?
                       && Truthy(verify(cookie.value).payload.sub)
                       && cast(verify(cookie.value).payload.sub.value).Some?
                       && cast(verify(cookie.value).payload.sub.value).value in users
    ensures r.Ok? ==> r.value == Reply(200, "Valid token",
                                       Some(ProfileOf(users[cast(verify(cookie.value).payload.sub.value).value])), [])
  {
    if !Truthy(cookie) then Fail(Raise(ACCESS_REQUIRED, 401))
    else
      match MeTry(users, verify(cookie.value), cast)
      case Ok(reply) => Ok(reply)
      case Fail(_) =>
        if verify(cookie.value) == Expired then Fail(RaiseCode(EXPIRED_ACCESS, 401, ACCESS_TOKEN_EXPIRED))
        else Fail(Raise(INVALID_ACCESS, 401))
  }

  /** The body of `me`'s `try` block, with what it throws: the verifier's own
      error, a 403 for a missing subject, the cast error for a subject that
      is not an ObjectId, a 404 for a missing user. */
  function MeTry(users: Users, verdict: Verdict, cast: ObjectIdCast): (r: Result<Reply>)
    ensures r.Ok? <==> verdict.Verified? && Truthy(verdict.payload.sub)
                       && cast(verdict.payload.sub.value).Some? && cast(verdict.payload.sub.value).value in users
    ensures verdict.Verified? && Truthy(verdict.payload.sub) && cast(verdict.payload.sub.value).None? ==>
              r == Fail(CAST_ERROR)
    ensures verdict.Verified? && Truthy(verdict.payload.sub) && cast(verdict.payload.sub.value).Some?
            && cast(verdict.payload.sub.value).value !in users ==>
              r == Fail(Raise("User not found", 404))
  {
    match verdict
    case Expired => Fail(ErrorObj("jwt expired", None))
    case Invalid => Fail(ErrorObj("invalid token", None))
    case Verified(p) =>
      if !Truthy(p.sub) then Fail(Raise("Invalid or expired access token.", 403))
      else
        match cast(p.sub.value)
        case None => Fail(CAST_ERROR)
        case Some(id) =>
          if id !in users then Fail(Raise("User not found", 404))
          else Ok(Reply(200, "Valid token", Some(ProfileOf(users[id])), []))
  }
}
