/** Token issuing and cookie setting of the auth service. */
module AuthUtils {
  import opened Http
  import opened Jwt
  import opened UserModel
  import opened RefreshTokens

  /** The environment-derived settings the utilities read: the access-token
      lifetime and the refresh-token lifetime (both in seconds), and whether
      `NODE_ENV` is `production`. */
  datatype Config = Config(accessTtl: int, refreshTtl: int, isProduction: bool)

  /** The outcome of `createTokens`: the collection after the insert, the
      pair `[refreshToken, accessToken]` and the claims that were signed. */
  datatype Issued = Issued(tokens: Tokens, pair: (string, string), claims: Claims)

  /** `createTokens(user)` at time `now` (seconds), with `uuid` the value
      `randomUUID()` produced and `sign` standing for `jwt.sign` with the
      service's secret. */
  function CreateTokens(tokens: Tokens, user: User, uuid: string, now: int, cfg: Config,
                        sign: Claims -> string): (r: Issued)
    ensures |r.tokens| == |tokens| + 1 && r.tokens[..|tokens|] == tokens
    ensures r.tokens[|tokens|] == TokenRecord(r.pair.0, user.id)
    ensures CountOf(r.tokens, user.id) == CountOf(tokens, user.id) + 1
    ensures forall v :: v != user.id ==> CountOf(r.tokens, v) == CountOf(tokens, v)
    ensures UniqueTokens(tokens) && !HasToken(tokens, uuid) ==> UniqueTokens(r.tokens)
    ensures r.pair.0 == uuid && r.pair.1 == sign(r.claims)
    ensures r.claims.roles == user.roles && r.claims.sub == user.id
    ensures r.claims.iat == now && r.claims.exp == now + cfg.accessTtl
  {
    var record := TokenRecord(uuid, user.id);
    AppendRecord(tokens, record);
    var claims := Claims(user.roles, user.id, now, now + cfg.accessTtl);
    Issued(tokens + [record], (uuid, sign(claims)), claims)
  }

  /** Inserting one record: one more session for its owner, the same number
      for everyone else, and unique tokens stay unique when the new token is
      fresh. */
  lemma AppendRecord(tokens: Tokens, x: TokenRecord)
    ensures (tokens + [x])[..|tokens|] == tokens
    ensures CountOf(tokens + [x], x.userId) == CountOf(tokens, x.userId) + 1
    ensures forall v :: v != x.userId ==> CountOf(tokens + [x], v) == CountOf(tokens, v)
    ensures UniqueTokens(tokens) && !HasToken(tokens, x.token) ==> UniqueTokens(tokens + [x])
  {
    assert (tokens + [x])[..|tokens|] == tokens;
    CountAppend(tokens, x, x.userId);
    forall v | v != x.userId ensures CountOf(tokens + [x], v) == CountOf(tokens, v) {
      CountAppend(tokens, x, v);
    }
    if UniqueTokens(tokens) && !HasToken(tokens, x.token) {
      AppendFreshUnique(tokens, x);
    }
  }

  datatype SameSite = Lax | SameSiteNone

  datatype CookieOptions = CookieOptions(httpOnly: bool, sameSite: SameSite, secure: bool, maxAge: Option<int>)

  /** `res.cookie(name, value, options)` or `res.clearCookie(name)`. */
  datatype CookieOp = SetCookie(name: string, value: string, options: CookieOptions) | ClearCookie(name: string)

  const REFRESH_COOKIE: string := "refreshToken"
  const ACCESS_COOKIE: string := "accessToken"

  /** `setAuthCookies(res, refreshToken, accessToken)`: the refresh cookie
      lives for the refresh lifetime, converted to milliseconds; the access
      cookie is a session cookie. */
  function SetAuthCookies(cfg: Config, refreshToken: string, accessToken: string): (r: seq<CookieOp>)
    ensures |r| == 2 && r[0].SetCookie? && r[1].SetCookie?
    ensures r[0].name == REFRESH_COOKIE && r[0].value == refreshToken
    ensures r[1].name == ACCESS_COOKIE && r[1].value == accessToken
    ensures forall i :: 0 <= i < |r| ==>
              && r[i].options.httpOnly
              && (r[i].options.secure <==> cfg.isProduction)
              && (r[i].options.sameSite == SameSiteNone <==> cfg.isProduction)
              && (r[i].options.sameSite == Lax <==> !cfg.isProduction)
    ensures r[0].options.maxAge == Some(cfg.refreshTtl * 1000)
    ensures r[1].options.maxAge.None?
  {
    var base := CookieOptions(true, if cfg.isProduction then SameSiteNone else Lax, cfg.isProduction, None);
    [ SetCookie(REFRESH_COOKIE, refreshToken, base.(maxAge := Some(cfg.refreshTtl * 1000))),
      SetCookie(ACCESS_COOKIE, accessToken, base) ]
  }
}
