/** Properties of the auth handlers that relate the store before and after,
    or chain several requests: the store invariant, single-use rotation of
    refresh tokens, and revocation on logout. */
module Sessions {
  import opened Http
  import opened Jwt
  import opened UserModel
  import opened RefreshTokens
  import opened AuthUtils
  import opened AuthSchemas
  import opened AuthController

  /** Register keeps the store valid; on success exactly one user and exactly
      one refresh token, owned by that user, are added. */
  lemma RegisterKeepsValid(s: Store, body: RegisterDto, env: Env, cfg: Config, sign: Claims -> string)
    requires Valid(s) && FreshIn(env, s)
    ensures Valid(Register(s, body, env, cfg, sign).store)
    ensures var r := Register(s, body, env, cfg, sign);
            r.outcome.Ok? ==>
              && |r.store.users| == |s.users| + 1
              && |r.store.tokens| == |s.tokens| + 1
              && CountOf(r.store.tokens, env.newUserId) == CountOf(s.tokens, env.newUserId) + 1
              && r.store.users[env.newUserId].email == body.email
  {
    var r := Register(s, body, env, cfg, sign);
    if r.outcome.Ok? {
      var u := r.store.users[env.newUserId];
      AddUserKeepsValid(s.users, u);
      assert r.store.users == s.users[env.newUserId := u];
      AppendRecord(s.tokens, TokenRecord(env.uuid, env.newUserId));
    }
  }

  /** Login keeps the store valid. */
  lemma LoginKeepsValid(s: Store, body: LoginDto, env: Env, cfg: Config, sign: Claims -> string,
                        compare: (string, string) -> bool)
    requires Valid(s) && !HasToken(s.tokens, env.uuid)
    ensures Valid(Login(s, body, env, cfg, sign, compare).store)
  {
    var r := Login(s, body, env, cfg, sign, compare);
    if r.outcome.Ok? {
      var u := FindByEmail(s.users, body.email).value;
      var kept := DeleteMany(s.tokens, u.id);
      DeleteManyUnique(s.tokens, u.id);
      DeleteManyKeepsAbsent(s.tokens, u.id, env.uuid);
      AppendRecord(kept, TokenRecord(env.uuid, u.id));
    }
  }

  /** Refresh keeps the store valid. */
  lemma RefreshKeepsValid(s: Store, cookie: Option<string>, env: Env, cfg: Config, sign: Claims -> string)
    requires Valid(s) && !HasToken(s.tokens, env.uuid)
    ensures Valid(Refresh(s, cookie, env, cfg, sign).store)
  {
    if Truthy(cookie) && HasToken(s.tokens, cookie.value) {
      var i := FindToken(s.tokens, cookie.value).value;
      var owner := s.tokens[i].userId;
      RemoveAtUnique(s.tokens, i);
      RemoveAtKeepsAbsent(s.tokens, i, env.uuid);
      if owner in s.users {
        AppendRecord(RemoveAt(s.tokens, i), TokenRecord(env.uuid, s.users[owner].id));
      }
    }
  }

  /** Logout keeps the store valid. */
  lemma LogoutKeepsValid(s: Store, cookie: Option<string>)
    requires Valid(s)
    ensures Valid(Logout(s, cookie).store)
  {
    if Truthy(cookie) {
      DeleteOneAtMostOne(s.tokens, cookie.value);
    }
  }

  /** A presented token that is on record is gone after refresh, whether the
      refresh then succeeds or fails because its owner no longer exists. */
  lemma RefreshConsumesToken(s: Store, cookie: Option<string>, env: Env, cfg: Config, sign: Claims -> string)
    requires UniqueTokens(s.tokens)
    requires Truthy(cookie) && HasToken(s.tokens, cookie.value)
    requires env.uuid != cookie.value
    ensures !HasToken(Refresh(s, cookie, env, cfg, sign).store.tokens, cookie.value)
  {
    var i := FindToken(s.tokens, cookie.value).value;
    var owner := s.tokens[i].userId;
    RemoveAtUnique(s.tokens, i);
    if owner in s.users {
      var rest := RemoveAt(s.tokens, i);
      var after := rest + [TokenRecord(env.uuid, s.users[owner].id)];
      forall j | 0 <= j < |after| ensures after[j].token != cookie.value {
        if j < |rest| { assert after[j] == rest[j]; }
      }
    }
  }

  /** A successful refresh is a rotation: the owner keeps the same number of
      sessions, the presented token is replaced by the new one, and no other
      user's sessions change. */
  lemma RefreshRotates(s: Store, cookie: Option<string>, env: Env, cfg: Config, sign: Claims -> string)
    requires Valid(s) && !HasToken(s.tokens, env.uuid)
    requires Refresh(s, cookie, env, cfg, sign).outcome.Ok?
    ensures var r := Refresh(s, cookie, env, cfg, sign);
            var owner := s.tokens[FindToken(s.tokens, cookie.value).value].userId;
            && |r.store.tokens| == |s.tokens|
            && !HasToken(r.store.tokens, cookie.value)
            && TokenRecord(env.uuid, owner) in r.store.tokens
            && (forall v :: CountOf(r.store.tokens, v) == CountOf(s.tokens, v))
  {
    var i := FindToken(s.tokens, cookie.value).value;
    var owner := s.tokens[i].userId;
    var rest := RemoveAt(s.tokens, i);
    var r := Refresh(s, cookie, env, cfg, sign);
    assert s.users[owner].id == owner;
    assert r.store.tokens == rest + [TokenRecord(env.uuid, owner)];
    assert r.store.tokens[|rest|] == TokenRecord(env.uuid, owner);
    RefreshConsumesToken(s, cookie, env, cfg, sign);
    forall v ensures CountOf(r.store.tokens, v) == CountOf(s.tokens, v) {
      CountRemoveAt(s.tokens, i, v);
      CountAppend(rest, TokenRecord(env.uuid, owner), v);
    }
  }

  /** Replaying a refresh token after it was redeemed fails with 403 and
      changes nothing. */
  lemma RefreshIsSingleUse(s: Store, cookie: Option<string>, env: Env, env': Env, cfg: Config,
                           sign: Claims -> string)
    requires UniqueTokens(s.tokens) && !HasToken(s.tokens, env.uuid)
    requires Refresh(s, cookie, env, cfg, sign).outcome.Ok?
    ensures var s' := Refresh(s, cookie, env, cfg, sign).store;
            Refresh(s', cookie, env', cfg, sign) == Step(Fail(Raise(REFRESH_NOT_FOUND, 403)), s')
  {
    assert Truthy(cookie) && HasToken(s.tokens, cookie.value);
    RefreshConsumesToken(s, cookie, env, cfg, sign);
  }

  /** Logout with a token on record revokes exactly that session: the token
      is gone, one record fewer remains, and every other record stays. */
  lemma LogoutRevokesOne(s: Store, cookie: Option<string>)
    requires UniqueTokens(s.tokens)
    requires Truthy(cookie) && HasToken(s.tokens, cookie.value)
    ensures var after := Logout(s, cookie).store.tokens;
            && !HasToken(after, cookie.value)
            && |after| == |s.tokens| - 1
            && (forall x :: x in s.tokens && x.token != cookie.value ==> x in after)
  {
    var i :| 0 <= i < |s.tokens| && s.tokens[i].token == cookie.value
             && DeleteOne(s.tokens, cookie.value) == RemoveAt(s.tokens, i);
    var after := RemoveAt(s.tokens, i);
    DeleteOneAtMostOne(s.tokens, cookie.value);
    forall x | x in s.tokens && x.token != cookie.value ensures x in after {
      var k :| 0 <= k < |s.tokens| && s.tokens[k] == x;
      if k < i { assert after[k] == x; } else { assert k > i; assert after[k - 1] == x; }
    }
  }

  /** The refresh cookie register sets names the session it just recorded:
      the last record carries the cookie's token and the new user's id, and
      `findOne` on that token finds it. */
  lemma RegisterCookieNamesSession(s: Store, body: RegisterDto, env: Env, cfg: Config, sign: Claims -> string)
    requires FreshIn(env, s)
    ensures var r := Register(s, body, env, cfg, sign);
            r.outcome.Ok? ==>
              var c := r.outcome.value.cookies[0];
              && c.name == REFRESH_COOKIE
              && r.store.tokens[|r.store.tokens| - 1] == TokenRecord(c.value, env.newUserId)
              && HasToken(r.store.tokens, c.value)
              && r.store.tokens[FindToken(r.store.tokens, c.value).value].userId == env.newUserId
  {
    FindAppendedFresh(s.tokens, TokenRecord(env.uuid, env.newUserId));
  }

  /** The refresh cookie login sets names the session it just recorded, for
      the user who logged in. */
  lemma LoginCookieNamesSession(s: Store, body: LoginDto, env: Env, cfg: Config, sign: Claims -> string,
                                compare: (string, string) -> bool)
    requires UniqueEmails(s.users) && !HasToken(s.tokens, env.uuid)
    ensures var r := Login(s, body, env, cfg, sign, compare);
            r.outcome.Ok? ==>
              var c := r.outcome.value.cookies[0];
              var u := FindByEmail(s.users, body.email).value;
              && c.name == REFRESH_COOKIE
              && r.store.tokens[|r.store.tokens| - 1] == TokenRecord(c.value, u.id)
              && HasToken(r.store.tokens, c.value)
              && r.store.tokens[FindToken(r.store.tokens, c.value).value].userId == u.id
  {
    var r := Login(s, body, env, cfg, sign, compare);
    if r.outcome.Ok? {
      var u := FindByEmail(s.users, body.email).value;
      DeleteManyKeepsAbsent(s.tokens, u.id, env.uuid);
      FindAppendedFresh(DeleteMany(s.tokens, u.id), TokenRecord(env.uuid, u.id));
    }
  }

  /** The refresh cookie a successful refresh sets names the session it just
      recorded, for the owner of the redeemed token. */
  lemma RefreshCookieNamesSession(s: Store, cookie: Option<string>, env: Env, cfg: Config, sign: Claims -> string)
    requires Valid(s) && !HasToken(s.tokens, env.uuid)
    ensures var r := Refresh(s, cookie, env, cfg, sign);
            r.outcome.Ok? ==>
              var c := r.outcome.value.cookies[0];
              var owner := s.tokens[FindToken(s.tokens, cookie.value).value].userId;
              && c.name == REFRESH_COOKIE
              && r.store.tokens[|r.store.tokens| - 1] == TokenRecord(c.value, owner)
              && HasToken(r.store.tokens, c.value)
              && r.store.tokens[FindToken(r.store.tokens, c.value).value].userId == owner
  {
    var r := Refresh(s, cookie, env, cfg, sign);
    if r.outcome.Ok? {
      var i := FindToken(s.tokens, cookie.value).value;
      var owner := s.tokens[i].userId;
      assert s.users[owner].id == owner;
      RemoveAtKeepsAbsent(s.tokens, i, env.uuid);
      FindAppendedFresh(RemoveAt(s.tokens, i), TokenRecord(env.uuid, owner));
    }
  }
}
