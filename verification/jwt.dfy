/** The JSON Web Token library as the core sees it. Signing and
    verification are oracles: `sign` turns claims into an opaque string and
    `verify` turns a string into a verdict. Expiry arithmetic inside the
    library is visible only through the `Expired` verdict. */
module Jwt {
  import opened Http

  /** What `jwt.sign(payload, secret, { expiresIn, subject })` writes into a
      token: the payload's roles, the subject, the issue time and the expiry
      (both in seconds). */
  datatype Claims = Claims(roles: seq<string>, sub: string, iat: int, exp: int)

  /** What `jwt.verify` hands back for a token that passes: the subject may
      be missing from a token minted elsewhere. */
  datatype Payload = Payload(sub: Option<string>, roles: seq<string>)

  /** `jwt.verify` returns a payload, or throws `TokenExpiredError`, or
      throws some other error (bad signature, malformed token, ...). */
  datatype Verdict = Verified(payload: Payload) | Expired | Invalid

  /** The verifier accepts, before its expiry, exactly what `sign` put into
      the token. This is an assumption about the library, used only by the
      scenarios that chain issuing and checking. */
  predicate Honest(sign: Claims -> string, verify: string -> Verdict, c: Claims) {
    verify(sign(c)) == Verified(Payload(Some(c.sub), c.roles))
  }
}
