/** Vocabulary shared by the auth service, the posts API and the client:
    optional values, JavaScript truthiness of optional strings, the
    `Error`-with-`cause` values the Express handlers throw, mongoose's
    ObjectId cast, and substring search as `String.prototype.includes`
    performs it. */
module Http {

  datatype Option<+T> = None | Some(value: T)

  /** A handler either produces a value or throws. */
  datatype Result<+T> = Ok(value: T) | Fail(thrown: Thrown)

  /** The `{ status, code? }` object the core passes as an error's `cause`. */
  datatype Cause = Cause(status: Option<int>, code: Option<string>)

  /** A thrown value: an `Error` (message, optional cause) or anything else. */
  datatype Thrown = ErrorObj(message: string, cause: Option<Cause>) | NonError

  /** The machine-readable code that marks an expired access token. */
  const ACCESS_TOKEN_EXPIRED: string := "ACCESS_TOKEN_EXPIRED"

  /** `new Error(message, { cause: { status } })`. */
  function Raise(message: string, status: int): Thrown
  {
    ErrorObj(message, Some(Cause(Some(status), None)))
  }

  /** `new Error(message, { cause: { status, code } })`. */
  function RaiseCode(message: string, status: int, code: string): Thrown
  {
    ErrorObj(message, Some(Cause(Some(status), Some(code))))
  }

  /** mongoose's cast of a string to an ObjectId, applied by every query by
      id: the canonical spelling of the id it denotes (several spellings may
      denote one id), or nothing when the string is not an ObjectId. */
  type ObjectIdCast = string -> Option<string>

  /** A query by an id that is not an ObjectId throws a cast error, an
      `Error` without a cause. */
  const CAST_ERROR: Thrown := ErrorObj("Cast to ObjectId failed", None)

  /** `!!x` for a value that is `undefined` or a string: the empty string is falsy. */
  predicate Truthy(s: Option<string>) {
    s.Some? && s.value != ""
  }

  /** `sub` occurs in `s` starting at position `i`. */
  predicate OccursAt(s: string, sub: string, i: int) {
    0 <= i <= |s| - |sub| && s[i..i + |sub|] == sub
  }

  /** `s.includes(sub)`. */
  predicate Contains(s: string, sub: string) {
    exists i | 0 <= i <= |s| :: OccursAt(s, sub, i)
  }
}
