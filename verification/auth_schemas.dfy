/** The request-body schemas of the auth service: what `registerSchema`,
    `loginSchema` and `userSchema` accept and what they hand on. The email
    check (trim, then format) belongs to the validation library and is an
    oracle that yields the normalised address or nothing. */
module AuthSchemas {
  import opened Http

  /** A JSON value in a request body, as far as these schemas tell values apart. */
  datatype Json = JString(s: string) | JOther

  /** A parsed JSON object body. */
  type Body = map<string, Json>

  /** The email schema: `z.string().trim().email()`. */
  type EmailSchema = string -> Option<string>

  const MIN_PASSWORD: nat := 12
  const MAX_PASSWORD: nat := 512
  const MIN_NAME: nat := 1
  const MAX_NAME: nat := 50

  /** The characters of the special-character class of the register password rule. */
  const SPECIAL_CHARS: string := "!@#$%^&*()_+-=[]{}|;:'\",.<>/?`~"

  /** The keys `registerSchema` admits; being strict, it rejects any other. */
  const REGISTER_KEYS: set<string> := {"email", "password", "confirmPassword", "firstName", "lastName"}

  /** The keys `userSchema` admits: the register keys without `confirmPassword`. */
  const USER_KEYS: set<string> := {"email", "password", "firstName", "lastName"}

  /** `s.length` in JavaScript counts UTF-16 code units: a character outside
      the Basic Multilingual Plane counts twice. */
  function Utf16Length(s: string): (n: nat)
    ensures |s| <= n <= 2 * |s|
  {
    if s == [] then 0
    else (if s[0] as int > 0xFFFF then 2 else 1) + Utf16Length(s[1..])
  }

  /** `.min(lo).max(hi)` on a string. */
  predicate LengthWithin(s: string, lo: nat, hi: nat) {
    lo <= Utf16Length(s) <= hi
  }

  predicate HasLower(p: string) { exists i :: 0 <= i < |p| && 'a' <= p[i] <= 'z' }
  predicate HasUpper(p: string) { exists i :: 0 <= i < |p| && 'A' <= p[i] <= 'Z' }
  predicate HasDigit(p: string) { exists i :: 0 <= i < |p| && '0' <= p[i] <= '9' }
  predicate HasSpecial(p: string) { exists i :: 0 <= i < |p| && p[i] in SPECIAL_CHARS }

  /** The base password rule shared by login and register. */
  predicate BasePassword(p: string) {
    LengthWithin(p, MIN_PASSWORD, MAX_PASSWORD)
  }

  /** The register password rule: the base rule plus four character classes. */
  predicate StrongPassword(p: string) {
    BasePassword(p) && HasLower(p) && HasUpper(p) && HasDigit(p) && HasSpecial(p)
  }

  /** The string under key `k`, if the key is present with a string value. */
  function StringAt(b: Body, k: string): Option<string> {
    if k in b && b[k].JString? then Some(b[k].s) else None
  }

  /** `z.string().min(1).max(50).optional()` on key `k`. */
  predicate NameOk(b: Body, k: string) {
    k !in b || (b[k].JString? && LengthWithin(b[k].s, MIN_NAME, MAX_NAME))
  }

  datatype RegisterDto = RegisterDto(
    email: string, password: string, confirmPassword: string,
    firstName: Option<string>, lastName: Option<string>)

  datatype LoginDto = LoginDto(email: string, password: string)

  datatype UserDto = UserDto(
    email: string, password: string, firstName: Option<string>, lastName: Option<string>)

  /** Every rule of `registerSchema`, listed one by one. */
  predicate RegisterAccepts(b: Body, email: EmailSchema) {
    && b.Keys <= REGISTER_KEYS
    && StringAt(b, "email").Some? && email(StringAt(b, "email").value).Some?
    && StringAt(b, "password").Some? && StrongPassword(StringAt(b, "password").value)
    && StringAt(b, "confirmPassword").Some?
    && NameOk(b, "firstName") && NameOk(b, "lastName")
    && StringAt(b, "confirmPassword") == StringAt(b, "password")
  }

  /** The email field: present, a string, and passing the email schema. */
  function ParseEmail(b: Body, email: EmailSchema): Option<string> {
    match StringAt(b, "email")
    case None => None
    case Some(raw) => email(raw)
  }

  /** `registerSchema.safeParse(b)`: the shape check field by field, then
      strictness, then the confirm refinement. */
  function ParseRegister(b: Body, email: EmailSchema): (r: Option<RegisterDto>)
    ensures r.Some? <==> RegisterAccepts(b, email)
    ensures r.Some? ==> r.value.password == r.value.confirmPassword
    ensures r.Some? ==> StrongPassword(r.value.password) && Some(r.value.password) == StringAt(b, "password")
    ensures r.Some? ==> email(b["email"].s) == Some(r.value.email)
    ensures r.Some? ==> r.value.firstName == StringAt(b, "firstName") && r.value.lastName == StringAt(b, "lastName")
  {
    var e := ParseEmail(b, email);
    var pw := StringAt(b, "password");
    var confirm := StringAt(b, "confirmPassword");
    if e.None? || pw.None? || !StrongPassword(pw.value) || confirm.None? then None
    else if !NameOk(b, "firstName") || !NameOk(b, "lastName") then None
    else if !(b.Keys <= REGISTER_KEYS) then None
    else if pw.value != confirm.value then None
    else Some(RegisterDto(e.value, pw.value, confirm.value, StringAt(b, "firstName"), StringAt(b, "lastName")))
  }

  /** `loginSchema.safeParse(b)`: not strict, so unknown keys are dropped;
      the password gets only the base rule. */
  function ParseLogin(b: Body, email: EmailSchema): (r: Option<LoginDto>)
    ensures r.Some? <==> ParseEmail(b, email).Some? && StringAt(b, "password").Some?
                          && BasePassword(StringAt(b, "password").value)
    ensures r.Some? ==> Some(r.value.password) == StringAt(b, "password")
                        && Some(r.value.email) == ParseEmail(b, email)
  {
    var e := ParseEmail(b, email);
    var pw := StringAt(b, "password");
    if e.None? || pw.None? || !BasePassword(pw.value) then None
    else Some(LoginDto(e.value, pw.value))
  }

  /** `registerSchema.omit({ confirmPassword: true })`: the same strict
      object without the confirmation key and without its refinement. */
  function ParseUser(b: Body, email: EmailSchema): (r: Option<UserDto>)
    ensures r.Some? ==> b.Keys <= USER_KEYS && StrongPassword(r.value.password)
    ensures r.Some? ==> Some(r.value.password) == StringAt(b, "password")
                        && Some(r.value.email) == ParseEmail(b, email)
  {
    var e := ParseEmail(b, email);
    var pw := StringAt(b, "password");
    if e.None? || pw.None? || !StrongPassword(pw.value) then None
    else if !NameOk(b, "firstName") || !NameOk(b, "lastName") then None
    else if !(b.Keys <= USER_KEYS) then None
    else Some(UserDto(e.value, pw.value, StringAt(b, "firstName"), StringAt(b, "lastName")))
  }

  /** Whatever register accepts, login accepts too, with the same email and
      password: the login rules are a subset of the register rules. */
  lemma RegisterBodyPassesLogin(b: Body, email: EmailSchema)
    requires ParseRegister(b, email).Some?
    ensures ParseLogin(b, email).Some?
    ensures ParseLogin(b, email).value.email == ParseRegister(b, email).value.email
    ensures ParseLogin(b, email).value.password == ParseRegister(b, email).value.password
  {
  }

  /** A register body whose confirmation differs from its password is
      rejected, whatever else it holds. */
  lemma ConfirmMismatchRejected(b: Body, email: EmailSchema)
    requires StringAt(b, "confirmPassword") != StringAt(b, "password")
    ensures ParseRegister(b, email).None?
  {
  }

  /** `userSchema` accepts exactly the bodies that, once the password is
      echoed under `confirmPassword`, `registerSchema` accepts. */
  lemma UserIsRegisterWithoutConfirm(b: Body, email: EmailSchema)
    requires "confirmPassword" !in b
    requires StringAt(b, "password").Some?
    ensures ParseUser(b, email).Some?
            <==> ParseRegister(b["confirmPassword" := JString(StringAt(b, "password").value)], email).Some?
  {
    var b' := b["confirmPassword" := JString(StringAt(b, "password").value)];
    assert StringAt(b', "password") == StringAt(b, "password");
    assert StringAt(b', "email") == StringAt(b, "email");
    assert NameOk(b', "firstName") == NameOk(b, "firstName");
    assert NameOk(b', "lastName") == NameOk(b, "lastName");
    assert b'.Keys == b.Keys + {"confirmPassword"};
    assert b'.Keys <= REGISTER_KEYS <==> b.Keys <= USER_KEYS;
  }

  /** A password of 12 to 512 lower-case letters passes login validation,
      and a register body built from it is rejected even with a matching
      confirmation: login checks only the length. */
  lemma LoginAcceptsWeakPassword(e: string, p: string, email: EmailSchema)
    requires email(e).Some?
    requires MIN_PASSWORD <= |p| <= MAX_PASSWORD
    requires forall i :: 0 <= i < |p| ==> 'a' <= p[i] <= 'z'
    ensures ParseLogin(map["email" := JString(e), "password" := JString(p)], email).Some?
    ensures ParseRegister(map["email" := JString(e), "password" := JString(p),
                              "confirmPassword" := JString(p)], email).None?
  {
    var b := map["email" := JString(e), "password" := JString(p)];
    assert StringAt(b, "password") == Some(p);
    assert ParseEmail(b, email) == email(e);
    assert BasePassword(p) by { Utf16LengthBmp(p); }
    var b' := b["confirmPassword" := JString(p)];
    assert StringAt(b', "password") == Some(p);
    assert !StrongPassword(p);
  }

  /** On text without characters beyond the Basic Multilingual Plane, the
      JavaScript length equals the number of characters. */
  lemma {:induction false} Utf16LengthBmp(s: string)
    requires forall i :: 0 <= i < |s| ==> s[i] as int <= 0xFFFF
    ensures Utf16Length(s) == |s|
  {
    if s != [] {
      Utf16LengthBmp(s[1..]);
    }
  }
}
