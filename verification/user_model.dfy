/** The `User` document of the auth service and the user table: records
    keyed by id, with the unique index on `email`. */
module UserModel {
  import opened Http

  /** A user id, as `_id.toString()` spells it. */
  type UserId = string

  /** A stored user. `password` holds the hash. There is a creation stamp and
      deliberately no update stamp. */
  datatype User = User(
    id: UserId,
    email: string,
    password: string,
    roles: seq<string>,
    firstName: Option<string>,
    lastName: Option<string>,
    createdAt: int)

  /** The roles a user gets when none are supplied. */
  const DEFAULT_ROLES: seq<string> := ["user"]

  /** The message of the validation error for a missing required path. */
  const USER_VALIDATION_FAILED: string := "User validation failed"

  /** A required string path is satisfied only by a non-empty string. */
  predicate Required(s: string) { s != "" }

  /** `User.create(fields)`: validation of the required paths, the roles
      default, and the creation stamp. A validation failure is an `Error`
      without a cause. */
  function CreateUser(
    id: UserId, email: string, password: string, roles: Option<seq<string>>,
    firstName: Option<string>, lastName: Option<string>, now: int): (r: Result<User>)
    ensures r.Ok? <==> Required(email) && Required(password)
    ensures r.Fail? ==> r.thrown.ErrorObj? && r.thrown.cause.None?
    ensures r.Ok? ==> r.value.id == id && r.value.email == email && r.value.password == password
                      && r.value.firstName == firstName && r.value.lastName == lastName
                      && r.value.createdAt == now
    ensures r.Ok? && roles.None? ==> r.value.roles == ["user"]
    ensures r.Ok? && roles.Some? ==> r.value.roles == roles.value
  {
    if !Required(email) || !Required(password) then Fail(ErrorObj(USER_VALIDATION_FAILED, None))
    else
      var rs := match roles case Some(given) => given case None => DEFAULT_ROLES;
      Ok(User(id, email, password, rs, firstName, lastName, now))
  }

  type Users = map<UserId, User>

  /** Each record sits under its own id. */
  predicate WellKeyed(users: Users) {
    forall id :: id in users ==> users[id].id == id
  }

  /** The unique index on `email`: no two users share an address. */
  predicate UniqueEmails(users: Users) {
    forall a, b :: a in users && b in users && users[a].email == users[b].email ==> a == b
  }

  predicate ValidUsers(users: Users) {
    WellKeyed(users) && UniqueEmails(users)
  }

  /** `User.exists({ email })`. */
  predicate EmailTaken(users: Users, email: string) {
    exists id :: id in users && users[id].email == email
  }

  /** `User.findOne({ email })`; the unique index makes the answer unique. */
  function FindByEmail(users: Users, email: string): (r: Option<User>)
    requires UniqueEmails(users)
    ensures r.Some? <==> EmailTaken(users, email)
    ensures r.Some? ==> r.value.email == email
    ensures r.Some? ==> forall id :: id in users && users[id].email == email ==> users[id] == r.value
  {
    if EmailTaken(users, email) then
      var id :| id in users && users[id].email == email;
      Some(users[id])
    else None
  }

  /** Adding a user under a fresh id with an unused address keeps the table
      well keyed and the addresses unique. */
  lemma AddUserKeepsValid(users: Users, u: User)
    requires ValidUsers(users)
    requires u.id !in users && !EmailTaken(users, u.email)
    ensures ValidUsers(users[u.id := u])
  {
    var users' := users[u.id := u];
    assert forall id :: id in users ==> users[id].email != u.email;
    assert forall id :: id in users' && id != u.id ==> users'[id] == users[id];
  }
}
