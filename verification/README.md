# travelJournal sessions and authorization, modelled in Dafny

This project models the travel-journal application's session and authorization core, which spans three programs:

- **The auth service.** It registers users, logs them in and out, rotates refresh tokens and answers `me`. Its store has two parts: a user table with a unique index on `email`, and a collection of refresh-token records `{ token, userId }`. `register`, `login`, `refresh` and `logout` are pure functions from the store and a request to an outcome and the store afterwards; `me` only reads the user table and returns an outcome.
- **The posts API.** Here `authenticate` classifies the access-token cookie and `hasRole(...)` applies the role and ownership rules. The five post handlers work over a map from id to post, and `errorHandler` maps a thrown error to a status, a body and the `WWW-Authenticate` challenge.
- **The client.** Its `fetch` wrapper sees the expiry challenge, calls the refresh endpoint once and replays the request once.

Cryptography and libraries become parameters:

- `bcrypt.compare` is the parameter `compare`.
- `jwt.sign` and `jwt.verify` are `sign` and `verify`. The verifier answers with a verdict: `Verified(payload)`, `Expired` or `Invalid`.
- The email schema (trim, then format) is `EmailSchema`.
- mongoose's cast of a string to an ObjectId is `cast`. It gives the canonical spelling of the id a string denotes, or nothing for a string that is not an ObjectId; several spellings may denote one id. `isValidObjectId` accepts exactly the strings `cast` converts. Posts and users are stored under their canonical ids. Every query by id goes through `cast`: the post lookups and deletes by a route's id, and `me`'s user lookup by the token's subject. A post's author is stored in canonical form.

Randomness and time come in with each request as `Env`:

- the clock, in seconds;
- the value `randomUUID()` returns;
- the id the database assigns to a new user;
- the bcrypt hash of the submitted password.

`FreshIn` states the one assumption made about these values: the UUID is not yet a token in the collection, and the new id is not yet a user.

The client's network is a function from the call number and the call to how that call settles.

Two behaviours differ from what the source's comments and its thrown statuses suggest. The model follows what the code does:

- A verified access token without a subject is answered with 401, not 403. This holds in both `authenticate` and `me`.
- A `me` for a user who no longer exists is also answered with 401, not 404.

In each case the 403 or 404 is thrown inside the `try` block and replaced by the `catch`.

Modules, one per source file:

- `Http`: shared vocabulary.
- `Jwt`: the token oracles.
- `UserModel`: `auth/src/models/User.ts`.
- `RefreshTokens`: the refresh-token collection, a sequence in the collection's natural order.
- `AuthSchemas`: `auth/src/schemas/auth.schemas.ts`.
- `AuthUtils`: `auth/src/utils/index.ts`.
- `AuthController`: `auth/src/controllers/auth.controller.ts`.
- `Sessions`: multi-step properties of the auth service.
- `AuthenticateMiddleware`, `HasRoleMiddleware`, `ErrorHandler`, `Posts`: the posts API.
- `PostsRoutes`: the middleware chains of `api/src/routes/postsRouter.ts`.
- `FetchInterceptor`: the client wrapper.
- `Scenario`: properties that span the three programs.

## Model

| member | source | states |
|---|---|---|
| `UserModel.CreateUser` | auth/src/models/User.ts:3-24 | creation succeeds exactly when email and password hash are non-empty; a failure is an error without a cause; the record keeps the given fields, stamps `createdAt` with the clock and defaults `roles` to `["user"]` when none are given |
| `UserModel.FindByEmail` | auth/src/models/User.ts:7-11 | under the unique index, the lookup finds a user exactly when the address is taken, and the user it returns is every user with that address |
| `UserModel.AddUserKeepsValid` | auth/src/models/User.ts:7-11 | adding a user under a fresh id with an unused address keeps the table keyed by id and the addresses unique |
| `RefreshTokens.FindToken` | auth/src/controllers/auth.controller.ts:79 | `findOne` by token: absent exactly when no record carries the token, otherwise the position of the first record that does |
| `RefreshTokens.RemoveAt` | auth/src/controllers/auth.controller.ts:87 | deleting the found record removes that position only; records before it keep their place and the rest shift down by one |
| `RefreshTokens.DeleteMany` | auth/src/controllers/auth.controller.ts:59 | after `deleteMany({ userId })` the user owns no session, every other user owns as many as before, and a record remains exactly when it was there and is not the user's |
| `RefreshTokens.DeleteManyUnique` | auth/src/controllers/auth.controller.ts:59 | `deleteMany` keeps token strings unique |
| `RefreshTokens.DeleteManyKeepsAbsent` | auth/src/controllers/auth.controller.ts:59 | `deleteMany` introduces no token |
| `RefreshTokens.DeleteOne` | auth/src/controllers/auth.controller.ts:112 | `deleteOne` by token leaves the collection alone when no record matches; otherwise it removes exactly one record, the first that carries the token, and the collection shrinks by one |
| `RefreshTokens.DeleteOneAtMostOne` | auth/src/controllers/auth.controller.ts:112 | on unique tokens, no record carries the token after `deleteOne`, and tokens stay unique |
| `RefreshTokens.CountAppend` | auth/src/utils/index.ts:17-20 | inserting a record adds one session to its owner and none to anyone else |
| `RefreshTokens.CountRemoveAt` | auth/src/controllers/auth.controller.ts:87 | deleting a record takes one session from its owner and none from anyone else |
| `RefreshTokens.RemoveAtUnique` | auth/src/controllers/auth.controller.ts:87 | on unique tokens, deleting the record of a token leaves no record with that token and keeps uniqueness |
| `RefreshTokens.RemoveAtKeepsAbsent` | auth/src/controllers/auth.controller.ts:87 | deleting a record introduces no token |
| `RefreshTokens.FindAppendedFresh` | auth/src/utils/index.ts:15-20 | after a record with a fresh token is inserted, `findOne` on that token finds exactly that record |
| `RefreshTokens.AppendFreshUnique` | auth/src/utils/index.ts:15-20 | inserting a record whose token is not yet present keeps tokens unique and makes the token present |
| `AuthUtils.CreateTokens` | auth/src/utils/index.ts:13-30 | one record `{ uuid, user id }` is appended and nothing else in the collection changes; the owner gains one session and others none; a fresh UUID keeps tokens unique; the pair is `[uuid, signed claims]`; the claims carry the user's roles, subject = user id, issue time = now, expiry = now + access lifetime |
| `AuthUtils.AppendRecord` | auth/src/utils/index.ts:15-20 | inserting one record keeps the prefix, adds one session to its owner only, and keeps tokens unique when the new token is fresh |
| `AuthUtils.SetAuthCookies` | auth/src/utils/index.ts:32-46 | two cookies, refresh then access, both httpOnly; `secure` and `sameSite=none` exactly in production, `lax` otherwise; the refresh cookie's `maxAge` is exactly the refresh lifetime times 1000 (seconds to milliseconds), and the access cookie has none |
| `AuthSchemas.Utf16Length` | auth/src/schemas/auth.schemas.ts:9-10 | the JavaScript length is at least the number of characters and at most twice it |
| `AuthSchemas.Utf16LengthBmp` | auth/src/schemas/auth.schemas.ts:9-10 | on text within the Basic Multilingual Plane the JavaScript length equals the number of characters |
| `AuthSchemas.ParseRegister` | auth/src/schemas/auth.schemas.ts:14-32 | a register body is accepted exactly when every rule holds: only the five known keys; an email that passes the email schema; a password of length 12 to 512 with a lower-case letter, an upper-case letter, a digit and a listed special character; a string confirmation equal to the password; optional names of length 1 to 50. The accepted fields are those of the body |
| `AuthSchemas.ParseLogin` | auth/src/schemas/auth.schemas.ts:34-37 | a login body is accepted exactly when its email passes and its password has length 12 to 512; no character classes are required and unknown keys are ignored |
| `AuthSchemas.ParseUser` | auth/src/schemas/auth.schemas.ts:39 | an accepted user body has only the four user keys and a password that meets the register rule, and the email and password it yields are those of the body |
| `AuthSchemas.RegisterBodyPassesLogin` | auth/src/schemas/auth.schemas.ts:7-37 | every body register accepts is accepted by login with the same email and password |
| `AuthSchemas.ConfirmMismatchRejected` | auth/src/schemas/auth.schemas.ts:32 | a confirmation that differs from the password is rejected, whatever else the body holds |
| `AuthSchemas.UserIsRegisterWithoutConfirm` | auth/src/schemas/auth.schemas.ts:39 | the user schema accepts a body exactly when the register schema accepts it with the password echoed as the confirmation |
| `AuthSchemas.LoginAcceptsWeakPassword` | auth/src/schemas/auth.schemas.ts:34-37 | any password of 12 to 512 lower-case letters passes login validation, while a register body with that password is rejected even with a matching confirmation |
| `AuthController.Register` | auth/src/controllers/auth.controller.ts:19-40 | a taken email fails 409 and changes nothing; success happens exactly when the email is free and email and hash are non-empty; it answers 201, adds exactly the new user with roles `["user"]` and the clock as creation time, and appends exactly one token record owned by that user; the cookies carry the UUID and the signed claims |
| `AuthController.Login` | auth/src/controllers/auth.controller.ts:42-69 | an unknown email fails 401 and changes nothing; for a known email, the password compare fails exactly when the answer is 401 with the store unchanged; a known email with a matching password succeeds, and only then; on success (200) users are untouched, the collection is the old one without the user's records plus one new record for the user, so the user owns exactly one session (the new UUID), every other user's records and counts are as before, and the cookies carry the UUID and the signed claims of that user |
| `AuthController.Refresh` | auth/src/controllers/auth.controller.ts:71-105 | no cookie fails 401 and an unknown token fails 403, both with the store unchanged; a known token's record is deleted before the owner is looked up, so a missing owner fails 403 with that record gone; otherwise it answers 200, the collection is the old one minus that record plus one new record for the owner, and the cookies carry the new pair; users never change |
| `AuthController.Logout` | auth/src/controllers/auth.controller.ts:107-122 | always 200, clearing both cookies; without a cookie the store is unchanged, with one the collection is `deleteOne` of its token; users never change |
| `AuthController.Me` | auth/src/controllers/auth.controller.ts:124-159 | a missing cookie fails 401; every failure carries 401, and the expiry code marks exactly the expired tokens; it succeeds exactly when the token verifies with a subject that casts to an ObjectId under which a user is stored, and then returns that user without the password hash |
| `AuthController.MeTry` | auth/src/controllers/auth.controller.ts:131-147 | the `try` block succeeds exactly when the verdict is a payload whose subject casts to the id of a stored user; a subject that is not an ObjectId throws the cast error, and one whose canonical id has no user throws 404 |
| `Sessions.RegisterKeepsValid` | auth/src/controllers/auth.controller.ts:23-39 | with fresh generators, register keeps the store invariant; on success it adds one user and one token, owned by the new user and under the given email |
| `Sessions.LoginKeepsValid` | auth/src/controllers/auth.controller.ts:47-68 | when the new UUID is not yet a token on record, login keeps the store invariant |
| `Sessions.RefreshKeepsValid` | auth/src/controllers/auth.controller.ts:73-104 | with a fresh UUID, refresh keeps the store invariant |
| `Sessions.LogoutKeepsValid` | auth/src/controllers/auth.controller.ts:109-121 | logout keeps the store invariant |
| `Sessions.RefreshConsumesToken` | auth/src/controllers/auth.controller.ts:87-95 | a presented token that is on record is gone after refresh, whether the refresh succeeds or fails because the owner is missing |
| `Sessions.RefreshRotates` | auth/src/controllers/auth.controller.ts:79-104 | a successful refresh keeps the collection's size, removes the presented token, records the new UUID for the same owner, and leaves every user's session count unchanged |
| `Sessions.RefreshIsSingleUse` | auth/src/controllers/auth.controller.ts:79-84 | replaying a refresh token after it was redeemed fails 403 and changes nothing |
| `Sessions.RegisterCookieNamesSession` | auth/src/controllers/auth.controller.ts:34-36 | the refresh cookie register sets carries the token of the record it just appended, and looking that token up finds the new user's session |
| `Sessions.LoginCookieNamesSession` | auth/src/controllers/auth.controller.ts:59-65 | the refresh cookie login sets carries the token of the record it just appended, and looking that token up finds the session of the user who logged in |
| `Sessions.RefreshCookieNamesSession` | auth/src/controllers/auth.controller.ts:87-101 | the refresh cookie a successful refresh sets carries the token of the record it just appended, and looking that token up finds a session of the redeemed token's owner |
| `Sessions.LogoutRevokesOne` | auth/src/controllers/auth.controller.ts:109-112 | logout with a token on record removes exactly that record; one record fewer remains and every other record stays |
| `AuthenticateMiddleware.Authenticate` | api/src/middlewares/authenticate.ts:10-36 | a missing cookie fails 401; every failure carries 401, the expiry code marks exactly the expired tokens, and no other code appears; it succeeds exactly when the token verifies with a non-empty subject, and then `req.user` is that subject with the token's roles |
| `AuthenticateMiddleware.VerifyTry` | api/src/middlewares/authenticate.ts:13-26 | the `try` block succeeds exactly when the verdict is a payload with a non-empty subject, and then yields that subject with the token's roles; a payload without a subject throws 403, and a rejected token throws an error without a cause |
| `AuthenticateMiddleware.DependsOnlyOnVerdict` | api/src/middlewares/authenticate.ts:10-36 | two verifiers that agree on the presented cookie give the same outcome; no store is read |
| `ErrorHandler.HandleError` | api/src/middlewares/errorHandler.ts:8-24 | the status is always one Express accepts (100 to 999); a non-`Error` gives 500 "Internal server error"; an `Error` without a cause, or with a cause without a status, gives 500 with its own message; a cause status from 100 to 999 is kept with the message, and any other makes `res.status` throw, so Express answers 500 "Internal Server Error"; the challenge header is set exactly when the cause's code is the expiry code, and is then the fixed Bearer challenge |
| `ErrorHandler.ChallengeMentionsExpiry` | api/src/middlewares/errorHandler.ts:15 | the challenge contains the substring `token_expired` |
| `ErrorHandler.RaisedErrorsRoundTrip` | api/src/middlewares/errorHandler.ts:12-17 | an error raised with a status from 100 to 999 comes out with that status and message, and one raised with any other status comes out as Express's 500; only the expiry code adds the challenge |
| `Posts.GetAllPosts` | api/src/controllers/posts.ts:5-8 | returns every stored post exactly once and nothing else |
| `Posts.CreatePost` | api/src/controllers/posts.ts:10-13 | it succeeds exactly when title, image and content are non-empty and the author is an ObjectId; it then answers 201 with the new post, whose author is the canonical id, adds it under its new id and leaves every other post unchanged; otherwise it fails with a validation error and changes nothing |
| `Posts.GetSinglePost` | api/src/controllers/posts.ts:15-23 | an id that is not an ObjectId fails 400 before any lookup; an id whose canonical form has no post fails 404; it succeeds exactly when the id is an ObjectId with a stored post, and answers with the post stored under its canonical form |
| `Posts.UpdatePost` | api/src/controllers/posts.ts:25-41 | with no loaded post it fails 404 and changes nothing; otherwise only title, content and image change, id and author stay, no other post changes, and the save succeeds exactly when the result is complete |
| `Posts.DeletePost` | api/src/controllers/posts.ts:43-54 | with no loaded post it fails 404 and changes nothing; otherwise a route id that is not an ObjectId throws the cast error and changes nothing, and an ObjectId removes exactly the post under its canonical form, every other post staying |
| `Posts.CreateThenGet` | api/src/controllers/posts.ts:10-22 | after a post is created under a canonical new id, `getSinglePost` for that id answers 200 with the new post, and every id denoting another ObjectId, or none, answers as before |
| `Posts.UpdateThenGet` | api/src/controllers/posts.ts:15-41 | after an update, `getSinglePost` for the route's id answers with the new title, content and image under the old id and author, and every id denoting another ObjectId, or none, answers as before |
| `Posts.DeleteThenGet` | api/src/controllers/posts.ts:15-53 | after a delete by an ObjectId, `getSinglePost` reports every spelling of that id missing with 404, and every id denoting another ObjectId, or none, answers as before |
| `Posts.SpellingsAgree` | api/src/controllers/posts.ts:19-22 | two spellings of one ObjectId are both found, with the same post, or both missed |
| `Posts.WritesKeepWellKeyed` | api/src/controllers/posts.ts:10-53 | creating, updating and deleting keep every post stored under its own id |
| `HasRoleMiddleware.HasRole` | api/src/middlewares/hasRole.ts:4-38 | no user gives 401; then an id that is not an ObjectId gives a cast error, and one whose canonical form has no post gives 404; once the lookup succeeds, access is allowed exactly when the user is an admin, or `self` is required and the user wrote the post, or `self` is not required and some required role is held; every other denial is 403; an allowed request carries the post stored under the id's canonical form |
| `HasRoleMiddleware.MissingPostBeatsAdmin` | api/src/middlewares/hasRole.ts:13-22 | a missing post is reported as 404 "Post not found" even to an administrator |
| `HasRoleMiddleware.SelfIgnoresOtherRoles` | api/src/middlewares/hasRole.ts:24-30 | under `self` without an id, a non-admin is forbidden whatever other roles are listed or held |
| `HasRoleMiddleware.EmptyRolesAdmitAdminsOnly` | api/src/middlewares/hasRole.ts:32-36 | an empty role list admits exactly the administrators |
| `PostsRoutes.CreateRoute` | api/src/routes/postsRouter.ts:9 | the store changes only for an authenticated user holding `user` or `admin` and an author that is an ObjectId, and then only by adding the new post, with the author in canonical form |
| `PostsRoutes.UpdateRoute` | api/src/routes/postsRouter.ts:14 | the store changes only for an authenticated admin or the author of the post the id denotes; the change touches only that post and keeps its author |
| `PostsRoutes.DeleteRoute` | api/src/routes/postsRouter.ts:15 | the store changes only for an authenticated admin or the author of the post the id denotes, and then only by removing that post |
| `FetchInterceptor.WithCredentials` | spa/src/utils/fetchInterceptor.ts:10 | the options are passed on with `credentials: "include"` and otherwise unchanged |
| `FetchInterceptor.WrappedFetch` | spa/src/utils/fetchInterceptor.ts:7-28 | one to three underlying calls, all with credentials; without the `token_expired` challenge, exactly one call whose result is passed through; with it, the second call is a POST to the refresh URL; a replay happens exactly when the refresh is ok and repeats the first call; a refresh that is not ok fails with "Login required", and a refresh call that is rejected rethrows its rejection |
| `FetchInterceptor.NoSecondRefresh` | spa/src/utils/fetchInterceptor.ts:21-27 | a replay that again signals expiry is returned as is, after three calls |
| `Scenario.IssuedTokenAuthenticates` | api/src/middlewares/authenticate.ts:14-24 | an access token the auth service issues for a user, checked by an honest verifier, passes the API's gate as that user with that user's roles |
| `Scenario.ExpiredAccessTriggersOneRefresh` | spa/src/utils/fetchInterceptor.ts:13-19 | when the API rejects an expired access token, the client's wrapper sends the refresh call as its second call |
| `Scenario.OtherRejectionsPassThrough` | spa/src/utils/fetchInterceptor.ts:13-27 | any other rejection by the gate reaches the caller as a 401 after a single call |
| `Scenario.IssuedTokenPassesMe` | auth/src/controllers/auth.controller.ts:124-147 | an access token the auth service issues for a stored user with a canonical id, checked by an honest verifier, passes `me`, which answers with that user's profile |
| `Scenario.MeAgreesWithAuthenticate` | auth/src/controllers/auth.controller.ts:124-159 | `me` and `authenticate` fail alike, with the same cause; where the gate admits a subject, `me` succeeds exactly when the subject casts to an ObjectId under which a user is stored, and otherwise fails with a plain 401 |
| `Scenario.LoginRefreshReplay` | auth/src/controllers/auth.controller.ts:42-105 | after a login with a known email and a matching password, refreshing with its cookie succeeds and leaves the user one session; replaying the cookie then fails 403 with the store unchanged |

## Left out

- Password hashing, JWT signing and verification are parameters (`compare`, `sign`, `verify`) with no properties of their own. `Jwt.Honest` states what the cross-program scenarios assume of them. Expiry arithmetic inside the library shows only as the `Expired` verdict.
- `randomUUID()` and the database's new ids are request inputs. Their freshness is an assumption (`FreshIn`), not a model of randomness.
- The email schema (trim, then format check) and mongoose's ObjectId cast belong to libraries. They are parameters. `isValidObjectId` and the cast that queries by id apply, on posts and on users alike, are one parameter, `cast`, so a string the first accepts is one the second converts. The ids the database assigns are taken to be canonical.
- `auth/src/config/index.ts` is not part of this model. The access and refresh lifetimes and the production flag are fields of `AuthUtils.Config`.
- Database connections, server start-up, CORS and cookie parsing are not modelled. Cookies arrive as optional strings; the JSON-cookie decoding of `cookie-parser` is not modelled.
- Concurrent requests are not modelled. Two refreshes racing on one token are outside the sequential model, which shows only that a second, later attempt fails 403.
- The React pages and components and the thin data-fetching helpers of the client are not modelled.
- The `validateZod(postSchema)` step of the posts routes is not modelled. Bodies reach the controllers as given, and only the required paths of the post document are checked: three non-empty strings and an author that casts to an ObjectId.
- The auth service's own error-handling middleware is not part of this model. Its handlers' outcomes are stated as the thrown errors with their causes.
- Post timestamps and mongoose's document versioning are not modelled.
- Verified payloads always carry a roles list. A token whose payload lacks `roles` would make `hasRole` throw on `includes`; that case is not modelled.
- `FetchInterceptor.WrappedFetch`: extra arguments after `options` are not modelled. The `www-authenticate` header is a single optional string, so header-name case folding is not modelled. Of the options, only method, credentials and body are kept.
- `AuthSchemas.ParseUser`: its own contract states what an accepted body satisfies. The full acceptance condition is stated relative to the register schema by `AuthSchemas.UserIsRegisterWithoutConfirm`.
- `AuthSchemas.ParseRegister`, `AuthSchemas.ParseLogin`: the error messages zod attaches to each rejected rule are not modelled; a rejection is `None`.
- Database operations are assumed to succeed. Only the unique email index and a missing document are modelled as database outcomes. A write that fails midway is not modelled. In `login`, `deleteMany` runs before the new record is created, so a failed insert would leave the user with no session. In `refresh`, the presented record is deleted before the new one is inserted, so a failed insert fails closed: the old token is gone and no new one exists.
- `ErrorHandler.HandleError`: when `res.status` throws, Express's final handler sends its own HTML page; the model keeps only its status, 500, and its status text as the message. A status that is not an integer cannot arise, since statuses are integers here.
- Logging is not modelled: the error handler's stack print and the client's console messages have no effect on outcomes.
- `AuthUtils.Config`: the lifetimes are integers. The configuration coerces them with `Number`, which also admits fractions; a fractional lifetime is not modelled.
- `HasRoleMiddleware.HasRole`, `Posts.DeletePost`, `AuthController.MeTry`: the cast error carries the fixed message "Cast to ObjectId failed". mongoose's message also names the value, its type, the path and the model, and the posts API's error handler passes that message on as the 500 body.
- `Posts.CreatePost`, `Posts.UpdatePost`, `UserModel.CreateUser`: a validation error carries the fixed message "Post validation failed" or "User validation failed". mongoose's message goes on to name each failing path and its validator's message; for a post, the posts API's error handler passes that message on as the 500 body.
- Character classes test single characters in the ranges `a`-`z`, `A`-`Z` and `0`-`9`, as the regular expressions do without the Unicode flag.
