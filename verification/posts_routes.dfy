/** The middleware chains of the posts router: `authenticate`, then
    `hasRole(...)`, then the controller. The body validator that sits
    between guard and controller is not part of this model; bodies reach the
    controller as given. */
module PostsRoutes {
  import opened Http
  import opened Jwt
  import opened AuthenticateMiddleware
  import opened HasRoleMiddleware
  import opened Posts

  /** `POST /posts`: `authenticate`, `hasRole('user')`, `createPost`. */
  function CreateRoute(posts: PostStore, cookie: Option<string>, verify: string -> Verdict,
                       body: PostBody, newId: string, cast: ObjectIdCast): (r: (Result<Sent<Post>>, PostStore))
    requires newId !in posts
    ensures r.1 != posts ==>
              && Authenticate(cookie, verify).Ok?
              && ("user" in Authenticate(cookie, verify).value.roles || "admin" in Authenticate(cookie, verify).value.roles)
              && cast(body.author).Some?
              && newId in r.1 && r.1 == posts[newId := r.1[newId]]
              && r.1[newId].author == cast(body.author).value
  {
    match Authenticate(cookie, verify)
    case Fail(e) => (Fail(e), posts)
    case Ok(user) =>
      match HasRole(["user"], Some(user), None, posts, cast)
      case Deny(e) => (Fail(e), posts)
      case Allow(_) => CreatePost(posts, body, newId, cast)
  }

  /** `PUT /posts/:id`: `authenticate`, `hasRole('self')`, `updatePost`.
      Only the post's author or an administrator changes the store, and then
      only the post the id denotes. */
  function UpdateRoute(posts: PostStore, cookie: Option<string>, verify: string -> Verdict,
                       id: string, body: PostBody, cast: ObjectIdCast): (r: (Result<Sent<Post>>, PostStore))
    requires WellKeyed(posts) && id != ""
    ensures r.1 != posts ==>
              && Authenticate(cookie, verify).Ok?
              && cast(id).Some? && cast(id).value in posts
              && ("admin" in Authenticate(cookie, verify).value.roles
                  || posts[cast(id).value].author == Authenticate(cookie, verify).value.id)
              && r.1.Keys == posts.Keys
              && r.1[cast(id).value].author == posts[cast(id).value].author
              && (forall k :: k in posts && k != cast(id).value ==> r.1[k] == posts[k])
  {
    match Authenticate(cookie, verify)
    case Fail(e) => (Fail(e), posts)
    case Ok(user) =>
      match HasRole(["self"], Some(user), Some(id), posts, cast)
      case Deny(e) => (Fail(e), posts)
      case Allow(loaded) => UpdatePost(posts, id, loaded, body)
  }

  /** `DELETE /posts/:id`: `authenticate`, `hasRole('self')`, `deletePost`.
      Only the post's author or an administrator removes it, and nothing
      else is removed. */
  function DeleteRoute(posts: PostStore, cookie: Option<string>, verify: string -> Verdict,
                       id: string, cast: ObjectIdCast): (r: (Result<Sent<string>>, PostStore))
    requires id != ""
    ensures r.1 != posts ==>
              && Authenticate(cookie, verify).Ok?
              && cast(id).Some? && cast(id).value in posts
              && ("admin" in Authenticate(cookie, verify).value.roles
                  || posts[cast(id).value].author == Authenticate(cookie, verify).value.id)
              && r.1 == posts - {cast(id).value}
  {
    match Authenticate(cookie, verify)
    case Fail(e) => (Fail(e), posts)
    case Ok(user) =>
      match HasRole(["self"], Some(user), Some(id), posts, cast)
      case Deny(e) => (Fail(e), posts)
      case Allow(loaded) => DeletePost(posts, id, loaded, cast)
  }
}
