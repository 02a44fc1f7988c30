/** The role and ownership guard of the posts API, `hasRole(...roles)`. */
module HasRoleMiddleware {
  import opened Http
  import opened AuthenticateMiddleware
  import opened Posts

  /** `next()` with `req.post` set (when an id was given), or `next(err)`. */
  datatype Guard = Allow(post: Option<Post>) | Deny(thrown: Thrown)

  /** The route's `id` denotes a stored post (or there is no `id`). */
  predicate Loaded(id: Option<string>, posts: PostStore, cast: ObjectIdCast) {
    !Truthy(id) || (cast(id.value).Some? && cast(id.value).value in posts)
  }

  /** Some required role is held. */
  predicate Intersects(required: seq<string>, held: seq<string>) {
    exists role :: role in required && role in held
  }

  /** `hasRole(...required)` for `req.user`, the route's `id` and the store.
      Order: no user, then the post lookup by the id the route's `id`
      denotes, then the admin bypass, then the `self` rule, then the role
      intersection. */
  function HasRole(required: seq<string>, user: Option<Identity>, id: Option<string>,
                   posts: PostStore, cast: ObjectIdCast): (r: Guard)
    ensures user.None? ==> r == Deny(Raise("Unauthorized", 401))
    ensures user.Some? && Truthy(id) && cast(id.value).None? ==> r == Deny(CAST_ERROR)
    ensures user.Some? && Truthy(id) && cast(id.value).Some? && cast(id.value).value !in posts ==>
              r == Deny(Raise("Post not found", 404))
    ensures r.Allow? ==> r.post == (if Truthy(id) then Some(posts[cast(id.value).value]) else None)
    ensures user.Some? && Loaded(id, posts, cast) ==>
              (r.Allow? <==>
                 || "admin" in user.value.roles
                 || ("self" in required && Truthy(id) && posts[cast(id.value).value].author == user.value.id)
                 || ("self" !in required && Intersects(required, user.value.roles)))
    ensures user.Some? && Loaded(id, posts, cast) && r.Deny? ==> r == Deny(Raise("Forbidden", 403))
  {
    match user
    case None => Deny(Raise("Unauthorized", 401))
    case Some(u) =>
      if Truthy(id) && cast(id.value).None? then Deny(CAST_ERROR)
      else if Truthy(id) && cast(id.value).value !in posts then Deny(Raise("Post not found", 404))
      else
        var post := if Truthy(id) then Some(posts[cast(id.value).value]) else None;
        if "admin" in u.roles then Allow(post)
        else if "self" in required then
          if post.None? || post.value.author != u.id then Deny(Raise("Forbidden", 403)) else Allow(post)
        else if !Intersects(required, u.roles) then Deny(Raise("Forbidden", 403))
        else Allow(post)
  }

  /** A missing post is reported as 404 even to an administrator: the lookup
      comes before the admin bypass. */
  lemma MissingPostBeatsAdmin(required: seq<string>, user: Identity, id: string, posts: PostStore,
                              cast: ObjectIdCast)
    requires "admin" in user.roles && id != "" && cast(id).Some? && cast(id).value !in posts
    ensures HasRole(required, Some(user), Some(id), posts, cast) == Deny(Raise("Post not found", 404))
  {
  }

  /** Under `self`, other listed roles are ignored, and a route without an
      `id` is forbidden to everyone but an administrator. */
  lemma SelfIgnoresOtherRoles(required: seq<string>, user: Identity, posts: PostStore, cast: ObjectIdCast)
    requires "self" in required && "admin" !in user.roles
    ensures HasRole(required, Some(user), None, posts, cast) == Deny(Raise("Forbidden", 403))
  {
  }

  /** An empty role list admits administrators only. */
  lemma EmptyRolesAdmitAdminsOnly(user: Identity, posts: PostStore, cast: ObjectIdCast)
    ensures HasRole([], Some(user), None, posts, cast).Allow? <==> "admin" in user.roles
  {
  }
}
