/** The posts controller: a map from post id to post, and the five handlers
    over it. Post ids and authors are ObjectIds, stored under their
    canonical spelling; `cast` stands for mongoose's conversion of a string
    to an ObjectId, which both `isValidObjectId` and the id lookups apply. */
module Posts {
  import opened Http

  /** A stored post. `id` and `author` are canonical ObjectId spellings;
      `author` is the author's user id. */
  datatype Post = Post(id: string, title: string, author: string, image: string, content: string)

  /** The posts collection, keyed by canonical id. */
  type PostStore = map<string, Post>

  /** A request body for create and update. */
  datatype PostBody = PostBody(title: string, author: string, image: string, content: string)

  /** A reply: status and JSON body. */
  datatype Sent<+T> = Sent(status: int, body: T)

  /** Each post sits under its own id. */
  predicate WellKeyed(posts: PostStore) {
    forall id :: id in posts ==> posts[id].id == id
  }

  /** The three required string paths of the post schema are non-empty. The
      required `author` path is an ObjectId, checked by the cast. */
  predicate Complete(p: Post) {
    p.title != "" && p.image != "" && p.content != ""
  }

  const POST_VALIDATION_FAILED: string := "Post validation failed"
  const INVALID_ID: string := "Invalid id"

  function Missing(id: string): string {
    "Post with id of " + id + " doesn't exist"
  }

  /** `getAllPosts`: every stored post, once each; nothing changes. */
  method GetAllPosts(posts: PostStore) returns (r: seq<Post>)
    requires WellKeyed(posts)
    ensures |r| == |posts|
    ensures forall id :: id in posts ==> posts[id] in r
    ensures forall i :: 0 <= i < |r| ==> r[i].id in posts && posts[r[i].id] == r[i]
    ensures forall i, j :: 0 <= i < j < |r| ==> r[i].id != r[j].id
  {
    r := [];
    var left := posts.Keys;
    while left != {}
      invariant left <= posts.Keys
      invariant |r| + |left| == |posts|
      invariant forall id :: id in posts && id !in left ==> posts[id] in r
      invariant forall i :: 0 <= i < |r| ==> r[i].id in posts && r[i].id !in left && posts[r[i].id] == r[i]
      invariant forall i, j :: 0 <= i < j < |r| ==> r[i].id != r[j].id
      decreases left
    {
      var id :| id in left;
      r := r + [posts[id]];
      left := left - {id};
    }
  }

  /** `createPost`: store the body under the id the database assigns and
      answer 201 with the new post; no other post changes. A body with an
      empty required string, or an author that is not an ObjectId, fails
      validation (an error without a cause). */
  function CreatePost(posts: PostStore, body: PostBody, newId: string, cast: ObjectIdCast): (r: (Result<Sent<Post>>, PostStore))
    requires newId !in posts
    ensures r.0.Fail? ==> r.1 == posts && r.0.thrown.ErrorObj? && r.0.thrown.cause.None?
    ensures r.0.Ok? <==> body.title != "" && body.image != "" && body.content != "" && cast(body.author).Some?
    ensures r.0.Ok? ==>
              && r.0.value.status == 201
              && r.0.value.body == Post(newId, body.title, cast(body.author).value, body.image, body.content)
              && r.1.Keys == posts.Keys + {newId}
              && r.1[newId] == r.0.value.body
              && (forall id :: id in posts ==> r.1[id] == posts[id])
  {
    match cast(body.author)
    case None => (Fail(ErrorObj(POST_VALIDATION_FAILED, None)), posts)
    case Some(author) =>
      var p := Post(newId, body.title, author, body.image, body.content);
      if !Complete(p) then (Fail(ErrorObj(POST_VALIDATION_FAILED, None)), posts)
      else (Ok(Sent(201, p)), posts[newId := p])
  }

  /** `getSinglePost`: 400 for an id that is not an ObjectId, before any
      lookup; 404 when no post is stored under the id it denotes; otherwise
      that post. */
  function GetSinglePost(posts: PostStore, id: string, cast: ObjectIdCast): (r: Result<Sent<Post>>)
    ensures cast(id).None? ==> r == Fail(Raise(INVALID_ID, 400))
    ensures cast(id).Some? && cast(id).value !in posts ==> r == Fail(Raise(Missing(id), 404))
    ensures r.Ok? <==> cast(id).Some? && cast(id).value in posts
    ensures r.Ok? ==> r.value == Sent(200, posts[cast(id).value])
  {
    match cast(id)
    case None => Fail(Raise(INVALID_ID, 400))
    case Some(key) =>
      if key !in posts then Fail(Raise(Missing(id), 404))
      else Ok(Sent(200, posts[key]))
  }

  /** `updatePost`: with no post loaded by the guard, 404; otherwise title,
      content and image are overwritten and the document saved. Author and
      id stay, and no other post changes. */
  function UpdatePost(posts: PostStore, id: string, loaded: Option<Post>, body: PostBody): (r: (Result<Sent<Post>>, PostStore))
    requires loaded.Some? ==> loaded.value.id in posts
    ensures loaded.None? ==> r == (Fail(Raise(Missing(id), 404)), posts)
    ensures r.0.Fail? ==> r.1 == posts
    ensures r.0.Ok? ==>
              var old_ := loaded.value;
              var new_ := r.0.value.body;
              && r.0.value.status == 200
              && new_.id == old_.id && new_.author == old_.author
              && new_.title == body.title && new_.content == body.content && new_.image == body.image
              && r.1.Keys == posts.Keys
              && r.1[old_.id] == new_
              && (forall k :: k in posts && k != old_.id ==> r.1[k] == posts[k])
    ensures loaded.Some? ==> (r.0.Ok? <==> Complete(loaded.value.(title := body.title, content := body.content, image := body.image)))
  {
    match loaded
    case None => (Fail(Raise(Missing(id), 404)), posts)
    case Some(p) =>
      var p' := p.(title := body.title, content := body.content, image := body.image);
      if !Complete(p') then (Fail(ErrorObj(POST_VALIDATION_FAILED, None)), posts)
      else (Ok(Sent(200, p')), posts[p.id := p'])
  }

  /** `deletePost`: with no post loaded by the guard, 404; otherwise
      `findByIdAndDelete` removes exactly the post under the id the route's
      id denotes, and a route id that is not an ObjectId throws a cast error. */
  function DeletePost(posts: PostStore, id: string, loaded: Option<Post>, cast: ObjectIdCast): (r: (Result<Sent<string>>, PostStore))
    ensures loaded.None? ==> r == (Fail(Raise(Missing(id), 404)), posts)
    ensures loaded.Some? && cast(id).None? ==> r == (Fail(CAST_ERROR), posts)
    ensures loaded.Some? && cast(id).Some? ==>
              && r.0 == Ok(Sent(200, "Post with id of " + id + " was deleted"))
              && r.1.Keys == posts.Keys - {cast(id).value}
              && (forall k :: k in r.1 ==> r.1[k] == posts[k])
  {
    match loaded
    case None => (Fail(Raise(Missing(id), 404)), posts)
    case Some(_) =>
      match cast(id)
      case None => (Fail(CAST_ERROR), posts)
      case Some(key) => (Ok(Sent(200, "Post with id of " + id + " was deleted")), posts - {key})
  }

  /** A post just created is what `getSinglePost` answers for its id, and
      every id that denotes another ObjectId answers as before. */
  lemma CreateThenGet(posts: PostStore, body: PostBody, newId: string, cast: ObjectIdCast)
    requires newId !in posts && cast(newId) == Some(newId)
    requires body.title != "" && body.image != "" && body.content != "" && cast(body.author).Some?
    ensures var r := CreatePost(posts, body, newId, cast);
            && GetSinglePost(r.1, newId, cast)
               == Ok(Sent(200, Post(newId, body.title, cast(body.author).value, body.image, body.content)))
            && (forall id :: cast(id) != Some(newId) ==> GetSinglePost(r.1, id, cast) == GetSinglePost(posts, id, cast))
  {
    var r := CreatePost(posts, body, newId, cast);
    forall id | cast(id) != Some(newId) ensures GetSinglePost(r.1, id, cast) == GetSinglePost(posts, id, cast) {
      if cast(id).Some? {
        assert cast(id).value in r.1 <==> cast(id).value in posts;
      }
    }
  }

  /** After an update, `getSinglePost` answers with the new title, content
      and image under the old id and author, and every id that denotes
      another ObjectId answers as before. */
  lemma UpdateThenGet(posts: PostStore, id: string, body: PostBody, cast: ObjectIdCast)
    requires WellKeyed(posts) && cast(id).Some? && cast(id).value in posts
    requires Complete(posts[cast(id).value].(title := body.title, content := body.content, image := body.image))
    ensures var key := cast(id).value;
            var r := UpdatePost(posts, id, Some(posts[key]), body);
            && GetSinglePost(r.1, id, cast)
               == Ok(Sent(200, Post(key, body.title, posts[key].author, body.image, body.content)))
            && (forall k :: cast(k) != cast(id) ==> GetSinglePost(r.1, k, cast) == GetSinglePost(posts, k, cast))
  {
    var key := cast(id).value;
    var r := UpdatePost(posts, id, Some(posts[key]), body);
    forall k | cast(k) != cast(id) ensures GetSinglePost(r.1, k, cast) == GetSinglePost(posts, k, cast) {
      if cast(k).Some? {
        assert cast(k).value in r.1 <==> cast(k).value in posts;
      }
    }
  }

  /** After a delete, `getSinglePost` reports the id as missing, under any
      spelling of it, and every id that denotes another ObjectId answers as
      before. */
  lemma DeleteThenGet(posts: PostStore, id: string, loaded: Post, cast: ObjectIdCast)
    requires cast(id).Some?
    ensures var r := DeletePost(posts, id, Some(loaded), cast);
            && (forall k :: cast(k) == cast(id) ==> GetSinglePost(r.1, k, cast) == Fail(Raise(Missing(k), 404)))
            && (forall k :: cast(k) != cast(id) ==> GetSinglePost(r.1, k, cast) == GetSinglePost(posts, k, cast))
  {
    var r := DeletePost(posts, id, Some(loaded), cast);
    forall k | cast(k) != cast(id) ensures GetSinglePost(r.1, k, cast) == GetSinglePost(posts, k, cast) {
      if cast(k).Some? {
        assert cast(k).value in r.1 <==> cast(k).value in posts;
      }
    }
  }

  /** Two spellings of one ObjectId find the same post, or both miss. */
  lemma SpellingsAgree(posts: PostStore, a: string, b: string, cast: ObjectIdCast)
    requires cast(a) == cast(b) && cast(a).Some?
    ensures GetSinglePost(posts, a, cast).Ok? <==> GetSinglePost(posts, b, cast).Ok?
    ensures GetSinglePost(posts, a, cast).Ok? ==> GetSinglePost(posts, a, cast) == GetSinglePost(posts, b, cast)
  {
  }

  /** Creating, updating and deleting keep every post under its own id. */
  lemma WritesKeepWellKeyed(posts: PostStore, body: PostBody, newId: string, id: string, loaded: Option<Post>,
                            cast: ObjectIdCast)
    requires WellKeyed(posts) && newId !in posts
    requires loaded.Some? ==> loaded.value.id in posts
    ensures WellKeyed(CreatePost(posts, body, newId, cast).1)
    ensures WellKeyed(UpdatePost(posts, id, loaded, body).1)
    ensures WellKeyed(DeletePost(posts, id, loaded, cast).1)
  {
  }
}
