/** The `/api/posts` route: `GET` lists the published posts newest first;
    `POST` lets an administrator create a post, after the guard, the
    required-field check and the slug-conflict check, in that order, and the
    insert fails when the session's user is not stored. */
module PostsRoute {
  import opened Common
  import opened Blog

  /** `GET /api/posts`: 200 with exactly the published posts of the store,
      each as often as it is stored, newest first. */
  function Get(posts: seq<Post>): (r: Response)
    ensures r.status == 200 && r.body.Many?
    ensures forall p :: p in r.body.posts <==> p in posts && p.published
    ensures forall p: Post :: p.published ==> multiset(r.body.posts)[p] == multiset(posts)[p]
    ensures NewestFirst(r.body.posts)
  {
    var listing := SortNewestFirst(Filter(IsPublished, posts));
    assert forall p :: p in listing <==> p in Filter(IsPublished, posts) by {
      forall p ensures p in listing <==> p in Filter(IsPublished, posts) {
        assert p in listing <==> p in multiset(listing);
      }
    }
    assert forall p: Post :: p.published ==> multiset(listing)[p] == multiset(posts)[p] by {
      forall p: Post | p.published ensures multiset(listing)[p] == multiset(posts)[p] {
        FilterCount(IsPublished, posts, p);
      }
    }
    Response(200, Many(listing))
  }

  /** The fields `request.json()` yields; an absent field is `None`. */
  datatype CreateBody = CreateBody(
    title: Option<string>,
    content: Option<string>,
    excerpt: Option<string>,
    slug: Option<string>,
    published: Option<bool>)

  /** JavaScript falsiness of a string field: absent or empty. */
  predicate Falsy(field: Option<string>) {
    field.None? || field.value == ""
  }

  predicate MissingRequiredField(body: CreateBody) {
    Falsy(body.title) || Falsy(body.content) || Falsy(body.slug)
  }

  const Unauthorized := Response(401, Error("Unauthorized"))
  const MissingFields := Response(400, Error("Missing required fields"))
  const SlugConflict := Response(400, Error("Slug already exists"))
  const CreateFailed := Response(500, Error("Failed to create post"))

  datatype CreateOutcome = CreateOutcome(response: Response, posts: seq<Post>)

  /** What `POST /api/posts` answers and what the `Post` table holds
      afterwards, when the database hands out `id` and the clock reads `now`.
      The checks run in order: guard, required fields, slug, and then the
      insert, which fails into the 500 path when the session's user is not a
      stored user (the `author` relation is a foreign key on `User`). Every
      answer but 201 leaves the table as it was. */
  function CreateOutcomeOf(users: seq<User>, posts: seq<Post>, id: PostId, session: Option<Session>, body: CreateBody, now: nat): (out: CreateOutcome)
    ensures out.response.status in {201, 400, 401, 500}
    ensures out.response.status != 201 ==> out.posts == posts && out.response.body.Error?
    ensures out.response.status == 201 ==>
      && out.response.body.One?
      && out.posts == posts + [out.response.body.post]
      && IsAdmin(session)
      && out.response.body.post.authorId == session.value.userId
      && UserExists(users, session.value.userId)
  {
    if !IsAdmin(session) then CreateOutcome(Unauthorized, posts)
    else if MissingRequiredField(body) then CreateOutcome(MissingFields, posts)
    else if FindBySlug(posts, body.slug.value).Some? then CreateOutcome(SlugConflict, posts)
    else if FindUserById(users, session.value.userId).None? then CreateOutcome(CreateFailed, posts)
    else
      var post := Post(id, body.title.value, body.content.value, body.excerpt, body.slug.value,
                       body.published == Some(true), session.value.userId, now);
      CreateOutcome(Response(201, One(post)), posts + [post])
  }

  /** The guard decides first: without an administrator session the answer is
      401 whatever the body holds, and the store is left alone. */
  lemma CreateUnauthorized(users: seq<User>, posts: seq<Post>, id: PostId, session: Option<Session>, body: CreateBody, now: nat)
    requires session.None? || session.value.role != AdminRole
    ensures CreateOutcomeOf(users, posts, id, session, body, now) == CreateOutcome(Response(401, Error("Unauthorized")), posts)
  {
  }

  /** An administrator whose body lacks a title, content or slug gets 400
      "Missing required fields", whether or not the slug is taken. */
  lemma CreateMissingFields(users: seq<User>, posts: seq<Post>, id: PostId, session: Option<Session>, body: CreateBody, now: nat)
    requires IsAdmin(session)
    requires Falsy(body.title) || Falsy(body.content) || Falsy(body.slug)
    ensures CreateOutcomeOf(users, posts, id, session, body, now) == CreateOutcome(Response(400, Error("Missing required fields")), posts)
  {
  }

  /** A complete body from an administrator whose slug is already stored gets
      400 "Slug already exists". */
  lemma CreateSlugConflict(users: seq<User>, posts: seq<Post>, id: PostId, session: Option<Session>, body: CreateBody, now: nat)
    requires IsAdmin(session) && !MissingRequiredField(body)
    requires exists i :: 0 <= i < |posts| && posts[i].slug == body.slug.value
    ensures CreateOutcomeOf(users, posts, id, session, body, now) == CreateOutcome(Response(400, Error("Slug already exists")), posts)
  {
  }

  /** An administrator's complete body with a free slug, from a session
      whose user is not stored, fails in the insert: 500 "Failed to create
      post", and the store is unchanged. */
  lemma CreateUnknownAuthor(users: seq<User>, posts: seq<Post>, id: PostId, session: Option<Session>, body: CreateBody, now: nat)
    requires IsAdmin(session) && !MissingRequiredField(body) && !SlugTaken(posts, body.slug.value)
    requires forall i :: 0 <= i < |users| ==> users[i].id != session.value.userId
    ensures CreateOutcomeOf(users, posts, id, session, body, now) == CreateOutcome(Response(500, Error("Failed to create post")), posts)
  {
  }

  /** 201 exactly when all three checks pass and the author is a stored
      user; then exactly one post is appended, carrying the supplied fields,
      the session's user as author, and `published` false unless `true` was
      supplied. */
  lemma CreateSucceeds(users: seq<User>, posts: seq<Post>, id: PostId, session: Option<Session>, body: CreateBody, now: nat)
    ensures var out := CreateOutcomeOf(users, posts, id, session, body, now);
      out.response.status == 201 <==>
        IsAdmin(session) && !MissingRequiredField(body) && !SlugTaken(posts, body.slug.value)
        && UserExists(users, session.value.userId)
    ensures var out := CreateOutcomeOf(users, posts, id, session, body, now);
      out.response.status == 201 ==>
        && out.response.body.One?
        && out.posts == posts + [out.response.body.post]
        && var p := out.response.body.post;
           && p.id == id && p.createdAt == now
           && Some(p.title) == body.title && Some(p.content) == body.content
           && Some(p.slug) == body.slug && p.excerpt == body.excerpt
           && p.authorId == session.value.userId
           && (p.published <==> body.published == Some(true))
    ensures var out := CreateOutcomeOf(users, posts, id, session, body, now);
      out.response.status != 201 ==> out.posts == posts && out.response.status in {400, 401, 500}
  {
  }

  /** Slugs stay unique (and ids fresh) across the store after any `POST`. */
  lemma CreateKeepsInvariant(users: seq<User>, posts: seq<Post>, id: PostId, session: Option<Session>, body: CreateBody, now: nat)
    requires PostTableInvariant(posts, id)
    ensures PostTableInvariant(CreateOutcomeOf(users, posts, id, session, body, now).posts, id + 1)
  {
    var out := CreateOutcomeOf(users, posts, id, session, body, now);
    if out.response.status == 201 {
      InsertFreshPost(posts, id, out.response.body.post);
    } else {
      forall i | 0 <= i < |posts| ensures posts[i].id < id + 1 { }
    }
  }

  /** Round trip: after a 201, looking the slug up finds the created post;
      it is in the public listing exactly when it was created published. */
  lemma CreateThenFind(users: seq<User>, posts: seq<Post>, id: PostId, session: Option<Session>, body: CreateBody, now: nat)
    requires PostTableInvariant(posts, id)
    requires CreateOutcomeOf(users, posts, id, session, body, now).response.status == 201
    ensures var out := CreateOutcomeOf(users, posts, id, session, body, now);
      && FindBySlug(out.posts, body.slug.value) == Some(out.response.body.post)
      && (out.response.body.post in Get(out.posts).body.posts <==> body.published == Some(true))
  {
    var out := CreateOutcomeOf(users, posts, id, session, body, now);
    var p := out.response.body.post;
    InsertFreshPost(posts, id, p);
    assert out.posts[|posts|] == p;
    var found := FindBySlug(out.posts, p.slug);
  }

  /** The `POST` handler, step by step, against the database. */
  method Create(db: Database, session: Option<Session>, body: CreateBody, now: nat) returns (response: Response)
    requires db.Valid()
    modifies db
    ensures db.Valid()
    ensures var out := CreateOutcomeOf(old(db.users), old(db.posts), old(db.nextPostId), session, body, now);
      response == out.response && db.posts == out.posts
    ensures db.users == old(db.users) && db.nextUserId == old(db.nextUserId)
    ensures db.nextPostId == if response.status == 201 then old(db.nextPostId) + 1 else old(db.nextPostId)
  {
    if session.None? || session.value.role != AdminRole {
      return Unauthorized;
    }
    if Falsy(body.title) || Falsy(body.content) || Falsy(body.slug) {
      return MissingFields;
    }
    var existingPost := FindBySlug(db.posts, body.slug.value);
    if existingPost.Some? {
      return SlugConflict;
    }
    var author := FindUserById(db.users, session.value.userId);
    if author.None? {
      return CreateFailed;
    }
    var post := Post(db.nextPostId, body.title.value, body.content.value, body.excerpt, body.slug.value,
                     body.published == Some(true), session.value.userId, now);
    InsertFreshPost(db.posts, db.nextPostId, post);
    db.posts := db.posts + [post];
    db.nextPostId := db.nextPostId + 1;
    response := Response(201, One(post));
  }
}
