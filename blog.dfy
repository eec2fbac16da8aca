/** The blog's persistent entities (the `User` and `Post` tables), the
    administrator guard every protected handler repeats, the slug lookup the
    unique `slug` column supports, the `orderBy: { createdAt: 'desc' }`
    ordering both listings use, and the database holding both tables. */
module Blog {
  import opened Common

  type UserId = nat
  type PostId = nat

  /** A row of the `User` table; `password` holds the hash, never the password. */
  datatype User = User(id: UserId, name: string, email: string, password: string, role: string)

  /** A row of the `Post` table. `createdAt` is the creation instant on an abstract clock. */
  datatype Post = Post(
    id: PostId,
    title: string,
    content: string,
    excerpt: Option<string>,
    slug: string,
    published: bool,
    authorId: UserId,
    createdAt: nat)

  /** What the authentication collaborator reports about the caller. */
  datatype Session = Session(userId: UserId, role: string)

  const AdminRole := "ADMIN"

  /** The guard `!session || session.user.role !== "ADMIN"`, negated. The
      role is read only once a session is known to exist. */
  predicate IsAdmin(session: Option<Session>): (admin: bool)
    ensures admin ==> session.Some? && session.value.role == "ADMIN"
    ensures session.Some? && session.value.role == "ADMIN" ==> admin
  {
    session.Some? && session.value.role == AdminRole
  }

  /** The JSON bodies the handlers answer with. */
  datatype Body = Error(message: string) | One(post: Post) | Many(posts: seq<Post>)

  datatype Response = Response(status: nat, body: Body)

  predicate IsPublished(p: Post) { p.published }

  predicate SlugTaken(posts: seq<Post>, slug: string) {
    exists i :: 0 <= i < |posts| && posts[i].slug == slug
  }

  /** `post.findUnique({ where: { slug } })`: the post stored under `slug`, if any. */
  function FindBySlug(posts: seq<Post>, slug: string): (r: Option<Post>)
    ensures r.Some? <==> SlugTaken(posts, slug)
    ensures r.Some? ==> r.value in posts && r.value.slug == slug
  {
    if posts == [] then None
    else if posts[0].slug == slug then Some(posts[0])
    else
      var rest := FindBySlug(posts[1..], slug);
      assert SlugTaken(posts[1..], slug) ==> SlugTaken(posts, slug) by {
        if SlugTaken(posts[1..], slug) {
          var i :| 0 <= i < |posts[1..]| && posts[1..][i].slug == slug;
          assert posts[i + 1].slug == slug;
        }
      }
      assert SlugTaken(posts, slug) ==> SlugTaken(posts[1..], slug) by {
        if SlugTaken(posts, slug) {
          var i :| 0 <= i < |posts| && posts[i].slug == slug;
          assert i != 0 && posts[1..][i - 1].slug == slug;
        }
      }
      rest
  }

  predicate UserExists(users: seq<User>, id: UserId) {
    exists i :: 0 <= i < |users| && users[i].id == id
  }

  /** The lookup the `author` relation makes on `User` when a post is created. */
  function FindUserById(users: seq<User>, id: UserId): (r: Option<User>)
    ensures r.Some? <==> UserExists(users, id)
    ensures r.Some? ==> r.value in users && r.value.id == id
  {
    if users == [] then None
    else if users[0].id == id then Some(users[0])
    else
      var rest := FindUserById(users[1..], id);
      assert forall i :: 0 < i < |users| ==> users[i] == users[1..][i - 1];
      rest
  }

  /** The table invariant the database maintains for `Post`: `slug` and `id`
      are unique columns, and every id was handed out before `nextId`. */
  ghost predicate PostTableInvariant(posts: seq<Post>, nextId: PostId) {
    && (forall i, j :: 0 <= i < j < |posts| ==> posts[i].slug != posts[j].slug && posts[i].id != posts[j].id)
    && (forall i :: 0 <= i < |posts| ==> posts[i].id < nextId)
  }

  /** The table invariant for `User`: `email` and `id` are unique columns. */
  ghost predicate UserTableInvariant(users: seq<User>, nextId: UserId) {
    && (forall i, j :: 0 <= i < j < |users| ==> users[i].email != users[j].email && users[i].id != users[j].id)
    && (forall i :: 0 <= i < |users| ==> users[i].id < nextId)
  }

  /** Inserting a row whose slug is free under the next id keeps the `Post` invariant. */
  lemma InsertFreshPost(posts: seq<Post>, nextId: PostId, p: Post)
    requires PostTableInvariant(posts, nextId)
    requires !SlugTaken(posts, p.slug) && p.id == nextId
    ensures PostTableInvariant(posts + [p], nextId + 1)
  {
    var r := posts + [p];
    forall i, j | 0 <= i < j < |r| ensures r[i].slug != r[j].slug && r[i].id != r[j].id {
      if j == |posts| {
        assert r[i] == posts[i];
        assert r[i].slug != p.slug;
      }
    }
  }

  // ---- orderBy: { createdAt: 'desc' } ----

  /** Newest first: no post is older than one listed after it. */
  predicate NewestFirst(s: seq<Post>) {
    forall i, j :: 0 <= i < j < |s| ==> s[i].createdAt >= s[j].createdAt
  }

  /** Places `p` into the newest-first sequence `s`. */
  function InsertByDate(p: Post, s: seq<Post>): (r: seq<Post>)
    requires NewestFirst(s)
    ensures NewestFirst(r)
    ensures multiset(r) == multiset(s) + multiset{p}
  {
    if s == [] || p.createdAt >= s[0].createdAt then [p] + s
    else
      var rest := InsertByDate(p, s[1..]);
      assert s == [s[0]] + s[1..];
      assert forall x :: x in rest ==> x == p || x in s[1..] by {
        forall x | x in rest ensures x == p || x in s[1..] {
          assert x in multiset(rest);
        }
      }
      assert forall k :: 0 <= k < |rest| ==> s[0].createdAt >= rest[k].createdAt by {
        forall k | 0 <= k < |rest| ensures s[0].createdAt >= rest[k].createdAt {
          assert rest[k] in rest;
          if rest[k] != p {
            var m :| 0 <= m < |s[1..]| && s[1..][m] == rest[k];
            assert s[m + 1] == rest[k];
          }
        }
      }
      [s[0]] + rest
  }

  /** The store's rows rearranged newest first: a permutation of `s`. */
  function SortNewestFirst(s: seq<Post>): (r: seq<Post>)
    ensures NewestFirst(r)
    ensures multiset(r) == multiset(s)
  {
    if s == [] then []
    else
      assert s == [s[0]] + s[1..];
      InsertByDate(s[0], SortNewestFirst(s[1..]))
  }

  /** The database: both tables, and the id counters standing for the ids
      the database generates. Each handler runs on it atomically. */
  class Database {
    var users: seq<User>
    var posts: seq<Post>
    var nextUserId: UserId
    var nextPostId: PostId

    ghost predicate Valid()
      reads this
    {
      UserTableInvariant(users, nextUserId) && PostTableInvariant(posts, nextPostId)
    }

    constructor ()
      ensures Valid()
      ensures users == [] && posts == []
      ensures nextUserId == 0 && nextPostId == 0
    {
      users, posts := [], [];
      nextUserId, nextPostId := 0, 0;
    }
  }
}
