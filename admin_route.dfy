/** The `/api/posts/admin` route: an administrator's read-only view of every
    post, published or not, newest first. */
module AdminPostsRoute {
  import opened Common
  import opened Blog
  import PostsRoute

  /** `GET /api/posts/admin`: 401 "Unauthorized" unless the caller is an
      administrator; otherwise 200 with every stored post, each as often as it
      is stored, newest first. The store is an input only, so it is left as it was. */
  function Get(session: Option<Session>, posts: seq<Post>): (r: Response)
    ensures r.status == 401 <==> !IsAdmin(session)
    ensures !IsAdmin(session) ==> r.body == Error("Unauthorized")
    ensures IsAdmin(session) ==>
      && r.status == 200 && r.body.Many?
      && multiset(r.body.posts) == multiset(posts)
      && NewestFirst(r.body.posts)
  {
    if session.None? || session.value.role != AdminRole then
      Response(401, Error("Unauthorized"))
    else
      Response(200, Many(SortNewestFirst(posts)))
  }

  /** Every post an anonymous visitor can list, an administrator can list too,
      and an administrator also sees the drafts. */
  lemma PublicListingWithinAdminListing(session: Option<Session>, posts: seq<Post>)
    requires IsAdmin(session)
    ensures forall p :: p in PostsRoute.Get(posts).body.posts ==> p in Get(session, posts).body.posts
    ensures forall p :: p in posts && !p.published ==>
      p !in PostsRoute.Get(posts).body.posts && p in Get(session, posts).body.posts
  {
    var all := Get(session, posts).body.posts;
    forall p | p in posts ensures p in all {
      assert p in multiset(all);
    }
  }
}
