/** The administrator dashboard page: who may see it, and the published-post
    count it shows. */
module DashboardPage {
  import opened Common
  import opened Blog
  import PostsRoute
  import AdminPostsRoute

  /** What the page does: send the visitor elsewhere, or render with the count. */
  datatype DashboardView = Redirect(to: string) | Render(publishedCount: nat)

  /** `post.count({ where: { published: true } })`: as many as the
      published-only filter keeps. */
  function CountPublished(posts: seq<Post>): (n: nat)
    ensures n == |Filter(IsPublished, posts)|
  {
    if posts == [] then 0
    else (if posts[0].published then 1 else 0) + CountPublished(posts[1..])
  }

  /** The dashboard's decision: no session goes to "/login", a session
      without the administrator role goes to "/", and only an administrator
      sees the page, whose "Total Posts" card shows as many posts as the
      public listing returns. */
  function Dashboard(session: Option<Session>, posts: seq<Post>): (v: DashboardView)
    ensures session.None? ==> v == Redirect("/login")
    ensures session.Some? && session.value.role != AdminRole ==> v == Redirect("/")
    ensures v.Render? <==> IsAdmin(session)
    ensures v.Render? ==> v.publishedCount == |PostsRoute.Get(posts).body.posts|
  {
    if session.None? then Redirect("/login")
    else if session.value.role != AdminRole then Redirect("/")
    else
      var listed := PostsRoute.Get(posts).body.posts;
      assert multiset(listed) == multiset(Filter(IsPublished, posts)) by {
        forall p: Post ensures multiset(listed)[p] == multiset(Filter(IsPublished, posts))[p] {
          FilterCount(IsPublished, posts, p);
          if !p.published {
            assert p !in listed;
          }
        }
      }
      assert |listed| == |multiset(listed)|;
      Render(CountPublished(posts))
  }

  /** One guard for all three: `POST /api/posts` and `GET /api/posts/admin`
      answer 401 exactly for the callers the dashboard does not render for. */
  lemma GuardSharedByHandlers(users: seq<User>, posts: seq<Post>, id: PostId, session: Option<Session>,
                              body: PostsRoute.CreateBody, now: nat)
    ensures PostsRoute.CreateOutcomeOf(users, posts, id, session, body, now).response.status == 401
        <==> !Dashboard(session, posts).Render?
    ensures AdminPostsRoute.Get(session, posts).status == 401 <==> !Dashboard(session, posts).Render?
  {
  }
}
