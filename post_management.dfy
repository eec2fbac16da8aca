/** The client-side post-management context: the list of posts the dashboard
    shows, and the updaters the create form and the posts table call. */
module PostManagementContext {
  import opened Common
  import opened Blog
  import AdminPostsRoute

  /** How a `fetch` of the admin listing ends: an ok response with its JSON
      array, a response that is not ok, or a thrown error. */
  datatype FetchResult = Ok(data: seq<Post>) | NotOk | Threw

  /** The fetch `refreshPosts` makes, answered by the admin route for the
      signed-in session; `response.ok` means a 2xx status. */
  function FetchAdminPosts(session: Option<Session>, posts: seq<Post>): (r: FetchResult)
    ensures r.Ok? <==> IsAdmin(session)
    ensures r.Ok? ==> multiset(r.data) == multiset(posts) && NewestFirst(r.data)
  {
    var response := AdminPostsRoute.Get(session, posts);
    if 200 <= response.status < 300 && response.body.Many? then Ok(response.body.posts) else NotOk
  }

  /** `prev.filter(p => p.id !== postId)`. */
  function WithoutId(s: seq<Post>, postId: PostId): (r: seq<Post>)
    ensures forall p :: p in r <==> p in s && p.id != postId
  {
    Filter((p: Post) => p.id != postId, s)
  }

  /** Removing keeps every other post as often as it occurred. */
  lemma WithoutIdKeepsOthers(s: seq<Post>, postId: PostId, p: Post)
    ensures multiset(WithoutId(s, postId))[p] == if p.id == postId then 0 else multiset(s)[p]
  {
    FilterCount((p: Post) => p.id != postId, s, p);
  }

  /** Removing keeps relative order: the survivors of a front part come
      before the survivors of a back part. */
  lemma WithoutIdKeepsOrder(a: seq<Post>, b: seq<Post>, postId: PostId)
    ensures WithoutId(a + b, postId) == WithoutId(a, postId) + WithoutId(b, postId)
  {
    FilterConcat((p: Post) => p.id != postId, a, b);
  }

  /** Removing an id that is not present changes nothing. */
  lemma WithoutAbsentId(s: seq<Post>, postId: PostId)
    requires forall i :: 0 <= i < |s| ==> s[i].id != postId
    ensures WithoutId(s, postId) == s
  {
    FilterKeepsAll((p: Post) => p.id != postId, s);
  }

  /** Removing the same id twice is removing it once. */
  lemma WithoutIdIdempotent(s: seq<Post>, postId: PostId)
    ensures WithoutId(WithoutId(s, postId), postId) == WithoutId(s, postId)
  {
    FilterIdempotent((p: Post) => p.id != postId, s);
  }

  /** `PostManagementProvider`'s state and the functions it shares. */
  class PostManagement {
    var posts: seq<Post>

    /** `useState<Post[]>([])`. */
    constructor ()
      ensures posts == []
    {
      posts := [];
    }

    method SetPosts(next: seq<Post>)
      modifies this
      ensures posts == next
    {
      posts := next;
    }

    /** The new post goes first; the earlier posts follow in their order. */
    method AddPost(post: Post)
      modifies this
      ensures posts == [post] + old(posts)
      ensures |posts| == |old(posts)| + 1 && posts[0] == post && posts[1..] == old(posts)
    {
      posts := [post] + posts;
    }

    /** No post with `postId` is left; every other post keeps its place in order. */
    method RemovePost(postId: PostId)
      modifies this
      ensures posts == WithoutId(old(posts), postId)
    {
      posts := WithoutId(posts, postId);
    }

    /** The list is replaced by the response data only when the response is ok. */
    method RefreshPosts(response: FetchResult)
      modifies this
      ensures posts == if response.Ok? then response.data else old(posts)
    {
      match response
      case Ok(data) => posts := data;
      case NotOk =>
      case Threw =>
    }
  }

  /** Refreshing as an administrator loads the whole store, newest first;
      refreshing without that role leaves the list as it was. */
  method RefreshFromServer(context: PostManagement, session: Option<Session>, store: seq<Post>)
    modifies context
    ensures IsAdmin(session) ==> multiset(context.posts) == multiset(store) && NewestFirst(context.posts)
    ensures !IsAdmin(session) ==> context.posts == old(context.posts)
  {
    context.RefreshPosts(FetchAdminPosts(session, store));
  }
}
