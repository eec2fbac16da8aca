/** The dashboard's posts table: loading the list once, deleting a post after
    confirmation, and what each row shows. */
module PostsTable {
  import opened Common
  import opened Blog
  import opened PostManagementContext

  /** How `fetch(`/api/posts/${postId}`, { method: 'DELETE' })` ends. */
  datatype DeleteResult = DeleteOk | DeleteNotOk | DeleteThrew

  /** A row of the table: the post's id (the target of its delete button),
      title, excerpt, status label and view link. */
  datatype Row = Row(postId: PostId, title: string, excerpt: Option<string>, status: string, viewHref: Option<string>)

  /** What the card shows. */
  datatype TableView = LoadingCard | EmptyState | Rows(rows: seq<Row>)

  /** The status badge reads "Published" for a published post and "Draft" otherwise. */
  function StatusLabel(p: Post): (text: string)
    ensures text == "Published" <==> p.published
    ensures text == "Draft" <==> !p.published
  {
    if p.published then "Published" else "Draft"
  }

  /** Only a published post gets a view link, and it points at its public page. */
  function ViewHref(p: Post): (href: Option<string>)
    ensures href.Some? <==> p.published
    ensures href.Some? ==> href.value == "/posts/" + p.slug
  {
    if p.published then Some("/posts/" + p.slug) else None
  }

  function RowOf(p: Post): Row {
    Row(p.id, p.title, p.excerpt, StatusLabel(p), ViewHref(p))
  }

  /** The table while loading, with no posts, and with one row per post in list order. */
  function Render(loading: bool, posts: seq<Post>): (v: TableView)
    ensures loading ==> v == LoadingCard
    ensures !loading && posts == [] ==> v == EmptyState
    ensures !loading && posts != [] ==>
      && v.Rows? && |v.rows| == |posts|
      && forall i :: 0 <= i < |posts| ==>
           && v.rows[i].postId == posts[i].id
           && (v.rows[i].status == "Published" <==> posts[i].published)
           && (v.rows[i].viewHref.Some? <==> posts[i].published)
           && (v.rows[i].viewHref.Some? ==> v.rows[i].viewHref.value == "/posts/" + posts[i].slug)
  {
    if loading then LoadingCard
    else if |posts| == 0 then EmptyState
    else Rows(seq(|posts|, i requires 0 <= i < |posts| => RowOf(posts[i])))
  }

  /** `PostsTable`'s own state, over the shared post-management context. */
  class Table {
    const context: PostManagement
    var loading: bool

    /** `useState(true)`: the table starts out loading. */
    constructor (context: PostManagement)
      ensures this.context == context && loading
    {
      this.context := context;
      loading := true;
    }

    /** The mount effect: `await refreshPosts()`, then stop loading. */
    method LoadPosts(response: FetchResult)
      modifies this, context
      ensures !loading
      ensures context.posts == if response.Ok? then response.data else old(context.posts)
    {
      context.RefreshPosts(response);
      loading := false;
    }

    /** `handleDelete`: nothing happens unless the user confirms; an ok
        response removes exactly that id from the shared list; a response that
        is not ok, or a thrown error, raises an alert and leaves the list. */
    method HandleDelete(postId: PostId, confirmed: bool, response: DeleteResult) returns (requested: bool, alerted: bool)
      modifies context
      ensures requested == confirmed
      ensures alerted == (confirmed && !response.DeleteOk?)
      ensures context.posts == if confirmed && response.DeleteOk? then WithoutId(old(context.posts), postId) else old(context.posts)
    {
      if !confirmed {
        return false, false;
      }
      requested := true;
      match response
      case DeleteOk =>
        context.RemovePost(postId);
        alerted := false;
      case DeleteNotOk =>
        alerted := true;
      case DeleteThrew =>
        alerted := true;
    }
  }
}
