/** The feed list component: the like button's local update and the
    conditions that decide which parts of the list and which pagination
    controls are rendered, shown busy or disabled. Everything here is an
    expression over the component's props; the only effect, the dispatch
    of `updatePostLikes`, is returned as a value. */
module NewsFeedPosts {
  import opened Common
  import opened FeedTypes
  import opened PostsList
  import opened PostsStore
  import opened PostsSlice

  /** The payload `handleLike` dispatches as `updatePostLikes`. */
  datatype LikeAction = LikeAction(postId: string, liked: bool, newCount: int)

  /** `handleLike`: flip the post's flag, and add a like or take one away
      without going below zero. */
  function HandleLike(p: Post): (a: LikeAction)
    ensures a.postId == p.id
    ensures a.liked != p.isLiked
    ensures a.liked ==> a.newCount == p.likes + 1
    ensures !a.liked ==> a.newCount == (if p.likes >= 1 then p.likes - 1 else 0)
  {
    var liked := !p.isLiked;
    LikeAction(p.id, liked, if liked then p.likes + 1 else Max(0, p.likes - 1))
  }

  /** The action applied to the client's list. */
  function Dispatch(posts: seq<PostView>, a: LikeAction): seq<PostView>
  {
    UpdateLikes(posts, a.postId, a.liked, a.newCount)
  }

  /** The local update gives a post exactly what the backend's like handler
      would store for the same toggle. */
  lemma ClientMatchesServer(p: Post)
    ensures var a := HandleLike(p);
      p.(likes := a.newCount, isLiked := a.liked) == LikeTransition(p, !p.isLiked)
  {
  }

  /** On a list, clicking a post's like button changes that post as the
      backend would and leaves every other entry as it was. */
  lemma {:induction false} ClickLike(posts: seq<PostView>, k: int)
    requires 0 <= k < |posts|
    requires forall j :: 0 <= j < k ==> posts[j].post.id != posts[k].post.id
    ensures var after := Dispatch(posts, HandleLike(posts[k].post));
      && |after| == |posts|
      && after[k].post == LikeTransition(posts[k].post, !posts[k].post.isLiked)
      && after[k].time == posts[k].time
      && forall j :: 0 <= j < |posts| && j != k ==> after[j] == posts[j]
  {
    var p := posts[k].post;
    var a := HandleLike(p);
    UpdateLikesAt(posts, p.id, a.liked, a.newCount, k);
    ClientMatchesServer(p);
  }

  /** Clicking the like button twice on an unliked post with a valid count
      gives back the list it started from. */
  lemma {:induction false} LikeTwiceRestores(posts: seq<PostView>, k: int)
    requires 0 <= k < |posts|
    requires forall j :: 0 <= j < k ==> posts[j].post.id != posts[k].post.id
    requires !posts[k].post.isLiked && posts[k].post.likes >= 0
    ensures var once := Dispatch(posts, HandleLike(posts[k].post));
      Dispatch(once, HandleLike(once[k].post)) == posts
  {
    var once := Dispatch(posts, HandleLike(posts[k].post));
    ClickLike(posts, k);
    assert forall j :: 0 <= j < k ==> once[j].post.id != once[k].post.id;
    ClickLike(once, k);
    var twice := Dispatch(once, HandleLike(once[k].post));
    LikeThenUnlikeRestores(posts[k].post);
    assert twice[k] == posts[k];
  }

  /** `!pagination.nextCursor` and `!pagination.prevCursor` are false for
      every cursor the backend sends: a cursor is a post's `createdAt`, a
      non-empty date string, so only a null cursor is falsy. */
  predicate CursorTruthy(c: Option<int>)
  {
    c.Some?
  }

  /** What the component renders for one set of props. */
  datatype Controls = Controls(
    skeleton: bool,            // the three placeholder cards, and nothing else
    refreshShown: bool,        // "Refresh for newest posts"
    newerLoading: bool,        // "Loading newer posts..." above the list
    moreLoading: bool,         // "Loading more posts..." below the list
    loadMoreShown: bool,
    loadMoreDisabled: bool,
    navigationShown: bool,     // the Newer / Older buttons and the counts between them
    newerDisabled: bool,
    olderDisabled: bool,
    infoShown: bool)           // "Showing n posts / m total posts"

  /** The component's render. While the first page is loading and no posts
      are present it returns the skeleton early, so none of the controls
      exist; otherwise each control follows its own condition. */
  function Render(posts: seq<PostView>, loading: Slots<bool>, pagination: Pagination): (c: Controls)
    ensures c.skeleton <==> loading.fetchPosts && |posts| == 0
    ensures c.skeleton ==> !c.refreshShown && !c.loadMoreShown && !c.navigationShown && !c.infoShown
    ensures !c.skeleton ==>
      && c.navigationShown
      && (c.refreshShown <==> pagination.hasPrevPage)
      && (c.newerLoading <==> loading.loadPrevious)
      && (c.moreLoading <==> loading.loadMore)
      && (c.loadMoreShown <==> pagination.hasNextPage)
      && (c.loadMoreDisabled <==> loading.loadMore || loading.fetchPosts)
      && (c.newerDisabled <==> !CursorTruthy(pagination.prevCursor) || loading.fetchPosts)
      && (c.olderDisabled <==> !CursorTruthy(pagination.nextCursor) || loading.fetchPosts)
      && (c.infoShown <==> pagination.totalPosts > 0)
  {
    if loading.fetchPosts && |posts| == 0 then
      Controls(true, false, false, false, false, false, false, false, false, false)
    else
      Controls(
        false,
        pagination.hasPrevPage,
        loading.loadPrevious,
        loading.loadMore,
        pagination.hasNextPage,
        loading.loadMore || loading.fetchPosts,
        true,
        !CursorTruthy(pagination.prevCursor) || loading.fetchPosts,
        !CursorTruthy(pagination.nextCursor) || loading.fetchPosts,
        pagination.totalPosts > 0)
  }

  /** While a page fetch is in flight no rendered control can start another
      load: load-more, Newer and Older are all disabled or absent. The
      refresh button is the exception: nothing disables it. */
  lemma NoNavigationWhileFetching(posts: seq<PostView>, loading: Slots<bool>, pagination: Pagination)
    requires loading.fetchPosts
    ensures var c := Render(posts, loading, pagination);
      && (c.loadMoreShown ==> c.loadMoreDisabled)
      && (c.navigationShown ==> c.newerDisabled && c.olderDisabled)
      && (pagination.hasPrevPage && |posts| > 0 ==> c.refreshShown)
  {
  }

  /** With the pagination of a list response and no fetch in flight,
      "Older" is enabled exactly when the backend reported a next page, and
      "Newer" exactly when the page was not empty. "Newer" is thus enabled
      on the newest page too: the backend sets `prevCursor` whenever the
      page has a post. */
  lemma ButtonsFollowResponse(store: seq<Post>, q: ListQuery, now: int,
                              posts: seq<PostView>, loading: Slots<bool>)
    requires ListPosts(store, q, now).Listed?
    requires !loading.fetchPosts
    ensures var r := ListPosts(store, q, now);
      var c := Render(posts, loading, r.pagination);
      && (c.olderDisabled <==> !r.pagination.hasNextPage)
      && (c.newerDisabled <==> r.posts == [])
  {
  }
}
