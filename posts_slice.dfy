/** The client's posts store: the list on screen, the post opened on its
    own, the last pagination metadata, and one loading flag and one error
    message per asynchronous operation. Each reducer case is a method that
    updates the state in place; the network calls behind the operations
    are not part of the model, only the actions they end in. */
module PostsSlice {
  import opened Common
  import opened FeedTypes

  /** The six asynchronous operations, each with its own loading and error slot. */
  datatype Op = FetchPosts | LoadMore | LoadPrevious | Refresh | CreatePost | FetchPost

  /** One value per operation. */
  datatype Slots<T> = Slots(fetchPosts: T, loadMore: T, loadPrevious: T, refresh: T, createPost: T, fetchPost: T)
  {
    function Get(op: Op): T
    {
      match op
      case FetchPosts => fetchPosts
      case LoadMore => loadMore
      case LoadPrevious => loadPrevious
      case Refresh => refresh
      case CreatePost => createPost
      case FetchPost => fetchPost
    }

    /** Changes the slot of `op` and no other. */
    function Set(op: Op, v: T): (r: Slots<T>)
      ensures r.Get(op) == v
      ensures forall o :: o != op ==> r.Get(o) == Get(o)
    {
      match op
      case FetchPosts => this.(fetchPosts := v)
      case LoadMore => this.(loadMore := v)
      case LoadPrevious => this.(loadPrevious := v)
      case Refresh => this.(refresh := v)
      case CreatePost => this.(createPost := v)
      case FetchPost => this.(fetchPost := v)
    }
  }

  function AllSlots<T>(v: T): (r: Slots<T>)
    ensures forall o :: r.Get(o) == v
  {
    Slots(v, v, v, v, v, v)
  }

  /** The pagination the store starts with and returns to on reset. */
  const InitialPagination := Pagination(10, false, false, None, None, 0, Next)

  /** The `updatePostLikes` change: the first post with `postId` gets the new
      count and flag; the others, and every post after it, are untouched. */
  function UpdateLikes(posts: seq<PostView>, postId: string, liked: bool, newCount: int): (r: seq<PostView>)
    ensures |r| == |posts|
    ensures forall i :: 0 <= i < |posts| ==> r[i].post.id == posts[i].post.id && r[i].time == posts[i].time
  {
    if posts == [] then []
    else if posts[0].post.id == postId then [WithLikes(posts[0], liked, newCount)] + posts[1..]
    else [posts[0]] + UpdateLikes(posts[1..], postId, liked, newCount)
  }

  function WithLikes(v: PostView, liked: bool, newCount: int): PostView
  {
    v.(post := v.post.(likes := newCount, isLiked := liked))
  }

  /** When the first post with `postId` sits at `k`, exactly that entry changes. */
  lemma {:induction false} UpdateLikesAt(posts: seq<PostView>, postId: string, liked: bool, newCount: int, k: int)
    requires 0 <= k < |posts| && posts[k].post.id == postId
    requires forall j :: 0 <= j < k ==> posts[j].post.id != postId
    ensures UpdateLikes(posts, postId, liked, newCount) == posts[k := WithLikes(posts[k], liked, newCount)]
  {
    if k > 0 {
      UpdateLikesAt(posts[1..], postId, liked, newCount, k - 1);
      assert posts[1..][k - 1 := WithLikes(posts[k], liked, newCount)]
          == posts[k := WithLikes(posts[k], liked, newCount)][1..];
    }
  }

  /** When no post has `postId`, nothing changes. */
  lemma {:induction false} UpdateLikesAbsent(posts: seq<PostView>, postId: string, liked: bool, newCount: int)
    requires forall j :: 0 <= j < |posts| ==> posts[j].post.id != postId
    ensures UpdateLikes(posts, postId, liked, newCount) == posts
  {
    if posts != [] {
      UpdateLikesAbsent(posts[1..], postId, liked, newCount);
      assert posts == [posts[0]] + posts[1..];
    }
  }

  /** Repeating the same update changes nothing more. */
  lemma {:induction false} UpdateLikesIdempotent(posts: seq<PostView>, postId: string, liked: bool, newCount: int)
    ensures var once := UpdateLikes(posts, postId, liked, newCount);
      UpdateLikes(once, postId, liked, newCount) == once
  {
    if posts != [] && posts[0].post.id != postId {
      UpdateLikesIdempotent(posts[1..], postId, liked, newCount);
    }
  }

  class PostsState {
    var posts: seq<PostView>
    var currentPost: Option<PostView>
    var pagination: Pagination
    var loading: Slots<bool>
    var error: Slots<Option<string>>

    /** `initialState`. */
    constructor()
      ensures posts == [] && currentPost == None && pagination == InitialPagination
      ensures loading == AllSlots(false) && error == AllSlots(None)
    {
      posts := [];
      currentPost := None;
      pagination := InitialPagination;
      loading := AllSlots(false);
      error := AllSlots(None);
    }

    /** Every `pending` case: its own flag on, its own error cleared, nothing else. */
    method Pending(op: Op)
      modifies this
      ensures loading == old(loading).Set(op, true) && error == old(error).Set(op, None)
      ensures posts == old(posts) && currentPost == old(currentPost) && pagination == old(pagination)
    {
      loading := loading.Set(op, true);
      error := error.Set(op, None);
    }

    /** Every `rejected` case: its own flag off, the rejection's message as
        its own error; posts and pagination stay. */
    method Rejected(op: Op, message: Option<string>)
      modifies this
      ensures loading == old(loading).Set(op, false) && error == old(error).Set(op, message)
      ensures posts == old(posts) && currentPost == old(currentPost) && pagination == old(pagination)
    {
      loading := loading.Set(op, false);
      error := error.Set(op, message);
    }

    /** `fetchPosts.fulfilled`: the page replaces the list when `reset` is set
        or the direction is "next" or "prev"; any other direction keeps the
        list. The pagination is replaced in every case. */
    method FetchPostsFulfilled(page: seq<PostView>, newPagination: Pagination, reset: bool)
      modifies this
      ensures posts == if reset || newPagination.direction.Next? || newPagination.direction.Prev?
                       then page else old(posts)
      ensures pagination == newPagination
      ensures loading == old(loading).Set(FetchPosts, false) && error == old(error).Set(FetchPosts, None)
      ensures currentPost == old(currentPost)
    {
      loading := loading.Set(FetchPosts, false);
      if reset {
        posts := page;
      } else {
        if newPagination.direction.Next? {
          posts := page;
        } else if newPagination.direction.Prev? {
          posts := page;
        }
      }
      pagination := newPagination;
      error := error.Set(FetchPosts, None);
    }

    /** `loadMorePosts.fulfilled`: the page goes after the list, as it is. */
    method LoadMoreFulfilled(page: seq<PostView>, newPagination: Pagination)
      modifies this
      ensures posts == old(posts) + page
      ensures pagination == newPagination
      ensures loading == old(loading).Set(LoadMore, false) && error == old(error).Set(LoadMore, None)
      ensures currentPost == old(currentPost)
    {
      loading := loading.Set(LoadMore, false);
      posts := posts + page;
      pagination := newPagination;
      error := error.Set(LoadMore, None);
    }

    /** `loadPreviousPosts.fulfilled`: the page goes before the list. */
    method LoadPreviousFulfilled(page: seq<PostView>, newPagination: Pagination)
      modifies this
      ensures posts == page + old(posts)
      ensures pagination == newPagination
      ensures loading == old(loading).Set(LoadPrevious, false) && error == old(error).Set(LoadPrevious, None)
      ensures currentPost == old(currentPost)
    {
      loading := loading.Set(LoadPrevious, false);
      posts := page + posts;
      pagination := newPagination;
      error := error.Set(LoadPrevious, None);
    }

    /** `refreshPosts.fulfilled`: the page replaces the list. */
    method RefreshFulfilled(page: seq<PostView>, newPagination: Pagination)
      modifies this
      ensures posts == page
      ensures pagination == newPagination
      ensures loading == old(loading).Set(Refresh, false) && error == old(error).Set(Refresh, None)
      ensures currentPost == old(currentPost)
    {
      loading := loading.Set(Refresh, false);
      posts := page;
      pagination := newPagination;
      error := error.Set(Refresh, None);
    }

    /** `createPost.fulfilled`: the new post goes first and the total grows by one. */
    method CreatePostFulfilled(created: PostView)
      modifies this
      ensures posts == [created] + old(posts)
      ensures pagination == old(pagination).(totalPosts := old(pagination).totalPosts + 1)
      ensures loading == old(loading).Set(CreatePost, false) && error == old(error).Set(CreatePost, None)
      ensures currentPost == old(currentPost)
    {
      loading := loading.Set(CreatePost, false);
      posts := [created] + posts;
      pagination := pagination.(totalPosts := pagination.totalPosts + 1);
      error := error.Set(CreatePost, None);
    }

    /** `fetchPostById.fulfilled`: only the opened post changes. */
    method FetchPostByIdFulfilled(fetched: PostView)
      modifies this
      ensures currentPost == Some(fetched)
      ensures loading == old(loading).Set(FetchPost, false) && error == old(error).Set(FetchPost, None)
      ensures posts == old(posts) && pagination == old(pagination)
    {
      loading := loading.Set(FetchPost, false);
      currentPost := Some(fetched);
      error := error.Set(FetchPost, None);
    }

    /** `clearErrors`: every error slot empty, nothing else touched. */
    method ClearErrors()
      modifies this
      ensures error == AllSlots(None)
      ensures posts == old(posts) && currentPost == old(currentPost)
      ensures pagination == old(pagination) && loading == old(loading)
    {
      error := AllSlots(None);
    }

    /** `clearCurrentPost`. */
    method ClearCurrentPost()
      modifies this
      ensures currentPost == None
      ensures posts == old(posts) && pagination == old(pagination)
      ensures loading == old(loading) && error == old(error)
    {
      currentPost := None;
    }

    /** `resetPosts`: an empty list and the initial pagination; the loading
        flags and errors stay as they are. */
    method ResetPosts()
      modifies this
      ensures posts == [] && pagination == InitialPagination
      ensures currentPost == old(currentPost) && loading == old(loading) && error == old(error)
    {
      posts := [];
      pagination := InitialPagination;
    }

    /** `updatePostLikes`: finds the first post with the id and sets its count
        and flag in place. */
    method UpdatePostLikes(postId: string, liked: bool, newCount: int)
      modifies this
      ensures posts == UpdateLikes(old(posts), postId, liked, newCount)
      ensures currentPost == old(currentPost) && pagination == old(pagination)
      ensures loading == old(loading) && error == old(error)
    {
      var k := 0;
      while k < |posts|
        invariant 0 <= k <= |posts|
        invariant forall j :: 0 <= j < k ==> posts[j].post.id != postId
      {
        if posts[k].post.id == postId {
          UpdateLikesAt(posts, postId, liked, newCount, k);
          posts := posts[k := WithLikes(posts[k], liked, newCount)];
          return;
        }
        k := k + 1;
      }
      UpdateLikesAbsent(posts, postId, liked, newCount);
    }
  }
}
