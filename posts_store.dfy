/** The write side of the mock feed backend: the module-level posts array
    and the handlers that change it in place (create, like, comment), plus
    the two read handlers (list, fetch one). Request ids, the clock and the
    simulated random failure are parameters of the handlers. */
module PostsStore {
  import opened Common
  import opened FeedTypes
  import opened PostsList

  /** The longest content a new post may have. */
  const MaxContentLength := 5000

  /** `posts.find((p) => p.id === id)`: the position of the first post with `id`. */
  function FindIndex(posts: seq<Post>, id: string): (r: Option<nat>)
    ensures r.Some? ==> r.value < |posts| && posts[r.value].id == id
    ensures r.Some? ==> forall j :: 0 <= j < r.value ==> posts[j].id != id
    ensures r.None? <==> forall j :: 0 <= j < |posts| ==> posts[j].id != id
  {
    if posts == [] then None
    else if posts[0].id == id then Some(0)
    else
      match FindIndex(posts[1..], id)
      case None => None
      case Some(k) => Some(k + 1)
  }

  /** The like handler's update of one post: liking an unliked post adds a
      like, unliking a liked post removes one but never goes below zero, and
      a request that matches the post's current state changes nothing. */
  function LikeTransition(p: Post, isLiked: bool): (r: Post)
    ensures r.isLiked == isLiked
    ensures r == p.(likes := r.likes, isLiked := r.isLiked)
    ensures p.isLiked == isLiked ==> r == p
    ensures isLiked && !p.isLiked ==> r.likes == p.likes + 1
    ensures !isLiked && p.isLiked ==> r.likes == if p.likes >= 1 then p.likes - 1 else 0
  {
    if isLiked && !p.isLiked then p.(likes := p.likes + 1, isLiked := true)
    else if !isLiked && p.isLiked then p.(likes := if p.likes - 1 > 0 then p.likes - 1 else 0, isLiked := false)
    else p
  }

  /** Repeating a like request changes nothing more. */
  lemma LikeIdempotent(p: Post, isLiked: bool)
    ensures LikeTransition(LikeTransition(p, isLiked), isLiked) == LikeTransition(p, isLiked)
  {
  }

  /** A like followed by an unlike restores an unliked post with a valid count. */
  lemma LikeThenUnlikeRestores(p: Post)
    requires !p.isLiked && p.likes >= 0
    ensures LikeTransition(LikeTransition(p, true), false) == p
  {
  }

  /** Whatever the requests, the like count of a post that starts non-negative stays so. */
  lemma {:induction false} LikesStayNonNegative(p: Post, requests: seq<bool>)
    requires p.likes >= 0
    ensures ApplyLikes(p, requests).likes >= 0
    decreases requests
  {
    if requests != [] {
      LikesStayNonNegative(LikeTransition(p, requests[0]), requests[1..]);
    }
  }

  /** A sequence of like requests on one post, applied in order. */
  function ApplyLikes(p: Post, requests: seq<bool>): Post
    decreases requests
  {
    if requests == [] then p else ApplyLikes(LikeTransition(p, requests[0]), requests[1..])
  }

  /** A post as the create handler builds it: no likes, comments or shares yet,
      and `imageUrl || null`. */
  function NewPost(id: string, userName: string, content: string, now: int, hasImage: bool,
                   imageUrl: Option<string>): Post
  {
    Post(id, userName, content, now, 0, 0, 0, false, hasImage, if Truthy(imageUrl) then imageUrl else None)
  }

  datatype LikeReply = LikeReply(postId: string, likes: int, isLiked: bool)

  /** A stored comment is not kept: it only travels back in the response. Its
      `time` is the literal "Just now". */
  datatype Comment = Comment(id: string, content: string, userName: string, createdAt: int)

  /** The comment the handler builds: trimmed fields, the given id and time. */
  function NewComment(id: string, content: string, userName: string, now: int): Comment
  {
    Comment(id, Trim(content), Trim(userName), now)
  }

  datatype CommentReply = CommentReply(postId: string, comment: Comment, totalComments: nat)

  /** The first page a client asks for: no cursor, the default direction. */
  lemma {:induction false} NewestPostListedFirst(p: Post, store: seq<Post>, q: ListQuery, now: int)
    requires forall i :: 0 <= i < |store| ==> store[i].createdAt <= p.createdAt
    requires 1 <= EffectiveLimit(q.limit) <= 50 && q.cursor.Absent?
    ensures var r := ListPosts([p] + store, q, now);
      r.Listed? && |PageIn(r)| >= 1 && PageIn(r)[0] == p
  {
    var all := [p] + store;
    assert all[1..] == store;
    SortKeepsNewestHead(all);
    var sorted := SortNewestFirst(all);
    var r := ListPosts(all, q, now);
    assert PageIn(r) == Paginated(sorted, q.direction, EffectiveLimit(q.limit));
  }

  /** The backend's in-memory posts array. */
  class PostStore {
    var posts: seq<Post>

    /** No handler ever makes a like count negative. */
    ghost predicate Valid()
      reads this
    {
      forall i :: 0 <= i < |posts| ==> posts[i].likes >= 0
    }

    constructor(initial: seq<Post>)
      requires forall i :: 0 <= i < |initial| ==> initial[i].likes >= 0
      ensures posts == initial && Valid()
    {
      posts := initial;
    }

    /** `posts.find`, walking the array from the front. */
    method Find(id: string) returns (i: Option<nat>)
      ensures i == FindIndex(posts, id)
    {
      var k := 0;
      while k < |posts|
        invariant 0 <= k <= |posts|
        invariant forall j :: 0 <= j < k ==> posts[j].id != id
      {
        if posts[k].id == id {
          return Some(k);
        }
        k := k + 1;
      }
      return None;
    }

    /** GET /api/posts: reads the array and leaves it as it is. */
    method List(q: ListQuery, now: int) returns (r: ListResult)
      ensures r == ListPosts(posts, q, now)
    {
      r := ListPosts(posts, q, now);
    }

    /** GET /api/posts/:id: the first post with the id, with its time label. */
    method GetById(id: string, now: int) returns (r: Outcome<PostView>)
      ensures FindIndex(posts, id).None? <==> r == Err(PostNotFound)
      ensures r.Ok? <==> FindIndex(posts, id).Some?
      ensures r.Ok? ==> var i := FindIndex(posts, id).value;
        r.value == PostView(posts[i], GetTimeAgo(now, posts[i].createdAt))
    {
      var i := Find(id);
      if i.None? {
        return Err(PostNotFound);
      }
      var p := posts[i.value];
      return Ok(PostView(p, GetTimeAgo(now, p.createdAt)));
    }

    /** POST /api/posts. Both fields must be non-empty strings and the content
        (before trimming) at most 5000 characters; the new post goes to the
        front of the array. Content made only of whitespace passes the check
        and is stored empty. */
    method Create(userName: Option<string>, content: Option<string>, hasImage: bool,
                  imageUrl: Option<string>, id: string, now: int) returns (r: Outcome<PostView>)
      requires Valid()
      modifies this
      ensures Valid()
      ensures !Truthy(userName) || !Truthy(content) ==> r == Err(MissingFields)
      ensures Truthy(userName) && Truthy(content) && |content.value| > MaxContentLength ==> r == Err(ContentTooLong)
      ensures r.Err? ==> posts == old(posts)
      ensures r.Ok? <==> Truthy(userName) && Truthy(content) && |content.value| <= MaxContentLength
      ensures r.Ok? ==>
        var p := r.value.post;
        && posts == [p] + old(posts)
        && r.value.time == JustNow
        && p.id == id && p.createdAt == now
        && p.userName == Trim(userName.value) && p.content == Trim(content.value)
        && p.likes == 0 && p.comments == 0 && p.shares == 0 && !p.isLiked
        && p.hasImage == hasImage
        && p.imageUrl == (if Truthy(imageUrl) then imageUrl else None)
    {
      if !Truthy(userName) || !Truthy(content) {
        return Err(MissingFields);
      }
      if |content.value| > MaxContentLength {
        return Err(ContentTooLong);
      }
      var p := NewPost(id, Trim(userName.value), Trim(content.value), now, hasImage, imageUrl);
      posts := [p] + posts;
      r := Ok(PostView(p, JustNow));
    }

    /** POST /api/posts/:id/like. An unknown id is answered 404 and a
        simulated failure 500, both without any change; otherwise the first
        post with the id gets LikeTransition and nothing else changes. */
    method Like(id: string, isLiked: bool, fail: bool) returns (r: Outcome<LikeReply>)
      requires Valid()
      modifies this
      ensures Valid()
      ensures FindIndex(old(posts), id).None? <==> r == Err(PostNotFound)
      ensures FindIndex(old(posts), id).Some? && fail <==> r == Err(LikeFailed)
      ensures r.Ok? <==> FindIndex(old(posts), id).Some? && !fail
      ensures r.Err? ==> posts == old(posts)
      ensures r.Ok? ==>
        var i := FindIndex(old(posts), id).value;
        && posts == old(posts)[i := LikeTransition(old(posts)[i], isLiked)]
        && r.value == LikeReply(id, posts[i].likes, posts[i].isLiked)
    {
      var i := Find(id);
      if i.None? {
        return Err(PostNotFound);
      }
      if fail {
        return Err(LikeFailed);
      }
      var k := i.value;
      var p := LikeTransition(posts[k], isLiked);
      posts := posts[k := p];
      r := Ok(LikeReply(id, p.likes, p.isLiked));
    }

    /** POST /api/posts/:id/comment. The id is looked up before the fields
        are checked, so an unknown id is answered 404 even when fields are
        missing. On success only that post's comment count grows, by one. */
    method AddComment(id: string, content: Option<string>, userName: Option<string>, fail: bool,
                      commentId: string, now: int) returns (r: Outcome<CommentReply>)
      requires Valid()
      modifies this
      ensures Valid()
      ensures FindIndex(old(posts), id).None? <==> r == Err(PostNotFound)
      ensures FindIndex(old(posts), id).Some? && !(Truthy(content) && Truthy(userName)) ==> r == Err(MissingFields)
      ensures FindIndex(old(posts), id).Some? && Truthy(content) && Truthy(userName) ==> (fail <==> r == Err(CommentFailed))
      ensures r.Ok? <==> FindIndex(old(posts), id).Some? && Truthy(content) && Truthy(userName) && !fail
      ensures r.Err? ==> posts == old(posts)
      ensures r.Ok? ==>
        var i := FindIndex(old(posts), id).value;
        && posts == old(posts)[i := old(posts)[i].(comments := old(posts)[i].comments + 1)]
        && r.value == CommentReply(id, NewComment(commentId, content.value, userName.value, now),
                                   posts[i].comments)
    {
      var i := Find(id);
      if i.None? {
        return Err(PostNotFound);
      }
      if !Truthy(content) || !Truthy(userName) {
        return Err(MissingFields);
      }
      if fail {
        return Err(CommentFailed);
      }
      var k := i.value;
      var p := posts[k].(comments := posts[k].comments + 1);
      posts := posts[k := p];
      var c := NewComment(commentId, content.value, userName.value, now);
      r := Ok(CommentReply(id, c, p.comments));
    }
  }
}
