/** The records exchanged between the mock feed backend and the client
    store: posts, the relative-time label attached to every post a
    response carries, the pagination metadata and the handlers' errors.
    Timestamps (`createdAt`, cursors, "now") are integer milliseconds. */
module FeedTypes {
  import opened Common

  /** A post as the backend stores it. The display-only fields (avatar and
      image gradients) are not modelled; `time` is recomputed by every
      response and so lives in PostView instead. */
  datatype Post = Post(
    id: string,
    userName: string,
    content: string,
    createdAt: int,
    likes: int,
    comments: nat,
    shares: nat,
    isLiked: bool,
    hasImage: bool,
    imageUrl: Option<string>)

  /** The output of `getTimeAgo`; a post older than a week shows its
      locale-formatted date, kept here as the timestamp it is formatted from. */
  datatype TimeAgo =
    | JustNow
    | MinutesAgo(minutes: int)
    | HoursAgo(hours: int)
    | DaysAgo(days: int)
    | OnDate(createdAt: int)

  /** A post as a response carries it: the stored fields plus `time`. */
  datatype PostView = PostView(post: Post, time: TimeAgo)

  function Posts(views: seq<PostView>): (r: seq<Post>)
    ensures |r| == |views|
    ensures forall i :: 0 <= i < |views| ==> r[i] == views[i].post
  {
    if views == [] then [] else [views[0].post] + Posts(views[1..])
  }

  /** A `direction` value other than the two the handler recognises. */
  type UnknownDirection = s: string | s != "next" && s != "prev"

  /** The `direction` query parameter after `|| "next"`. */
  datatype Direction = Next | Prev | Other(name: UnknownDirection)

  function DirectionOf(raw: Option<string>): (d: Direction)
    ensures d.Next? <==> !Truthy(raw) || raw.value == "next"
    ensures d.Prev? <==> Truthy(raw) && raw.value == "prev"
    ensures d.Other? ==> d.name == raw.value && d.name != "next" && d.name != "prev"
  {
    if !Truthy(raw) || raw.value == "next" then Next
    else if raw.value == "prev" then Prev
    else Other(raw.value)
  }

  /** The `pagination` object of a list response, which the client store keeps. */
  datatype Pagination = Pagination(
    limit: int,
    hasNextPage: bool,
    hasPrevPage: bool,
    nextCursor: Option<int>,
    prevCursor: Option<int>,
    totalPosts: int,
    direction: Direction)

  /** The error responses of the post handlers. */
  datatype ErrorKind =
    | InvalidPagination   // "Invalid pagination parameters"
    | MissingFields       // "Missing required fields"
    | ContentTooLong      // "Content too long"
    | PostNotFound        // "Post not found"
    | LikeFailed          // "Like operation failed" (simulated)
    | CommentFailed       // "Comment operation failed" (simulated)

  /** A handler's answer: a value, or one of the errors above. */
  datatype Outcome<+T> = Ok(value: T) | Err(error: ErrorKind)

  /** The HTTP status each error is answered with. */
  function Status(e: ErrorKind): (code: int)
    ensures code == 400 <==> e.InvalidPagination? || e.MissingFields? || e.ContentTooLong?
    ensures code == 404 <==> e.PostNotFound?
    ensures code == 500 <==> e.LikeFailed? || e.CommentFailed?
  {
    match e
    case InvalidPagination | MissingFields | ContentTooLong => 400
    case PostNotFound => 404
    case LikeFailed | CommentFailed => 500
  }
}
