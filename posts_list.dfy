/** The read side of the mock feed backend: the relative-time label of a
    post and the cursor-paginated list handler (GET /api/posts). Both are
    pure: the handler sorts a copy of the stored posts newest-first,
    filters it by cursor and direction, slices it and computes the
    pagination metadata. */
module PostsList {
  import opened Common
  import opened FeedTypes

  // ---------------------------------------------------------------------
  // getTimeAgo

  const MinuteMs := 60000

  /** `Math.floor((now - created) / 60000)`; `/` on int floors for a positive divisor. */
  function ElapsedMinutes(now: int, createdAt: int): (m: int)
    ensures m * MinuteMs <= now - createdAt < (m + 1) * MinuteMs
  {
    (now - createdAt) / MinuteMs
  }

  /** The label of a post created at `createdAt`, seen at `now`. Each label
      covers exactly its range of whole elapsed minutes. */
  function GetTimeAgo(now: int, createdAt: int): (t: TimeAgo)
    ensures var m := ElapsedMinutes(now, createdAt);
      && (t.JustNow? <==> m < 1)
      && (t.MinutesAgo? ==> t.minutes == m && 1 <= m < 60)
      && (t.HoursAgo? ==> 1 <= t.hours < 24 && t.hours * 60 <= m < (t.hours + 1) * 60)
      && (t.DaysAgo? ==> 1 <= t.days < 7 && t.days * 1440 <= m < (t.days + 1) * 1440)
      && (t.OnDate? <==> m >= 7 * 1440)
      && (t.OnDate? ==> t.createdAt == createdAt)
  {
    var minutes := ElapsedMinutes(now, createdAt);
    if minutes < 1 then JustNow
    else if minutes < 60 then MinutesAgo(minutes)
    else
      var hours := minutes / 60;
      if hours < 24 then HoursAgo(hours)
      else
        var days := hours / 24;
        if days < 7 then DaysAgo(days) else OnDate(createdAt)
  }

  // ---------------------------------------------------------------------
  // Orderings

  ghost predicate NewestFirst(s: seq<Post>)
  {
    forall i, j :: 0 <= i < j < |s| ==> s[i].createdAt >= s[j].createdAt
  }

  ghost predicate OldestFirst(s: seq<Post>)
  {
    forall i, j :: 0 <= i < j < |s| ==> s[i].createdAt <= s[j].createdAt
  }

  /** Insert `p` into a newest-first list ahead of every post not newer than it. */
  function InsertByDate(p: Post, s: seq<Post>): (r: seq<Post>)
    ensures |r| == |s| + 1
  {
    if s == [] || s[0].createdAt <= p.createdAt then [p] + s
    else [s[0]] + InsertByDate(p, s[1..])
  }

  /** Insertion keeps the list newest-first and adds exactly `p`. */
  lemma {:induction false} InsertByDateSorts(p: Post, s: seq<Post>)
    requires NewestFirst(s)
    ensures NewestFirst(InsertByDate(p, s))
    ensures multiset(InsertByDate(p, s)) == multiset(s) + multiset{p}
  {
    if !(s == [] || s[0].createdAt <= p.createdAt) {
      InsertByDateSorts(p, s[1..]);
      InsertStep(p, s, InsertByDate(p, s[1..]));
    } else {
      InsertAtHead(p, s);
    }
  }

  lemma InsertAtHead(p: Post, s: seq<Post>)
    requires NewestFirst(s) && (s == [] || s[0].createdAt <= p.createdAt)
    ensures NewestFirst([p] + s)
  {
    forall k | 0 <= k < |s| ensures s[k].createdAt <= p.createdAt {
      if k > 0 {
        assert s[0].createdAt >= s[k].createdAt;
      }
    }
    ConsNewestFirst(p, s);
  }

  lemma InsertStep(p: Post, s: seq<Post>, rest: seq<Post>)
    requires s != [] && NewestFirst(s) && p.createdAt < s[0].createdAt
    requires NewestFirst(rest) && multiset(rest) == multiset(s[1..]) + multiset{p}
    ensures NewestFirst([s[0]] + rest)
    ensures multiset([s[0]] + rest) == multiset(s) + multiset{p}
  {
    assert s == [s[0]] + s[1..];
    HeadIsNewest(s);
    forall k | 0 <= k < |rest| ensures rest[k].createdAt <= s[0].createdAt {
      assert rest[k] in multiset(rest);
      if rest[k] != p {
        assert rest[k] in multiset(s[1..]);
      }
    }
    ConsNewestFirst(s[0], rest);
  }

  /** `[...posts].sort((a, b) => b.createdAt - a.createdAt)`: a stable sort,
      newest first, of a copy of the posts. */
  function SortNewestFirst(s: seq<Post>): (r: seq<Post>)
    ensures |r| == |s|
  {
    if s == [] then [] else InsertByDate(s[0], SortNewestFirst(s[1..]))
  }

  /** The sorted copy is newest-first and a permutation of the posts. */
  lemma {:induction false} SortNewestFirstSorts(s: seq<Post>)
    ensures NewestFirst(SortNewestFirst(s))
    ensures multiset(SortNewestFirst(s)) == multiset(s)
  {
    if s != [] {
      SortNewestFirstSorts(s[1..]);
      InsertByDateSorts(s[0], SortNewestFirst(s[1..]));
      assert s == [s[0]] + s[1..];
    }
  }

  /** A post at least as new as every other stays in front: the sort is stable. */
  lemma {:induction false} SortKeepsNewestHead(s: seq<Post>)
    requires s != []
    requires forall i :: 0 <= i < |s| ==> s[i].createdAt <= s[0].createdAt
    ensures SortNewestFirst(s)[0] == s[0]
  {
    var rest := SortNewestFirst(s[1..]);
    SortNewestFirstSorts(s[1..]);
    if rest != [] {
      assert rest[0] in multiset(s[1..]);
      assert rest[0].createdAt <= s[0].createdAt;
    }
  }

  // ---------------------------------------------------------------------
  // Cursor filters and slices

  function OlderThan(s: seq<Post>, t: int): (r: seq<Post>)
  {
    Filter(s, (p: Post) => p.createdAt < t)
  }

  function NewerThan(s: seq<Post>, t: int): (r: seq<Post>)
  {
    Filter(s, (p: Post) => p.createdAt > t)
  }

  /** Filtering a newest-first list keeps it newest-first. */
  lemma {:induction false} FilterKeepsNewestFirst(s: seq<Post>, f: Post -> bool)
    requires NewestFirst(s)
    ensures NewestFirst(Filter(s, f))
  {
    if s != [] {
      FilterKeepsNewestFirst(s[1..], f);
      var tail := Filter(s[1..], f);
      HeadIsNewest(s);
      FilterMembers(s[1..], f);
      if f(s[0]) {
        assert Filter(s, f) == [s[0]] + tail;
        ConsNewestFirst(s[0], tail);
      } else {
        assert Filter(s, f) == tail;
      }
    }
  }

  lemma HeadIsNewest(s: seq<Post>)
    requires s != [] && NewestFirst(s)
    ensures forall x :: x in s[1..] ==> x.createdAt <= s[0].createdAt
  {
    forall x | x in s[1..] ensures x.createdAt <= s[0].createdAt {
      var j :| 0 <= j < |s[1..]| && s[1..][j] == x;
      assert s[j + 1] == x;
    }
  }

  lemma ConsNewestFirst(h: Post, tail: seq<Post>)
    requires NewestFirst(tail)
    requires forall k :: 0 <= k < |tail| ==> tail[k].createdAt <= h.createdAt
    ensures NewestFirst([h] + tail)
  {
    var r := [h] + tail;
    forall i, j | 0 <= i < j < |r| ensures r[i].createdAt >= r[j].createdAt {
      assert r[j] == tail[j - 1];
      if i > 0 {
        assert r[i] == tail[i - 1];
      }
    }
  }

  /** `s.slice(0, n)` for n >= 0. */
  function Take(s: seq<Post>, n: nat): (r: seq<Post>)
    ensures |r| == if n < |s| then n else |s|
    ensures r == s[..|r|]
  {
    if n < |s| then s[..n] else s
  }

  /** `s.slice(-n)` for n >= 1: the last n elements, or all when there are fewer. */
  function LastN(s: seq<Post>, n: nat): (r: seq<Post>)
    requires n >= 1
    ensures |r| == if n < |s| then n else |s|
    ensures r == s[|s| - |r|..]
  {
    if n < |s| then s[|s| - n..] else s
  }

  function Reverse(s: seq<Post>): (r: seq<Post>)
    ensures |r| == |s|
    ensures forall i :: 0 <= i < |s| ==> r[i] == s[|s| - 1 - i]
  {
    if s == [] then [] else Reverse(s[1..]) + [s[0]]
  }

  // ---------------------------------------------------------------------
  // GET /api/posts

  /** The `cursor` query parameter: missing, present but empty (falsy, so no
      filtering, yet not null, so `hasPrevPage` holds), or a timestamp. */
  datatype CursorParam = Absent | Blank | At(t: int)

  /** `limit` is `parseInt(req.query.limit)`, None when missing or not a number. */
  datatype ListQuery = ListQuery(limit: Option<int>, cursor: CursorParam, direction: Direction)

  datatype ListResult =
    | Listed(posts: seq<PostView>, pagination: Pagination)
    | ListError(error: ErrorKind)

  /** `parseInt(limit) || 10`: NaN and 0 both fall back to 10. */
  function EffectiveLimit(raw: Option<int>): (n: int)
    ensures raw.None? || raw.value == 0 ==> n == 10
    ensures raw.Some? && raw.value != 0 ==> n == raw.value
  {
    OrElse(raw, 0, 10)
  }

  /** The posts after cursor filtering (and, for "prev", after `slice(-limit).reverse()`). */
  function Filtered(sorted: seq<Post>, cursor: CursorParam, direction: Direction, limit: nat): seq<Post>
    requires limit >= 1
  {
    match cursor
    case At(t) =>
      if direction.Next? then OlderThan(sorted, t)
      else if direction.Prev? then Reverse(LastN(NewerThan(sorted, t), limit))
      else sorted
    case _ => sorted
  }

  /** The posts of the page; "prev" takes the filtered posts without a limit. */
  function Paginated(filtered: seq<Post>, direction: Direction, limit: nat): seq<Post>
  {
    if direction.Prev? then filtered else Take(filtered, limit)
  }

  /** Every post of a response gets its `time` label recomputed at `now`. */
  function Stamp(page: seq<Post>, now: int): (r: seq<PostView>)
    ensures Posts(r) == page
    ensures forall i :: 0 <= i < |r| ==> r[i].time == GetTimeAgo(now, page[i].createdAt)
  {
    if page == [] then [] else [PostView(page[0], GetTimeAgo(now, page[0].createdAt))] + Stamp(page[1..], now)
  }

  /** The number of posts the "next" filter leaves, counted on the store itself. */
  function NextCandidates(store: seq<Post>, cursor: CursorParam): nat
  {
    if cursor.At? then |OlderThan(store, cursor.t)| else |store|
  }

  /** The list handler. `store` is the backend's array, which it does not change. */
  function ListPosts(store: seq<Post>, q: ListQuery, now: int): (r: ListResult)
    ensures r.ListError? <==> !(1 <= EffectiveLimit(q.limit) <= 50)
    ensures r.ListError? ==> r.error == InvalidPagination
    ensures r.Listed? ==>
      var pg := r.pagination;
      var page := Posts(r.posts);
      && pg.limit == EffectiveLimit(q.limit)
      && pg.totalPosts == |store|
      && pg.direction == q.direction
      && (pg.hasPrevPage <==> !q.cursor.Absent?)
      && (pg.hasNextPage <==> q.direction.Next? && NextCandidates(store, q.cursor) > pg.limit)
      && (pg.nextCursor.Some? <==> pg.hasNextPage)
      && (pg.nextCursor.Some? ==> page != [] && pg.nextCursor.value == page[|page| - 1].createdAt)
      && (pg.prevCursor.Some? <==> page != [])
      && (pg.prevCursor.Some? ==> pg.prevCursor.value == page[0].createdAt)
      && (!q.direction.Prev? || q.cursor.At? ==> |page| <= pg.limit)
      && multiset(page) <= multiset(store)
  {
    var limit := EffectiveLimit(q.limit);
    if limit < 1 || limit > 50 then ListError(InvalidPagination)
    else
      var page := PageOf(store, q.cursor, q.direction, limit);
      var hasNextPage := HasNextPage(store, q.cursor, q.direction, limit);
      var nextCursor := if hasNextPage && |page| > 0 then Some(page[|page| - 1].createdAt) else None;
      var prevCursor := if |page| > 0 then Some(page[0].createdAt) else None;
      Listed(Stamp(page, now),
             Pagination(limit, hasNextPage, !q.cursor.Absent?, nextCursor, prevCursor, |store|, q.direction))
  }

  /** `direction === "next" && filteredPosts.length > limit`. */
  function HasNextPage(store: seq<Post>, cursor: CursorParam, direction: Direction, limit: nat): (b: bool)
    requires limit >= 1
    ensures b <==> direction.Next? && NextCandidates(store, cursor) > limit
  {
    PageFacts(store, cursor, direction, limit);
    direction.Next? && |Filtered(SortNewestFirst(store), cursor, direction, limit)| > limit
  }

  /** The posts of the page, before their time labels are recomputed. */
  function PageOf(store: seq<Post>, cursor: CursorParam, direction: Direction, limit: nat): (page: seq<Post>)
    requires limit >= 1
    ensures multiset(page) <= multiset(store)
    ensures !direction.Prev? || cursor.At? ==> |page| <= limit
    ensures HasNextPage(store, cursor, direction, limit) ==> |page| == limit
  {
    PageFacts(store, cursor, direction, limit);
    Paginated(Filtered(SortNewestFirst(store), cursor, direction, limit), direction, limit)
  }

  /** The facts ListPosts' contract rests on: the page is drawn from the store,
      and the "next" filter counts the same on the sorted copy as on the store. */
  lemma PageFacts(store: seq<Post>, cursor: CursorParam, direction: Direction, limit: nat)
    requires limit >= 1
    ensures var filtered := Filtered(SortNewestFirst(store), cursor, direction, limit);
      && multiset(Paginated(filtered, direction, limit)) <= multiset(store)
      && (direction.Next? ==> |filtered| == NextCandidates(store, cursor))
      && (cursor.At? && direction.Prev? ==> |filtered| <= limit)
  {
    var sorted := SortNewestFirst(store);
    var filtered := Filtered(sorted, cursor, direction, limit);
    FilteredFromStore(store, cursor, direction, limit);
    TakeMultiset(filtered, limit);
    if cursor.At? && direction.Next? {
      SortNewestFirstSorts(store);
      FilterPermutation(sorted, store, (p: Post) => p.createdAt < cursor.t);
    }
  }

  lemma FilteredFromStore(store: seq<Post>, cursor: CursorParam, direction: Direction, limit: nat)
    requires limit >= 1
    ensures multiset(Filtered(SortNewestFirst(store), cursor, direction, limit)) <= multiset(store)
  {
    var sorted := SortNewestFirst(store);
    if cursor.At? && direction.Next? {
      SubMultiset(OlderThan(sorted, cursor.t), store, (p: Post) => p.createdAt < cursor.t);
    } else if cursor.At? && direction.Prev? {
      PrevFromStore(store, cursor.t, limit);
    } else {
      assert Filtered(sorted, cursor, direction, limit) == sorted;
      SortNewestFirstSorts(store);
    }
  }

  lemma PrevFromStore(store: seq<Post>, t: int, limit: nat)
    requires limit >= 1
    ensures multiset(Reverse(LastN(NewerThan(SortNewestFirst(store), t), limit))) <= multiset(store)
  {
    var newer := NewerThan(SortNewestFirst(store), t);
    SubMultiset(newer, store, (p: Post) => p.createdAt > t);
    LastNMultiset(newer, limit);
    ReverseMultiset(LastN(newer, limit));
  }

  lemma LastNMultiset(s: seq<Post>, n: nat)
    requires n >= 1
    ensures multiset(LastN(s, n)) <= multiset(s)
  {
    var r := LastN(s, n);
    assert s == s[..|s| - |r|] + r;
  }

  lemma TakeMultiset(s: seq<Post>, n: nat)
    ensures multiset(Take(s, n)) <= multiset(s)
  {
    var r := Take(s, n);
    assert s == r + s[|r|..];
  }

  lemma SubMultiset(filtered: seq<Post>, store: seq<Post>, f: Post -> bool)
    requires filtered == Filter(SortNewestFirst(store), f)
    ensures multiset(filtered) <= multiset(store)
  {
    var sorted := SortNewestFirst(store);
    SortNewestFirstSorts(store);
    forall x ensures multiset(filtered)[x] <= multiset(store)[x] {
      FilterCount(sorted, f, x);
    }
  }

  lemma {:induction false} ReverseMultiset(s: seq<Post>)
    ensures multiset(Reverse(s)) == multiset(s)
  {
    if s != [] {
      ReverseMultiset(s[1..]);
      assert s == [s[0]] + s[1..];
    }
  }

  // ---------------------------------------------------------------------
  // What a page contains

  /** The posts of a successful list response. */
  function PageIn(r: ListResult): seq<Post>
    requires r.Listed?
  {
    Posts(r.posts)
  }

  /** In a newest-first list, an element not among the first `n` is no newer
      than the n-th, and the prefix is then full. */
  lemma PrefixClosest(s: seq<Post>, n: nat, x: Post)
    requires n >= 1 && NewestFirst(s) && x in s && x !in Take(s, n)
    ensures |Take(s, n)| == n && x.createdAt <= s[n - 1].createdAt
  {
    var j :| 0 <= j < |s| && s[j] == x;
    var front := Take(s, n);
    assert forall k :: 0 <= k < |front| ==> front[k] == s[k];
    assert j >= |front|;
  }

  /** In a newest-first list, an element not among the last `n` is no older
      than the first of them, and the suffix is then full. */
  lemma SuffixClosest(s: seq<Post>, n: nat, x: Post)
    requires n >= 1 && NewestFirst(s) && x in s && x !in LastN(s, n)
    ensures |LastN(s, n)| == n && x.createdAt >= s[|s| - n].createdAt
  {
    var j :| 0 <= j < |s| && s[j] == x;
    var last := LastN(s, n);
    var d := |s| - |last|;
    assert forall k :: d <= k < |s| ==> last[k - d] == s[k];
    assert j < d;
  }

  lemma ReverseFacts(s: seq<Post>)
    ensures forall x :: x in Reverse(s) <==> x in s
    ensures NewestFirst(s) ==> OldestFirst(Reverse(s))
  {
    var r := Reverse(s);
    forall x | x in s ensures x in r {
      var j :| 0 <= j < |s| && s[j] == x;
      assert r[|s| - 1 - j] == x;
    }
    if NewestFirst(s) {
      forall i, j | 0 <= i < j < |r| ensures r[i].createdAt <= r[j].createdAt {
        assert r[i] == s[|s| - 1 - i] && r[j] == s[|s| - 1 - j];
      }
    }
  }

  /** The "next" filter on the sorted copy: newest-first, exactly the posts of
      the store older than the cursor, as many as on the store. */
  lemma OlderOfSorted(store: seq<Post>, t: int)
    ensures var older := OlderThan(SortNewestFirst(store), t);
      && NewestFirst(older)
      && (forall x :: x in older <==> x in store && x.createdAt < t)
      && |older| == |OlderThan(store, t)|
  {
    var sorted := SortNewestFirst(store);
    SortNewestFirstSorts(store);
    var f := (p: Post) => p.createdAt < t;
    FilterMembers(sorted, f);
    FilterKeepsNewestFirst(sorted, f);
    FilterPermutation(sorted, store, f);
    forall x ensures x in sorted <==> x in store {
      assert x in sorted <==> x in multiset(sorted);
    }
  }

  /** The same for the "prev" filter. */
  lemma NewerOfSorted(store: seq<Post>, t: int)
    ensures var newer := NewerThan(SortNewestFirst(store), t);
      && NewestFirst(newer)
      && (forall x :: x in newer <==> x in store && x.createdAt > t)
      && |newer| == |NewerThan(store, t)|
  {
    var sorted := SortNewestFirst(store);
    SortNewestFirstSorts(store);
    var f := (p: Post) => p.createdAt > t;
    FilterMembers(sorted, f);
    FilterKeepsNewestFirst(sorted, f);
    FilterPermutation(sorted, store, f);
    forall x ensures x in sorted <==> x in store {
      assert x in sorted <==> x in multiset(sorted);
    }
  }

  /** "next" from a cursor: the newest posts strictly older than the cursor,
      newest first, at most `limit` of them; a post older than the cursor is
      left out only when the page is full and the post is no newer than the
      last (oldest) post of the page. */
  lemma ListNextPage(store: seq<Post>, t: int, limit: int, now: int)
    requires 1 <= limit <= 50
    ensures var r := ListPosts(store, ListQuery(Some(limit), At(t), Next), now);
      && r.Listed?
      && var page := PageIn(r);
      && (forall i :: 0 <= i < |page| ==> page[i].createdAt < t)
      && NewestFirst(page)
      && |page| == (if limit < |OlderThan(store, t)| then limit else |OlderThan(store, t)|)
      && (forall q :: q in store && q.createdAt < t && q !in page ==>
            |page| == limit && q.createdAt <= page[limit - 1].createdAt)
  {
    NextPageIs(store, t, limit, now);
    NextPageRaw(store, t, limit);
  }

  lemma NextPageIs(store: seq<Post>, t: int, limit: int, now: int)
    requires 1 <= limit <= 50
    ensures var r := ListPosts(store, ListQuery(Some(limit), At(t), Next), now);
      r.Listed? && PageIn(r) == Take(OlderThan(SortNewestFirst(store), t), limit)
  {
  }

  lemma NextPageRaw(store: seq<Post>, t: int, limit: nat)
    requires limit >= 1
    ensures var page := Take(OlderThan(SortNewestFirst(store), t), limit);
      && (forall i :: 0 <= i < |page| ==> page[i].createdAt < t)
      && NewestFirst(page)
      && |page| == (if limit < |OlderThan(store, t)| then limit else |OlderThan(store, t)|)
      && (forall q :: q in store && q.createdAt < t && q !in page ==>
            |page| == limit && q.createdAt <= page[limit - 1].createdAt)
  {
    var older := OlderThan(SortNewestFirst(store), t);
    var page := Take(older, limit);
    OlderOfSorted(store, t);
    forall i | 0 <= i < |page| ensures page[i].createdAt < t {
      assert page[i] in older;
    }
    forall q | q in store && q.createdAt < t && q !in page
      ensures |page| == limit && q.createdAt <= page[limit - 1].createdAt
    {
      PrefixClosest(older, limit, q);
    }
  }

  /** "prev" from a cursor: the posts strictly newer than the cursor that lie
      closest to it, at most `limit` of them, OLDEST first (the source slices
      the newest-first list from the end and reverses it); a post newer than
      the cursor is left out only when the page is full and the post is no
      older than the last (newest) post of the page. */
  lemma ListPrevPage(store: seq<Post>, t: int, limit: int, now: int)
    requires 1 <= limit <= 50
    ensures var r := ListPosts(store, ListQuery(Some(limit), At(t), Prev), now);
      && r.Listed?
      && var page := PageIn(r);
      && (forall i :: 0 <= i < |page| ==> page[i].createdAt > t)
      && OldestFirst(page)
      && |page| == (if limit < |NewerThan(store, t)| then limit else |NewerThan(store, t)|)
      && (forall q :: q in store && q.createdAt > t && q !in page ==>
            |page| == limit && q.createdAt >= page[limit - 1].createdAt)
  {
    PrevPageIs(store, t, limit, now);
    PrevPageRaw(store, t, limit);
  }

  lemma PrevPageIs(store: seq<Post>, t: int, limit: int, now: int)
    requires 1 <= limit <= 50
    ensures var r := ListPosts(store, ListQuery(Some(limit), At(t), Prev), now);
      r.Listed? && PageIn(r) == Reverse(LastN(NewerThan(SortNewestFirst(store), t), limit))
  {
  }

  lemma PrevPageRaw(store: seq<Post>, t: int, limit: nat)
    requires limit >= 1
    ensures var page := Reverse(LastN(NewerThan(SortNewestFirst(store), t), limit));
      && (forall i :: 0 <= i < |page| ==> page[i].createdAt > t)
      && OldestFirst(page)
      && |page| == (if limit < |NewerThan(store, t)| then limit else |NewerThan(store, t)|)
      && (forall q :: q in store && q.createdAt > t && q !in page ==>
            |page| == limit && q.createdAt >= page[limit - 1].createdAt)
  {
    var newer := NewerThan(SortNewestFirst(store), t);
    NewerOfSorted(store, t);
    ClosestOldestFirst(newer, limit);
  }

  /** The last `n` posts of a newest-first list, reversed: oldest first, drawn
      from the list, and every post of the list they leave out is no older
      than the newest of them. */
  lemma ClosestOldestFirst(s: seq<Post>, n: nat)
    requires n >= 1 && NewestFirst(s)
    ensures var page := Reverse(LastN(s, n));
      && (forall x :: x in page ==> x in s)
      && OldestFirst(page)
      && |page| == (if n < |s| then n else |s|)
      && (forall x :: x in s && x !in page ==> |page| == n && x.createdAt >= page[n - 1].createdAt)
  {
    var last := LastN(s, n);
    var page := Reverse(last);
    ReverseFacts(last);
    assert NewestFirst(last);
    forall x | x in page ensures x in s {
      assert x in last;
    }
    forall x | x in s && x !in page ensures |page| == n && x.createdAt >= page[n - 1].createdAt {
      SuffixClosest(s, n, x);
      assert page[n - 1] == last[0] == s[|s| - n];
    }
  }

  /** Without a filtering cursor (none, an empty one, or a direction other than
      "next"/"prev"), a non-"prev" request gets the newest `limit` posts,
      newest first; every post left out is no newer than the page's last. */
  lemma ListNewestPage(store: seq<Post>, q: ListQuery, now: int)
    requires 1 <= EffectiveLimit(q.limit) <= 50
    requires !q.direction.Prev? && (!q.cursor.At? || q.direction.Other?)
    ensures var r := ListPosts(store, q, now);
      && r.Listed?
      && var page := PageIn(r);
      && var limit := EffectiveLimit(q.limit);
      && NewestFirst(page)
      && |page| == (if limit < |store| then limit else |store|)
      && (forall x :: x in store && x !in page ==>
            |page| == limit && x.createdAt <= page[limit - 1].createdAt)
  {
    var limit := EffectiveLimit(q.limit);
    assert PageIn(ListPosts(store, q, now)) == Take(SortNewestFirst(store), limit);
    NewestPageRaw(store, limit);
  }

  lemma NewestPageRaw(store: seq<Post>, limit: nat)
    requires limit >= 1
    ensures var page := Take(SortNewestFirst(store), limit);
      && NewestFirst(page)
      && |page| == (if limit < |store| then limit else |store|)
      && (forall x :: x in store && x !in page ==>
            |page| == limit && x.createdAt <= page[limit - 1].createdAt)
  {
    var sorted := SortNewestFirst(store);
    SortNewestFirstSorts(store);
    var page := Take(sorted, limit);
    forall x | x in store && x !in page
      ensures |page| == limit && x.createdAt <= page[limit - 1].createdAt
    {
      assert x in multiset(sorted);
      PrefixClosest(sorted, limit, x);
    }
  }

  /** "prev" without a cursor is not limited: the whole store, newest first. */
  lemma ListPrevWithoutCursor(store: seq<Post>, q: ListQuery, now: int)
    requires 1 <= EffectiveLimit(q.limit) <= 50
    requires q.direction.Prev? && !q.cursor.At?
    ensures var r := ListPosts(store, q, now);
      && r.Listed?
      && NewestFirst(PageIn(r))
      && multiset(PageIn(r)) == multiset(store)
      && |PageIn(r)| == |store|
  {
    assert PageIn(ListPosts(store, q, now)) == SortNewestFirst(store);
    SortNewestFirstSorts(store);
  }
}
