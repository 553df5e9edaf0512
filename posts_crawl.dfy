/** What a client gets by following the list handler's `nextCursor`: it asks
    for the first page (no cursor, direction "next"), then keeps passing the
    `nextCursor` of each response back as `cursor` until it is null. When no
    two posts share a `createdAt`, this visits every post exactly once,
    newest first; with shared timestamps it can skip posts, because the
    cursor is a bare timestamp and the filter is a strict "older than". */
module PostsCrawl {
  import opened Common
  import opened FeedTypes
  import opened PostsList

  /** What a client keeps of a "next" response: the page and `nextCursor`. */
  datatype Response = Response(page: seq<Post>, nextCursor: Option<int>)

  /** The response to `GET /api/posts?limit=<limit>&cursor=<cursor>&direction=next`. */
  function NextRequest(store: seq<Post>, limit: int, now: int, cursor: CursorParam): (resp: Response)
    requires 1 <= limit <= 50
  {
    var r := ListPosts(store, ListQuery(Some(limit), cursor, Next), now);
    Response(PageIn(r), r.pagination.nextCursor)
  }

  function StepOf(store: seq<Post>, limit: int, now: int): CursorParam -> Response
    requires 1 <= limit <= 50
  {
    (c: CursorParam) => NextRequest(store, limit, now, c)
  }

  function RankOf(store: seq<Post>): CursorParam -> nat
  {
    (c: CursorParam) => NextCandidates(store, c)
  }

  /** Every response that carries a `nextCursor` lowers `rank`. */
  ghost predicate Shrinks(step: CursorParam -> Response, rank: CursorParam -> nat)
  {
    forall c :: step(c).nextCursor.Some? ==> rank(At(step(c).nextCursor.value)) < rank(c)
  }

  /** The pages seen by a client that starts at `cursor` and passes each
      `nextCursor` back until there is none. */
  function Follow(step: CursorParam -> Response, rank: CursorParam -> nat, cursor: CursorParam): seq<Post>
    requires Shrinks(step, rank)
    decreases rank(cursor)
  {
    var resp := step(cursor);
    if resp.nextCursor.Some? then resp.page + Follow(step, rank, At(resp.nextCursor.value))
    else resp.page
  }

  /** Following `nextCursor` through the list handler on `store`. */
  function Crawl(store: seq<Post>, limit: int, cursor: CursorParam, now: int): seq<Post>
    requires 1 <= limit <= 50
  {
    CrawlShrinks(store, limit, now);
    Follow(StepOf(store, limit, now), RankOf(store), cursor)
  }

  lemma CrawlShrinks(store: seq<Post>, limit: int, now: int)
    requires 1 <= limit <= 50
    ensures Shrinks(StepOf(store, limit, now), RankOf(store))
  {
    forall c | NextRequest(store, limit, now, c).nextCursor.Some?
      ensures NextCandidates(store, At(NextRequest(store, limit, now, c).nextCursor.value))
              < NextCandidates(store, c)
    {
      CrawlStep(store, limit, c, now);
    }
  }

  /** A response with a `nextCursor` leaves strictly fewer posts for the next request. */
  lemma CrawlStep(store: seq<Post>, limit: int, cursor: CursorParam, now: int)
    requires 1 <= limit <= 50
    requires ListPosts(store, ListQuery(Some(limit), cursor, Next), now).pagination.nextCursor.Some?
    ensures var r := ListPosts(store, ListQuery(Some(limit), cursor, Next), now);
      NextCandidates(store, At(r.pagination.nextCursor.value)) < NextCandidates(store, cursor)
  {
    var r := ListPosts(store, ListQuery(Some(limit), cursor, Next), now);
    var page := PageIn(r);
    var last := page[|page| - 1];
    assert last in multiset(page);
    assert r.pagination.nextCursor.value == last.createdAt;
    if cursor.At? {
      NextPageIs(store, cursor.t, limit, now);
      NextPageRaw(store, cursor.t, limit);
      FewerOlder(store, cursor.t, last);
    } else {
      FilterDrops(store, (p: Post) => p.createdAt < last.createdAt, last);
    }
  }

  lemma FewerOlder(store: seq<Post>, t: int, last: Post)
    requires last in multiset(store) && last.createdAt < t
    ensures |OlderThan(store, last.createdAt)| < |OlderThan(store, t)|
  {
    var nc := last.createdAt;
    FilterStrictlyFewer(store, (p: Post) => p.createdAt < t, (p: Post) => p.createdAt < nc, last);
  }

  // ---------------------------------------------------------------------
  // Distinct timestamps

  ghost predicate DistinctTimes(s: seq<Post>)
  {
    forall i, j :: 0 <= i < j < |s| ==> s[i].createdAt != s[j].createdAt
  }

  ghost predicate StrictlyNewestFirst(s: seq<Post>)
  {
    forall i, j :: 0 <= i < j < |s| ==> s[i].createdAt > s[j].createdAt
  }

  /** With distinct timestamps the newest-first sort is strictly descending. */
  lemma {:induction false} SortStrict(s: seq<Post>)
    requires DistinctTimes(s)
    ensures StrictlyNewestFirst(SortNewestFirst(s))
  {
    if s != [] {
      SortStrict(s[1..]);
      var sorted := SortNewestFirst(s[1..]);
      SortNewestFirstSorts(s[1..]);
      forall x | x in sorted ensures x.createdAt != s[0].createdAt {
        assert x in multiset(s[1..]);
        var j :| 0 <= j < |s[1..]| && s[1..][j] == x;
        assert s[j + 1] == x;
      }
      InsertStrict(s[0], sorted);
    }
  }

  lemma {:induction false} InsertStrict(p: Post, s: seq<Post>)
    requires StrictlyNewestFirst(s)
    requires forall x :: x in s ==> x.createdAt != p.createdAt
    ensures StrictlyNewestFirst(InsertByDate(p, s))
  {
    if s == [] || s[0].createdAt <= p.createdAt {
      ConsStrict(p, s);
    } else {
      var rest := InsertByDate(p, s[1..]);
      InsertStrict(p, s[1..]);
      InsertByDateSorts(p, s[1..]);
      forall k | 0 <= k < |rest| ensures rest[k].createdAt < s[0].createdAt {
        assert rest[k] in multiset(rest);
        if rest[k] != p {
          var j :| 0 <= j < |s[1..]| && s[1..][j] == rest[k];
          assert s[j + 1] == rest[k];
        }
      }
      ConsStrict(s[0], rest);
    }
  }

  lemma ConsStrict(h: Post, tail: seq<Post>)
    requires StrictlyNewestFirst(tail)
    requires forall k :: 0 <= k < |tail| ==> tail[k].createdAt < h.createdAt
    ensures StrictlyNewestFirst([h] + tail)
  {
    var r := [h] + tail;
    forall i, j | 0 <= i < j < |r| ensures r[i].createdAt > r[j].createdAt {
      assert r[j] == tail[j - 1];
      if i > 0 {
        assert r[i] == tail[i - 1];
      }
    }
  }

  /** In a strictly descending list, the posts older than the k-th's
      predecessor are exactly the ones from position k on. */
  lemma OlderThanSuffix(s: seq<Post>, k: int)
    requires StrictlyNewestFirst(s) && 1 <= k <= |s|
    ensures OlderThan(s, s[k - 1].createdAt) == s[k..]
  {
    var t := s[k - 1].createdAt;
    var f := (p: Post) => p.createdAt < t;
    assert s == s[..k] + s[k..];
    FilterAppend(s[..k], s[k..], f);
    FilterNone(s[..k], f);
    FilterAll(s[k..], f);
  }

  // ---------------------------------------------------------------------
  // Every post once

  /** The cursor a crawl holds after having seen the first `k` posts of `sorted`. */
  function CursorAfter(sorted: seq<Post>, k: int): (c: CursorParam)
    requires 0 <= k <= |sorted|
    ensures k == 0 <==> c.Absent?
    ensures k > 0 ==> c == At(sorted[k - 1].createdAt)
  {
    if k == 0 then Absent else At(sorted[k - 1].createdAt)
  }

  /** The response that walks on through `sorted`: the next `limit` posts
      after the first `k`, and a cursor exactly when more remain. */
  function WalkResponse(sorted: seq<Post>, limit: nat, k: int): Response
    requires 1 <= limit && 0 <= k <= |sorted|
  {
    Response(Take(sorted[k..], limit),
             if |sorted| - k > limit then Some(sorted[k + limit - 1].createdAt) else None)
  }

  ghost predicate Walks(step: CursorParam -> Response, sorted: seq<Post>, limit: nat)
    requires 1 <= limit
  {
    forall k :: 0 <= k <= |sorted| ==> step(CursorAfter(sorted, k)) == WalkResponse(sorted, limit, k)
  }

  /** A client following a step that walks through `sorted` sees `sorted`
      from where it starts, in order, each post once. */
  lemma {:induction false} FollowWalks(step: CursorParam -> Response, rank: CursorParam -> nat,
                                       sorted: seq<Post>, limit: nat, k: int)
    requires Shrinks(step, rank) && 1 <= limit && Walks(step, sorted, limit)
    requires 0 <= k <= |sorted|
    ensures Follow(step, rank, CursorAfter(sorted, k)) == sorted[k..]
    decreases |sorted| - k
  {
    var resp := step(CursorAfter(sorted, k));
    assert resp == WalkResponse(sorted, limit, k);
    if |sorted| - k > limit {
      assert At(resp.nextCursor.value) == CursorAfter(sorted, k + limit);
      FollowWalks(step, rank, sorted, limit, k + limit);
      assert sorted[k..] == sorted[k..k + limit] + sorted[k + limit..];
    }
  }

  /** The first page is the newest `limit` posts. */
  lemma FirstStep(store: seq<Post>, limit: int, now: int)
    requires 1 <= limit <= 50
    ensures NextRequest(store, limit, now, Absent) == WalkResponse(SortNewestFirst(store), limit, 0)
  {
    var sorted := SortNewestFirst(store);
    var r := ListPosts(store, ListQuery(Some(limit), Absent, Next), now);
    assert PageIn(r) == Take(sorted, limit);
    assert sorted[0..] == sorted;
  }

  /** With distinct timestamps, the request from the k-th post's timestamp
      gets the next `limit` posts after it. */
  lemma LaterStep(store: seq<Post>, limit: int, k: int, now: int)
    requires 1 <= limit <= 50 && DistinctTimes(store)
    requires 1 <= k <= |store|
    ensures var sorted := SortNewestFirst(store);
      NextRequest(store, limit, now, At(sorted[k - 1].createdAt)) == WalkResponse(sorted, limit, k)
  {
    var sorted := SortNewestFirst(store);
    var t := sorted[k - 1].createdAt;
    NextPageIs(store, t, limit, now);
    SuffixAfter(store, k);
  }

  lemma SuffixAfter(store: seq<Post>, k: int)
    requires DistinctTimes(store) && 1 <= k <= |store|
    ensures var sorted := SortNewestFirst(store);
      && OlderThan(sorted, sorted[k - 1].createdAt) == sorted[k..]
      && |OlderThan(store, sorted[k - 1].createdAt)| == |store| - k
  {
    var sorted := SortNewestFirst(store);
    SortStrict(store);
    OlderThanSuffix(sorted, k);
    OlderOfSorted(store, sorted[k - 1].createdAt);
  }

  /** With distinct timestamps, following `nextCursor` from the first page
      returns every post of the store exactly once, newest first. */
  lemma CrawlVisitsAll(store: seq<Post>, limit: int, now: int)
    requires 1 <= limit <= 50 && DistinctTimes(store)
    ensures Crawl(store, limit, Absent, now) == SortNewestFirst(store)
    ensures multiset(Crawl(store, limit, Absent, now)) == multiset(store)
    ensures StrictlyNewestFirst(Crawl(store, limit, Absent, now))
  {
    var sorted := SortNewestFirst(store);
    var step := StepOf(store, limit, now);
    forall k | 0 <= k <= |sorted| ensures step(CursorAfter(sorted, k)) == WalkResponse(sorted, limit, k) {
      if k == 0 {
        FirstStep(store, limit, now);
      } else {
        LaterStep(store, limit, k, now);
      }
    }
    CrawlShrinks(store, limit, now);
    FollowWalks(step, RankOf(store), sorted, limit, 0);
    assert sorted[0..] == sorted;
    SortStrict(store);
    SortNewestFirstSorts(store);
  }

  /** Two posts created in the same millisecond, one per page: the second
      request asks for posts strictly older than that millisecond, so the
      crawl ends after the first post and never shows the second. */
  lemma TiedTimestampsSkipAPost(a: Post, b: Post, now: int)
    requires a != b && a.createdAt == b.createdAt
    ensures b in [a, b] && Crawl([a, b], 1, Absent, now) == [a]
  {
    var store := [a, b];
    var t := a.createdAt;
    TiedFirstRequest(a, b, now);
    TiedSecondRequest(a, b, now);
    CrawlShrinks(store, 1, now);
    assert Crawl(store, 1, Absent, now) == [a] + Follow(StepOf(store, 1, now), RankOf(store), At(t));
  }

  /** The first page holds the post stored first, and its timestamp as cursor. */
  lemma TiedFirstRequest(a: Post, b: Post, now: int)
    requires a.createdAt == b.createdAt
    ensures NextRequest([a, b], 1, now, Absent) == Response([a], Some(a.createdAt))
  {
    var store := [a, b];
    assert store[1..] == [b] && [b][1..] == [];
    assert SortNewestFirst(store) == [a, b];
    FilterNone(store, (p: Post) => p.createdAt < a.createdAt);
  }

  /** Nothing is strictly older than the shared timestamp. */
  lemma TiedSecondRequest(a: Post, b: Post, now: int)
    requires a.createdAt == b.createdAt
    ensures NextRequest([a, b], 1, now, At(a.createdAt)) == Response([], None)
  {
    var store := [a, b];
    var t := a.createdAt;
    FilterNone(store, (p: Post) => p.createdAt < t);
    NextPageIs(store, t, 1, now);
    NextPageRaw(store, t, 1);
  }
}
