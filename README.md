# News feed: backend, posts store, feed list, UI store and search box

This project is a Dafny model of the core of a news-feed demo. The demo has a React client and a mock Express backend, and the model covers five parts of it.

- **Backend (`server/routes/posts.js`).** The posts live in an in-memory array.
  - `GET /api/posts` pages through them with a cursor. It sorts the posts newest first, keeps those older ("next") or newer ("prev") than the cursor timestamp, slices a page, and reports `hasNextPage`, `hasPrevPage`, `nextCursor` and `prevCursor`.
  - Other handlers create a post, toggle a like, add a comment, and fetch one post.
  - Every post in a response carries a relative time label from `getTimeAgo`.
  - Modules `FeedTypes`, `PostsList`, `PostsCrawl` and `PostsStore`. `PostsStore.PostStore` is a class whose `posts` field the handlers update in place.
- **Client posts store (`src/store/slices/postsSlice.js`).** It holds the visible list, the opened post, the last pagination object, and one loading flag and one error per asynchronous operation. Each reducer case is a method of the class `PostsSlice.PostsState`.
- **Feed list component (`NewsFeedPosts.jsx`).** Module `NewsFeedPosts` covers two things:
  - the like button's local update, whose dispatched action is returned as a value;
  - the conditions that decide which skeleton, indicators and pagination buttons are rendered, and which are disabled.
- **UI store (`src/store/slices/uiSlice.js`).** The theme, the notifications with their unread count, the modals, the toast and the sidebar. Each reducer is a method of `UiSlice.UiState`.
- **Autocomplete search box (`SearchBox.jsx`).** Its five state hooks are the fields of `SearchBox.SearchBoxState`, and its handlers are the class's methods. The suggestion filter and the highlight moves are functions with lemmas.

How the model represents the program:

- Timestamps are integer milliseconds. This covers `createdAt`, cursors and "now".
- `null` and `undefined` are `Option.None`. JavaScript truthiness is written out wherever the source relies on it:
  - `parseInt(limit) || 10`;
  - `direction || "next"`;
  - `imageUrl || null`;
  - `!userName || !content`;
  - `!pagination.nextCursor`, true only for a null cursor, because a cursor is a post's `createdAt`, a non-empty date string;
  - `payload.type || "info"`.
- Every effect outside the code is a parameter. This covers the clock, generated ids and the simulated random failure. The search box's 200 ms timer is not a parameter: its callback is applied at once (see "## Left out").

Main results proved:

- **Pages.** A "next" page holds the newest posts strictly older than the cursor, newest first. A "prev" page holds the posts newer than the cursor that lie closest to it, oldest first. No post that qualifies but is left out lies on the wrong side of the page.
- **Crawling.** Following `nextCursor` from the first page visits every post exactly once, newest first, when no two posts share a timestamp. `PostsCrawl.TiedTimestampsSkipAPost` shows that a shared timestamp can make a post unreachable.
- **Likes.** The client's local like update gives a post exactly what the backend stores for the same toggle, and it leaves every other post alone. Liking twice restores the list.
- **Controls.** Once a page is loaded, "Older" is enabled exactly when the backend reported a next page, and "Newer" exactly when the page was not empty.
- **Notifications.** The unread count goes up by one when an unread notification is added. It goes down by one when the first notification with an id is marked read and was unread. It never grows on removal.
- **Search box.** The suggestions are exactly the built-in entries that contain the query, ignoring case. The highlight stays within the list.

## Model

| member | source | states |
|---|---|---|
| FeedTypes.Posts | server/routes/posts.js:155-159 | a response's posts are the stored posts, one for one, in order, without their time label |
| FeedTypes.DirectionOf | server/routes/posts.js:114 | a missing or empty `direction` means "next"; "prev" is recognised only when given; any other string is kept as it is, and is never "next" or "prev" |
| FeedTypes.Status | server/routes/posts.js:307-328 | malformed input is answered 400, an unknown post 404 and a simulated failure 500, and no error has two codes |
| PostsList.ElapsedMinutes | server/routes/posts.js:94 | the elapsed whole minutes m satisfy m minutes <= now - createdAt < m+1 minutes, i.e. the floor |
| PostsList.GetTimeAgo | server/routes/posts.js:91-106 | "Just now" exactly below one minute; otherwise minutes below an hour, whole hours below a day, whole days below a week, each within its range; exactly from seven days on, the date of `createdAt` |
| PostsList.InsertByDateSorts | server/routes/posts.js:125-127 | inserting a post into a newest-first list keeps it newest first and adds exactly that post |
| PostsList.SortNewestFirstSorts | server/routes/posts.js:125-127 | the sorted copy is newest first and a permutation of the stored posts |
| PostsList.SortKeepsNewestHead | server/routes/posts.js:125-127 | a first post at least as new as every other stays first (the sort is stable) |
| PostsList.FilterKeepsNewestFirst | server/routes/posts.js:137-144 | the cursor filters keep the sorted copy newest first |
| PostsList.Take | server/routes/posts.js:152 | `slice(0, limit)` is the first min(limit, length) posts |
| PostsList.LastN | server/routes/posts.js:146 | `slice(-limit)` is the last min(limit, length) posts |
| PostsList.Reverse | server/routes/posts.js:146 | `reverse()` puts position i at length-1-i |
| PostsList.ReverseMultiset | server/routes/posts.js:146 | reversing keeps the same posts |
| PostsList.EffectiveLimit | server/routes/posts.js:112 | a missing, non-numeric or zero limit becomes 10; any other value is used as given |
| PostsList.Stamp | server/routes/posts.js:155-159 | every post of the page gets the time label for its own `createdAt`, and nothing else changes |
| PostsList.ListPosts | server/routes/posts.js:109-192 | a limit outside 1..50 is rejected as invalid pagination; otherwise the metadata echoes limit, direction and the store size; `hasPrevPage` holds iff a cursor parameter was given; `hasNextPage` iff direction is "next" and more than `limit` posts pass the filter; `nextCursor` is set iff `hasNextPage` and is the last post's timestamp; `prevCursor` is set iff the page is not empty and is its first post's timestamp; the page is at most `limit` long unless it is a cursorless "prev"; the page is drawn from the store |
| PostsList.HasNextPage | server/routes/posts.js:162 | there is a next page iff the direction is "next" and more posts than `limit` pass the cursor filter, counted on the store itself |
| PostsList.PageOf | server/routes/posts.js:129-152 | the page is drawn from the store, is at most `limit` long unless it is a cursorless "prev", and is full when there is a next page |
| PostsList.PageFacts | server/routes/posts.js:132-152 | the filtered and sliced posts come from the store, and the "next" filter leaves as many posts on the sorted copy as on the store |
| PostsList.OlderOfSorted | server/routes/posts.js:137-139 | the "next" filter yields, newest first, exactly the stored posts older than the cursor |
| PostsList.NewerOfSorted | server/routes/posts.js:142-144 | the "prev" filter yields, newest first, exactly the stored posts newer than the cursor |
| PostsList.PrefixClosest | server/routes/posts.js:152 | a post of a newest-first list that is cut by `slice(0, n)` is no newer than the n-th, and the slice is full |
| PostsList.SuffixClosest | server/routes/posts.js:146 | a post of a newest-first list that is cut by `slice(-n)` is no older than the first kept, and the slice is full |
| PostsList.ReverseFacts | server/routes/posts.js:146 | reversing keeps the posts and turns newest-first into oldest-first |
| PostsList.ListNextPage | server/routes/posts.js:132-152 | a "next" page from a cursor holds only posts older than it, newest first, min(limit, number older) of them; any older post left out is no newer than the page's last and the page is full |
| PostsList.NextPageIs | server/routes/posts.js:137-152 | proof step: a "next" page from a cursor is the first `limit` of the filtered sorted copy |
| PostsList.NextPageRaw | server/routes/posts.js:137-152 | the first `limit` posts older than the cursor: all older, newest first, the right count, and closest to the cursor |
| PostsList.ListPrevPage | server/routes/posts.js:140-152 | a "prev" page from a cursor holds only posts newer than it, OLDEST first, min(limit, number newer) of them; any newer post left out is no older than the page's last and the page is full |
| PostsList.PrevPageIs | server/routes/posts.js:140-152 | proof step: a "prev" page from a cursor is the reversed last `limit` of the filtered sorted copy, taken without a further limit |
| PostsList.PrevPageRaw | server/routes/posts.js:142-146 | those posts are all newer than the cursor, oldest first, the right count, and closest to the cursor |
| PostsList.ClosestOldestFirst | server/routes/posts.js:146 | `slice(-n).reverse()` of a newest-first list is oldest first, drawn from it, of size min(n, length), and every post it leaves out is no older than its newest |
| PostsList.ListNewestPage | server/routes/posts.js:125-152 | without a filtering cursor a non-"prev" request gets the newest `limit` posts, newest first; any post left out is no newer than the page's last |
| PostsList.NewestPageRaw | server/routes/posts.js:151-152 | the first `limit` of the sorted copy are newest first, the right count, and newer than every post left out |
| PostsList.ListPrevWithoutCursor | server/routes/posts.js:140-152 | "prev" without a cursor returns the whole store, newest first, with no limit applied |
| PostsCrawl.CrawlShrinks | server/routes/posts.js:162-169 | every response carrying a `nextCursor` leaves fewer candidates for the next request, so following cursors ends |
| PostsCrawl.CrawlStep | server/routes/posts.js:162-169 | the `nextCursor` of a response is older than every post still ahead, and strictly fewer posts are older than it |
| PostsCrawl.FewerOlder | server/routes/posts.js:137-139 | fewer stored posts are older than a post's timestamp than are older than a later cursor |
| PostsCrawl.SortStrict | server/routes/posts.js:125-127 | with distinct timestamps the sorted copy is strictly newest first |
| PostsCrawl.InsertStrict | server/routes/posts.js:125-127 | inserting a post with a new timestamp keeps a list strictly newest first |
| PostsCrawl.OlderThanSuffix | server/routes/posts.js:137-139 | in a strictly descending list, the posts older than the (k-1)-th are exactly those from k on |
| PostsCrawl.CursorAfter | server/routes/posts.js:166-169 | proof step: the cursor after k posts of a crawl is none at the start and the k-th post's timestamp afterwards |
| PostsCrawl.FollowWalks | server/routes/posts.js:166-169 | a client that passes each `nextCursor` back, against responses that walk a list, sees that list from where it starts, in order, each element once |
| PostsCrawl.FirstStep | server/routes/posts.js:151-169 | the first request returns the newest `limit` posts and a cursor exactly when more remain |
| PostsCrawl.LaterStep | server/routes/posts.js:135-169 | with distinct timestamps, the request from the k-th post's timestamp returns the next `limit` posts and a cursor exactly when more remain |
| PostsCrawl.SuffixAfter | server/routes/posts.js:137-139 | with distinct timestamps, the posts older than the k-th are the rest of the sorted copy, and there are length-k of them |
| PostsCrawl.CrawlVisitsAll | server/routes/posts.js:109-192 | with distinct timestamps, following `nextCursor` from the first page yields every stored post exactly once, strictly newest first |
| PostsCrawl.TiedTimestampsSkipAPost | server/routes/posts.js:137-139 | two posts sharing a timestamp, one per page: the second is never reached |
| PostsCrawl.TiedFirstRequest | server/routes/posts.js:151-169 | with two posts sharing a timestamp and a limit of 1, the first page is the post stored first, with that timestamp as cursor |
| PostsCrawl.TiedSecondRequest | server/routes/posts.js:137-169 | from the shared timestamp, the next request gets an empty page and no cursor |
| PostsStore.FindIndex | server/routes/posts.js:259 | the position of the first post with the id, or none exactly when no post has it |
| PostsStore.LikeTransition | server/routes/posts.js:279-285 | liking an unliked post adds one; unliking a liked post removes one but not below zero; a request matching the current flag changes nothing; only `likes` and `isLiked` change |
| PostsStore.LikeIdempotent | server/routes/posts.js:279-285 | repeating the same like request changes nothing more |
| PostsStore.LikeThenUnlikeRestores | server/routes/posts.js:279-285 | like then unlike restores an unliked post with a non-negative count |
| PostsStore.LikesStayNonNegative | server/routes/posts.js:283 | any sequence of like requests keeps a non-negative count non-negative |
| PostsStore.NewestPostListedFirst | server/routes/posts.js:125-152 | a post at least as new as all the others is first on the first page |
| PostsStore.PostStore.constructor | server/routes/posts.js:7-88 | the store starts with the given posts, none with a negative like count |
| PostsStore.PostStore.Find | server/routes/posts.js:259 | the loop finds the first post with the id, as FindIndex |
| PostsStore.PostStore.List | server/routes/posts.js:109-192 | listing answers ListPosts on the current array and changes nothing |
| PostsStore.PostStore.GetById | server/routes/posts.js:360-380 | an unknown id gives "Post not found"; a stored id always succeeds, with the first post with that id and its current time label |
| PostsStore.PostStore.Create | server/routes/posts.js:195-251 | a missing or empty userName or content is rejected first, then content longer than 5000 characters (measured before trimming); only then is the post, with trimmed fields, zero counts, the given id and time and `imageUrl || null`, put in front of the array; on error nothing changes |
| PostsStore.PostStore.Like | server/routes/posts.js:254-299 | an unknown id gives 404 and a simulated failure gives 500, both without change; the request succeeds exactly when the id is stored and no failure is simulated, and then exactly the first post with the id gets LikeTransition, and the reply carries its new count and flag |
| PostsStore.PostStore.AddComment | server/routes/posts.js:302-357 | an unknown id gives 404 even with missing fields; then missing fields give 400; then a simulated failure 500; the request succeeds exactly when none of these applies, and then only that post's comment count grows by one, and the reply carries the trimmed comment and the new total |
| PostsSlice.Slots.Set | src/store/slices/postsSlice.js:97-112 | setting one operation's loading or error slot changes that slot and no other |
| PostsSlice.AllSlots | src/store/slices/postsSlice.js:97-112 | every operation's slot holds the same value |
| PostsSlice.UpdateLikes | src/store/slices/postsSlice.js:134-141 | the list keeps its length, and every post keeps its id and time label |
| PostsSlice.UpdateLikesAt | src/store/slices/postsSlice.js:134-141 | when the first post with the id is at k, exactly that entry gets the new count and flag |
| PostsSlice.UpdateLikesAbsent | src/store/slices/postsSlice.js:137 | an id not in the list changes nothing |
| PostsSlice.UpdateLikesIdempotent | src/store/slices/postsSlice.js:134-141 | applying the same update twice is the same as once |
| PostsSlice.PostsState.constructor | src/store/slices/postsSlice.js:85-113 | no posts, no current post, the initial pagination (limit 10, direction "next"), nothing loading, no errors |
| PostsSlice.PostsState.Pending | src/store/slices/postsSlice.js:150-153 | each pending case turns on its own loading flag and clears its own error, nothing else |
| PostsSlice.PostsState.Rejected | src/store/slices/postsSlice.js:172-175 | each rejected case turns off its own flag and stores the message as its own error; posts and pagination stay |
| PostsSlice.PostsState.FetchPostsFulfilled | src/store/slices/postsSlice.js:154-171 | the page replaces the list when `reset` is set or the direction is "next" or "prev", and any other direction keeps the old list; the pagination is replaced |
| PostsSlice.PostsState.LoadMoreFulfilled | src/store/slices/postsSlice.js:183-189 | the page is appended after the current list |
| PostsSlice.PostsState.LoadPreviousFulfilled | src/store/slices/postsSlice.js:201-207 | the page is put before the current list |
| PostsSlice.PostsState.RefreshFulfilled | src/store/slices/postsSlice.js:219-224 | the page replaces the list and the pagination is replaced |
| PostsSlice.PostsState.CreatePostFulfilled | src/store/slices/postsSlice.js:236-243 | the new post goes first and only `totalPosts` of the pagination grows, by one |
| PostsSlice.PostsState.FetchPostByIdFulfilled | src/store/slices/postsSlice.js:255-259 | only the opened post and this operation's own loading and error slots change: the post is stored, `loading.fetchPost` goes off and `error.fetchPost` is cleared |
| PostsSlice.PostsState.ClearErrors | src/store/slices/postsSlice.js:121-130 | every error slot is cleared and nothing else changes |
| PostsSlice.PostsState.ClearCurrentPost | src/store/slices/postsSlice.js:131-133 | only the opened post is cleared |
| PostsSlice.PostsState.ResetPosts | src/store/slices/postsSlice.js:142-145 | an empty list and the initial pagination; the loading flags, errors and the opened post stay |
| PostsSlice.PostsState.UpdatePostLikes | src/store/slices/postsSlice.js:134-141 | the in-place search updates the list exactly as UpdateLikes |
| NewsFeedPosts.HandleLike | src/problems/news-feed/components/Posts/NewsFeedPosts.jsx:39-55 | the action targets the post, flips its flag, adds one when liking, and when unliking sets max(0, likes-1) |
| NewsFeedPosts.ClientMatchesServer | src/problems/news-feed/components/Posts/NewsFeedPosts.jsx:39-55 | the local update gives the post exactly what the backend's like handler stores for the same toggle |
| NewsFeedPosts.ClickLike | src/problems/news-feed/components/Posts/NewsFeedPosts.jsx:39-55 | clicking the like button of the first post with its id changes that post as the backend would and leaves every other entry as it was |
| NewsFeedPosts.LikeTwiceRestores | src/problems/news-feed/components/Posts/NewsFeedPosts.jsx:39-55 | two clicks on an unliked post with a valid count give back the original list |
| NewsFeedPosts.Render | src/problems/news-feed/components/Posts/NewsFeedPosts.jsx:58-224 | the skeleton shows exactly while the first fetch runs with no posts, and then no control exists; otherwise refresh shows iff there is a previous page, load-more iff there is a next page and is disabled while load-more or the main fetch runs; Newer and Older are disabled iff their cursor is null or the main fetch runs; the counts show iff the total is positive |
| NewsFeedPosts.NoNavigationWhileFetching | src/problems/news-feed/components/Posts/NewsFeedPosts.jsx:189-224 | consequence of Render: while a fetch runs, no rendered load-more, Newer or Older button is enabled |
| NewsFeedPosts.ButtonsFollowResponse | src/problems/news-feed/components/Posts/NewsFeedPosts.jsx:205-224 | with a backend response's pagination and no fetch running, Older is enabled iff the backend reported a next page, and Newer iff the page was not empty |
| UiSlice.Toggled | src/store/slices/uiSlice.js:32-34 | "midnight" becomes "light" and any other theme becomes "midnight" |
| UiSlice.ToggleTwice | src/store/slices/uiSlice.js:32-34 | toggling either theme twice gives it back |
| UiSlice.NewNotification | src/store/slices/uiSlice.js:37-43 | the payload's id, timestamp and read flag override the defaults (the clock, the current time, unread), and the body is the payload's |
| UiSlice.UnreadCount | src/store/slices/uiSlice.js:122-123 | the unread count never exceeds the number of notifications |
| UiSlice.UnreadCountZero | src/store/slices/uiSlice.js:122-123 | the count is zero iff every notification is read |
| UiSlice.AddedCount | src/store/slices/uiSlice.js:44 | putting a notification in front raises the count by one iff it is unread |
| UiSlice.RemovedSpec | src/store/slices/uiSlice.js:46-50 | removal keeps exactly the notifications with another id, each as often as before and in the same order |
| UiSlice.RemovedUnread | src/store/slices/uiSlice.js:46-50 | removal never raises the unread count |
| UiSlice.MarkRead | src/store/slices/uiSlice.js:51-58 | marking read keeps the list's length and changes nothing but `read` flags |
| UiSlice.MarkReadAt | src/store/slices/uiSlice.js:51-58 | exactly the first notification with the id becomes read |
| UiSlice.MarkReadAbsent | src/store/slices/uiSlice.js:55 | an unknown id changes nothing |
| UiSlice.MarkReadIdempotent | src/store/slices/uiSlice.js:51-58 | marking the same id twice is the same as once |
| UiSlice.MarkReadCount | src/store/slices/uiSlice.js:51-58 | the unread count drops by one iff the first notification with the id was unread |
| UiSlice.UiState.constructor | src/store/slices/uiSlice.js:4-21 | theme "midnight", no notifications, closed modals, a hidden "info" toast with an empty message, a closed sidebar on "home" |
| UiSlice.UiState.UnreadNotificationsCount | src/store/slices/uiSlice.js:122-123 | the selector is at most the number of notifications |
| UiSlice.UiState.SetTheme | src/store/slices/uiSlice.js:29-31 | only the theme changes, to the given one |
| UiSlice.UiState.ToggleTheme | src/store/slices/uiSlice.js:32-34 | only the theme changes, as Toggled |
| UiSlice.UiState.AddNotification | src/store/slices/uiSlice.js:37-45 | the new notification goes first, and the unread count grows by one unless the payload says it is read |
| UiSlice.UiState.RemoveNotification | src/store/slices/uiSlice.js:46-50 | the list becomes Removed, and the unread count does not grow |
| UiSlice.UiState.MarkNotificationAsRead | src/store/slices/uiSlice.js:51-58 | the in-place search updates the list exactly as MarkRead |
| UiSlice.UiState.ClearAllNotifications | src/store/slices/uiSlice.js:59-61 | no notifications and no unread ones remain; nothing else changes |
| UiSlice.UiState.SetCreatePostExpanded | src/store/slices/uiSlice.js:64-66 | only the create-post flag changes |
| UiSlice.UiState.OpenImagePreview | src/store/slices/uiSlice.js:67-70 | the preview opens with the given URL; nothing else changes |
| UiSlice.UiState.CloseImagePreview | src/store/slices/uiSlice.js:71-74 | the preview closes and its URL is cleared |
| UiSlice.UiState.ShowToast | src/store/slices/uiSlice.js:77-83 | the toast is visible with the message; its type is the given one unless missing or empty, then "info" |
| UiSlice.UiState.HideToast | src/store/slices/uiSlice.js:84-86 | only the toast's visibility changes, to hidden |
| UiSlice.UiState.ToggleSidebar | src/store/slices/uiSlice.js:89-91 | only the sidebar's open flag flips |
| UiSlice.UiState.SetSidebarTab | src/store/slices/uiSlice.js:92-94 | only the sidebar's tab changes |
| UiSlice.UiState.CloseSidebar | src/store/slices/uiSlice.js:95-97 | only the sidebar's open flag changes, to closed |
| Common.Trim | server/routes/posts.js:217 | `trim()` is no longer than the string and leaves no whitespace at either end |
| Common.TrimStartFacts | server/routes/posts.js:217 | trimming the front drops exactly a leading run of whitespace |
| Common.TrimEndFacts | server/routes/posts.js:217 | trimming the back drops exactly a trailing run of whitespace |
| Common.BlankIffTrimsToEmpty | src/problems/autocomplete/components/SearchBox/SearchBox.jsx:54 | `value.trim()` is falsy exactly for a string made only of whitespace |
| Common.ToLowerChars | src/problems/autocomplete/components/SearchBox/SearchBox.jsx:59 | `toLowerCase()` lowers each character in place |
| Common.ContainsAt | src/problems/autocomplete/components/SearchBox/SearchBox.jsx:59 | `includes` holds iff the needle occurs at some offset |
| SearchBox.Containing | src/problems/autocomplete/components/SearchBox/SearchBox.jsx:58-60 | the filter never yields more entries than the list has |
| SearchBox.ContainingIsFilter | src/problems/autocomplete/components/SearchBox/SearchBox.jsx:58-60 | the filter is `Array.filter` with the lower-cased `includes` test |
| SearchBox.MatchingSpec | src/problems/autocomplete/components/SearchBox/SearchBox.jsx:58-60 | an entry is suggested iff it is in the list and, lower-cased, contains the lower-cased query; suggestions keep the list's order |
| SearchBox.ContainingFromList | src/problems/autocomplete/components/SearchBox/SearchBox.jsx:58-60 | every suggestion comes from the list |
| SearchBox.ToLowerIdempotent | src/problems/autocomplete/components/SearchBox/SearchBox.jsx:59 | lower-casing twice is lower-casing once |
| SearchBox.CaseInsensitive | src/problems/autocomplete/components/SearchBox/SearchBox.jsx:58-60 | a query and its lower-cased form get the same suggestions |
| SearchBox.MockStartsWithReact | src/problems/autocomplete/components/SearchBox/SearchBox.jsx:25-36 | every built-in suggestion starts with "react" |
| SearchBox.ReactOffersAll | src/problems/autocomplete/components/SearchBox/SearchBox.jsx:25-60 | typing "React" offers the whole built-in list |
| SearchBox.PrefixOffersAll | src/problems/autocomplete/components/SearchBox/SearchBox.jsx:58-60 | a query whose lower-case form is a common lower-case prefix of the list offers the whole list |
| SearchBox.NextIndex | src/problems/autocomplete/components/SearchBox/SearchBox.jsx:84-86 | ArrowDown moves the highlight one down, stops at the last entry and stays within -1..count-1 |
| SearchBox.PrevIndex | src/problems/autocomplete/components/SearchBox/SearchBox.jsx:90 | ArrowUp moves the highlight one up from an entry and never below -1 |
| SearchBox.DownSaturates | src/problems/autocomplete/components/SearchBox/SearchBox.jsx:84-86 | n ArrowDown presses reach min(start+n, last entry) |
| SearchBox.UpSaturates | src/problems/autocomplete/components/SearchBox/SearchBox.jsx:90 | n ArrowUp presses reach max(start-n, -1) |
| SearchBox.UpUndoesDown | src/problems/autocomplete/components/SearchBox/SearchBox.jsx:84-90 | ArrowUp undoes an ArrowDown that moved the highlight |
| SearchBox.SearchBoxState.constructor | src/problems/autocomplete/components/SearchBox/SearchBox.jsx:15-36 | empty query, no suggestions, not loading, hidden list, no highlight; the built-in list |
| SearchBox.SearchBoxState.InputChange | src/problems/autocomplete/components/SearchBox/SearchBox.jsx:50-70 | the query becomes the value and the highlight resets; a non-blank value shows the matching suggestions and ends loading; a blank one empties and hides the list |
| SearchBox.SearchBoxState.Focus | src/problems/autocomplete/components/SearchBox/SearchBox.jsx:72-76 | the list shows again when the query is not blank and there are suggestions; nothing else changes |
| SearchBox.SearchBoxState.SuggestionSelect | src/problems/autocomplete/components/SearchBox/SearchBox.jsx:110-115 | the query becomes the suggestion, the list hides and the highlight resets |
| SearchBox.SearchBoxState.Search | src/problems/autocomplete/components/SearchBox/SearchBox.jsx:117-124 | a non-blank query hides the list and resets the highlight; a blank one changes nothing |
| SearchBox.SearchBoxState.Clear | src/problems/autocomplete/components/SearchBox/SearchBox.jsx:126-132 | empty query, no suggestions, hidden list, no highlight |
| SearchBox.SearchBoxState.ClickOutside | src/problems/autocomplete/components/SearchBox/SearchBox.jsx:39-44 | the list hides and the highlight resets |
| SearchBox.SearchBoxState.KeyDown | src/problems/autocomplete/components/SearchBox/SearchBox.jsx:78-108 | nothing happens while the list is hidden or empty; otherwise ArrowDown and ArrowUp move the highlight, Enter selects the highlighted suggestion or searches, Escape hides the list; the highlight always stays within the list |

## Left out

- Express routing, JSON bodies and the `try`/`catch` answers "Failed to ..." with status 500 are not modelled. Nothing in the modelled handlers throws on the inputs the model admits.
- The random delay of the like and comment handlers (`setTimeout` around the update) is not modelled. Each update is applied at once, so interleavings of concurrent requests are not covered.
- `Math.random()` becomes the boolean parameter `fail`. `uuidv4()` and `new Date()` become the `id`, `commentId` and `now` parameters.
- Timestamps are integers. ISO string parsing and an unparseable cursor (an invalid `Date`, for which every comparison is false) are not modelled. `limit` is the number `parseInt` yields, or none for NaN.
- `toLocaleDateString()` is represented by the timestamp it would format (`OnDate`), because locale formatting is outside the model.
- The five seed posts are not reproduced. `PostsStore.PostStore.constructor` takes any initial posts whose like counts are non-negative, as the seed's are.
- Display-only fields (`userAvatar`, `avatarGradient`, `imageGradient`) are not modelled. `hasImage` is taken as the boolean `Boolean(hasImage)` yields.
- The async thunks and the HTTP client of the client store are not modelled. The model covers only the actions they dispatch: each `pending`, `fulfilled` and `rejected` case.
- `handleLike` only updates the client store: its call to the backend is commented out, so nothing is sent and nothing is rolled back. NewsFeedPosts.ClientMatchesServer relates the two updates as values instead.
- A "prev" page never carries a `nextCursor`, because `hasNextPage` requires direction "next". So "prev" followed by "next" is not a round trip, and no lemma claims one.
- PostsCrawl.CrawlVisitsAll: requires distinct timestamps, because with shared timestamps the strict cursor filter skips posts (PostsCrawl.TiedTimestampsSkipAPost).
- PostsStore.PostStore.Create: content made only of whitespace passes the emptiness check and is stored as "". The error message says "less than 5000 characters" while exactly 5000 is accepted; the model follows the code.
- `trim` and `toLowerCase` are modelled on ASCII only. Unicode whitespace, non-ASCII case mapping and UTF-16 length are not modelled.
- SearchBox.SearchBoxState.InputChange: the 200 ms timer is applied at once. So a stale timer that finishes after a newer keystroke, and keys pressed while loading, are not modelled. Apart from that, `isLoading` is seen only as set and cleared.
- The search box's DOM side effects are not modelled: focus, blur, the document `mousedown` listener, `window.open` for the Google and "lucky" buttons, `console.log`, and the `highlightMatch` rendering.
- UiSlice.NewNotification: a payload key present with the value `undefined` overrides a default in JavaScript. The model treats it as absent. The ISO timestamp string is modelled as the integer time it encodes.
- The feed list's markup, styling and `PostCard` contents are not modelled. The model covers only the conditions that decide what is rendered or disabled.
- `post.isLiked || false` in `handleLike` is not modelled separately, because `isLiked` is always a boolean in the model.
