# twitter-clone core in Dafny

A model of the behaviour of a small Twitter-like web application: its RPC routers for posts, replies,
likes, follows and profiles; the server helpers that join rows with author profiles from the identity
service; and the client-side state machines of the post card, the follow button, the route history,
the registration page and the app shell's registration guard.

The store is an immutable value `Db(posts, replies, likes, follows)`.
- `posts` and `replies` are sequences ordered newest first.
- `likes` is a set of `(postId, userId)` pairs.
- `follows` is a set of `(userId, followingId)` edges.

The identity service is a finite map from user id to account (`Identity.Directory`).
- Every router call is a pure function of the store, the directory and its inputs.
- A mutation returns the new store together with its result (`Store.Outcome`).
- Errors are `ApiError = BadRequest | Forbidden | Internal | Validation`. `Validation` carries the schema's issue messages.

Module layout (one module per source file):
- `Common`: Option/Result, errors, substring search, and the schema issue messages.
- `Pagination`: keyset pagination, generic over the row type.
- `Store`: rows, the store, and its integrity invariant `Consistent`.
- `Identity`: the directory, `filterUserForClient` and `findUserFromClerk`.
- `FollowData` and `PostData`: the helpers `attachFollowData` and `addDataToPost`.
- `PostsRouter`, `ReplysRouter`, `FollowsRouter`, `LikesRouter`, `ProfilesRouter`: the routers.
- `RouteHistory`, `ContentViews`, `FollowButton`, `Register`, `App`: the client.

Pagination follows the code.
- A query with a cursor starts AT the cursor row, which is included, because no `skip` is given.
- It fetches `limit + 1` rows, pops the last one, and returns that row's id as `nextCursor`.
- The client passes `nextCursor` straight back as the next cursor.
- The headline theorem (`Pagination.CrawlEnumeratesTable`, lifted to the feed in `PostsRouter.FeedCrawlEnumeratesPosts`): this crawl returns the ordered table exactly, with no row missing or repeated.
- No `skip: 1` is passed with the cursor, so the store includes the cursor row: the row that ended one page as the popped extra row starts the next.

Inputs that the source reads from outside its own code are parameters:
- the signed-in user's id (`viewer`), which the authentication middleware provides;
- the id and timestamp the store assigns to a new row (`freshId`, `now`);
- the current path or url;
- whether the identity service's update call fails.

## Model

| member | source | states |
|---|---|---|
| Common.LimitIssues | src/server/api/routers/posts.ts:65 | a page size is accepted exactly when it is between 1 and 100; below 1 the one issue is the schema's "greater than or equal to 1" message, above 100 its "less than or equal to 100" message |
| Common.ContainsSuffix | src/components/contentViews.tsx:215-216 | a string ends with, and so contains, whatever was appended to it |
| Pagination.IndexOf | src/server/api/routers/posts.ts:74 | the cursor row is found at the first position whose id is the cursor, and nothing is found only when no row has that id |
| Pagination.IndexFrom | src/server/api/routers/posts.ts:74 | searching from a position finds the first row at or after it whose id is the cursor, and finds nothing only when no row from there on has that id |
| Pagination.TailKeys | src/server/api/routers/posts.ts:71-75 | the table without its newest row still has unique, present ids |
| Pagination.PrependKeys | src/server/api/routers/posts.ts:93-98 | a new row whose id is present and not yet in the table can be put at the head without breaking id uniqueness |
| Pagination.IndexOfUnique | src/server/api/routers/posts.ts:74 | with unique ids, the id of row k leads back to row k |
| Pagination.FindMany | src/server/api/routers/posts.ts:71-75 | the store's query returns at most `take` rows: the top of the table without a cursor, nothing for a cursor that names no row |
| Pagination.StartOf | src/server/api/routers/posts.ts:74 | a page starts inside the table; an absent or empty cursor starts at the top; any other cursor starts at the position of the row it names |
| Pagination.CursorArg | src/server/api/routers/posts.ts:74 | the store receives a cursor only when the client sent a non-empty one, and then receives it unchanged; an absent or empty cursor reads from the top (the same test is at replys.ts:59) |
| Pagination.FetchFromStart | src/server/api/routers/posts.ts:71-75 | the store query with the router's cursor argument returns the `take` rows from the page start, and nothing when the cursor names no row |
| Pagination.Paginate | src/server/api/routers/posts.ts:70-82 | a page is the `limit` rows from the cursor row (inclusive); `nextCursor` is present exactly when a further row exists, and it is that row's id |
| Pagination.PageRows | src/server/api/routers/posts.ts:70-82 | the k-th row of a page is the table row k places after the page start, so every row of a page is a row of the table |
| Pagination.PageAt | src/server/api/routers/posts.ts:77-82 | a page that ends before the table does holds exactly `limit` rows and names the following row as next cursor |
| Pagination.NextPageStart | src/server/api/routers/posts.ts:77-82 | with unique, present ids a next cursor locates the row `limit` places after the page start, so fewer rows remain to crawl |
| Pagination.CrawlStep | src/server/api/routers/posts.ts:70-82 | a crawl with a next page is that page followed by the crawl from the next cursor |
| Pagination.CrawlLast | src/server/api/routers/posts.ts:77-82 | a crawl whose first page reaches the end of the table is the rest of the table |
| Pagination.Crawl | src/pages/index.tsx:13-21 | the infinite query feeds each page's `nextCursor` back until none comes; a cursor that names no row yields nothing, and otherwise the crawl begins with the first page's rows |
| Pagination.CrawlFrom | src/server/api/routers/posts.ts:71-82 | crawling from table position i by feeding back each `nextCursor` returns the table from i on |
| Pagination.CrawlEnumeratesTable | src/pages/index.tsx:19 | crawling from the top returns the whole ordered table, every row exactly once |
| Pagination.CrawlHasNoDuplicates | src/pages/index.tsx:19 | a crawl never returns the same row twice |
| Pagination.PageStableUnderNewerRow | src/server/api/routers/posts.ts:71-75 | a newer row inserted at the head does not change the page for a cursor the client already holds |
| Pagination.FetchStableUnderNewerRow | src/server/api/routers/posts.ts:71-75 | the store query from a cursor ignores rows inserted ahead of the cursor |
| Pagination.FetchAt | src/server/api/routers/posts.ts:71-75 | the store query from a cursor found at position i returns the `take` rows from i |
| Pagination.IndexOfBehindNewerRow | src/server/api/routers/posts.ts:74 | a row inserted ahead of the cursor row with a different id moves the cursor row back by exactly one |
| Store.RepliesOn | src/server/api/routers/replys.ts:53-56 | the thread of a post holds exactly the replies that name the post |
| Store.RepliesOnNone | src/server/api/routers/replys.ts:53-56 | a post that no reply names has an empty thread |
| Store.RepliesOnKeepsKeys | src/server/api/routers/replys.ts:53-60 | filtering a table with unique ids keeps the ids unique, so a thread can be paginated by id |
| Store.RepliesOnNewestFirst | src/server/api/routers/replys.ts:53-58 | filtering a newest-first table keeps it newest first, so a thread is ordered like the table |
| Store.TailNewestFirst | src/server/api/routers/replys.ts:57 | the table without its newest row is still newest first |
| Store.HeadNewest | src/server/api/routers/replys.ts:57 | the head of a newest-first table is at least as new as every later reply |
| Store.ConsNewestFirst | src/server/api/routers/replys.ts:57 | a reply at least as new as every reply of a newest-first list can head it |
| Identity.GetUser | src/server/api/helpers/findUserFromClerk.ts:17 | a lookup finds a record exactly for known ids, and the record is that account's |
| Identity.FilterUserForClient | src/server/api/helpers/filterUserForClient.ts:3-10 | the client projection copies the id and avatar and reads both names from the metadata |
| Identity.FilterUserForClientHidesRest | src/server/api/helpers/filterUserForClient.ts:4-9 | the projection depends on nothing but those four fields: any other metadata is invisible |
| Identity.FindUserFromClerk | src/server/api/helpers/findUserFromClerk.ts:16-38 | the lookup succeeds exactly for a registered account; an unknown id fails "User not found"; a missing or empty name fails with the account's id; on success both names are non-empty |
| FollowData.AttachFollowData | src/server/api/helpers/attachFollowData.ts:4-41 | follower and following counts are the numbers of edges into and out of the author; `isFollowing` holds exactly when the viewer's edge exists, with an anonymous viewer read as `""`; the author is carried unchanged |
| FollowData.AnonymousViewerFollowsNobody | src/server/api/helpers/attachFollowData.ts:26 | in a consistent store an anonymous viewer never follows anyone |
| FollowData.CountsAfterNewEdge | src/server/api/helpers/attachFollowData.ts:10-21 | one new edge moves the counts of its two endpoints by exactly one and no others |
| PostData.AddDataToPost | src/server/api/helpers/addDataToPost.ts:14-59 | the post comes back unchanged, with its author's checked profile and follow data, its like count, whether the viewer liked it and its reply count; a failed author lookup fails the whole call with that error |
| PostData.UnreferencedPostHasNoEngagement | src/server/api/helpers/addDataToPost.ts:29-50 | a post that is not yet in a consistent store has no likes or replies and is liked by nobody |
| PostsRouter.PostsOf | src/server/api/routers/posts.ts:44-50 | the posts of an enriched list are its entries' posts, in order |
| PostsRouter.AddUserDataToPosts | src/server/api/routers/posts.ts:19-52 | the join succeeds exactly when every author is registered; it then keeps length and order and pairs each post with the public profile (`filterUserForClient`) of its own author's account; otherwise it fails with the internal error of the first failing post |
| PostsRouter.PostAuthor | src/server/api/routers/posts.ts:21-50 | one post's author check passes exactly when the author is registered, and returns the public profile of that author's account, with both names; otherwise it raises "author not found" or the missing-names error |
| PostsRouter.AuthorsRegisteredCons | src/server/api/routers/posts.ts:28-50 | a list's authors are all registered exactly when the head's author and the tail's authors are |
| PostsRouter.PrependAuthor | src/server/api/routers/posts.ts:28-50 | pairing the head with its author's public profile in front of a paired tail pairs every post with its own author's profile |
| PostsRouter.FirstFailureShifts | src/server/api/routers/posts.ts:28-43 | a failure behind passing posts is the first failure of the whole list |
| PostsRouter.GetAllInfinite | src/server/api/routers/posts.ts:62-89 | a page size outside 1..100 is a validation error before any query; otherwise the result is exactly the page of the table, each post paired with the public profile of its own author's account, or the internal error of the first post on the page whose author is unregistered |
| PostsRouter.PostsOfAppend | src/server/api/routers/posts.ts:84-88 | the posts of two concatenated pages are the concatenated posts |
| PostsRouter.PageAuthorsRegistered | src/server/api/routers/posts.ts:71-84 | when every author of the table is registered, so is every author of any page |
| PostsRouter.FeedCrawl | src/components/Feed.tsx:37-41 | the feed asks for the next page each time the bottom comes into view; an invalid page size fails with the schema's issues, and a successful crawl begins with the first page of the router |
| PostsRouter.FeedCrawlFollowsPages | src/server/api/routers/posts.ts:62-89 | a feed crawl succeeds when all authors are registered, and its posts are the crawl of the table |
| PostsRouter.FeedCrawlEnumeratesPosts | src/server/api/routers/posts.ts:62-89 | scrolling the whole feed from the top returns every post of the table exactly once, newest first, each with the public profile of its own author's account |
| PostsRouter.FeedCrawlAuthors | src/server/api/routers/posts.ts:44-50 | every post of a feed crawl is paired with the public profile of its own author's account |
| PostsRouter.PostContentIssues | src/server/api/routers/posts.ts:91 | a post body is accepted exactly when it has 1 to 256 characters |
| PostsRouter.CreatePost | src/server/api/routers/posts.ts:90-101 | a body outside 1..256 is a validation error; otherwise the post, with the viewer as author, is stored at the head of the table; a store failure changes nothing |
| PostsRouter.CreatePostKeepsConsistent | src/server/api/routers/posts.ts:93-98 | creating a post keeps the store consistent, given a fresh id and a clock that does not run backwards |
| PostsRouter.NewPostLeadsFeed | src/server/api/routers/posts.ts:70-88 | after a registered user posts, the first feed page starts with that post and that author |
| ReplysRouter.CreateIssues | src/server/api/routers/replys.ts:13-19 | a reply is accepted exactly for a non-empty post id and 1 to 255 characters, and each violation has its own message |
| ReplysRouter.CreateReply | src/server/api/routers/replys.ts:11-42 | a valid reply is stored under its post with the viewer as author; an unknown post and a clashing id are each "Could not create reply", and a failure stores nothing |
| ReplysRouter.CreateReplyKeepsConsistent | src/server/api/routers/replys.ts:23-33 | creating a reply keeps the store consistent, given a fresh id and a clock that does not run backwards |
| ReplysRouter.CreateReplyExtendsThread | src/server/api/routers/replys.ts:23-33 | a new reply goes to the front of its own post's thread and changes no other thread |
| ReplysRouter.AddUserToReplys | src/server/api/routers/replys.ts:69-93 | the join succeeds exactly when every reply's author exists; it keeps order and attaches each reply's projected author; a missing author is an internal error |
| ReplysRouter.ThreadIssues | src/server/api/routers/replys.ts:44-50 | a thread query is accepted exactly for a non-empty post id and a page size of 1 to 100 |
| ReplysRouter.ReplysOf | src/server/api/routers/replys.ts:86-91 | the replies of an enriched list are its entries' replies, in order |
| ReplysRouter.GetAllInfiniteById | src/server/api/routers/replys.ts:43-101 | the result is exactly the page of the post's own thread, from the cursor row; each reply carries the public profile of its own author; it holds only replies of that post |
| ReplysRouter.EmptyThreadEmptyPage | src/server/api/routers/replys.ts:62-67 | a post without replies yields an empty page and no next cursor |
| ReplysRouter.ThreadCrawlEnumeratesReplies | src/server/api/routers/replys.ts:43-101 | scrolling a whole thread through the router, with every author known, returns each of the post's replies exactly once, newest first |
| ReplysRouter.ThreadCrawl | src/components/Feed.tsx:37-41 | a thread is scrolled the same way, page after page through the replies router; invalid input fails with its issues, and a successful crawl begins with the router's first page |
| ReplysRouter.ThreadCrawlFollowsPages | src/server/api/routers/replys.ts:52-67 | with every author known, the router-level thread crawl succeeds and its replies are the table crawl of the thread |
| ReplysRouter.PageAuthorsKnown | src/server/api/routers/replys.ts:52-67 | every reply of a page of a thread with known authors has a known author |
| ReplysRouter.ReplysOfAppend | src/components/Feed.tsx:60-62 | the replies of concatenated pages are the concatenated replies |
| FollowsRouter.GetFollowers | src/server/api/routers/follows.ts:7-18 | exactly the edges into the user |
| FollowsRouter.GetFollowing | src/server/api/routers/follows.ts:19-30 | exactly the edges out of the user |
| FollowsRouter.Create | src/server/api/routers/follows.ts:31-57 | a self-follow is forbidden, a duplicate is "Failed to follow"; both leave the store unchanged; success adds exactly the viewer's edge |
| FollowsRouter.Delete | src/server/api/routers/follows.ts:58-86 | a self-unfollow is forbidden, a missing edge is "Failed to unfollow"; both leave the store unchanged; success removes exactly the viewer's edge |
| FollowsRouter.FollowThenUnfollowRestores | src/server/api/routers/follows.ts:43-78 | following and then unfollowing restores the store |
| FollowsRouter.UnfollowThenFollowRestores | src/server/api/routers/follows.ts:43-78 | unfollowing and then following again restores the store |
| FollowsRouter.MutationsKeepConsistent | src/server/api/routers/follows.ts:35-78 | both mutations keep the store consistent; in particular no self-edge is created |
| FollowsRouter.ListsMatchProfileCounts | src/server/api/helpers/attachFollowData.ts:10-22 | the follower and following lists are exactly as long as the counts the profile reports |
| FollowsRouter.CreateListsEdge | src/server/api/routers/follows.ts:7-57 | a follow adds its edge to the target's follower list and to the viewer's following list and changes nothing else in them |
| FollowsRouter.DeleteUnlistsEdge | src/server/api/routers/follows.ts:58-86 | an unfollow removes its edge from both lists and changes nothing else in them |
| LikesRouter.Create | src/server/api/routers/likes.ts:9-28 | an empty post id is a validation error; an unknown post or a repeated like is "Error" and changes nothing; success adds exactly the viewer's like |
| LikesRouter.Delete | src/server/api/routers/likes.ts:29-46 | a missing like is "Error" and changes nothing; success removes exactly the viewer's like and returns nothing |
| LikesRouter.LikeThenUnlikeRestores | src/server/api/routers/likes.ts:13-40 | liking and then unliking restores the store |
| LikesRouter.MutationsKeepConsistent | src/server/api/routers/likes.ts:13-40 | both mutations keep the store consistent |
| LikesRouter.LikeRaisesCount | src/server/api/routers/likes.ts:13-23 | after a like, the post shows one more like and is liked by the viewer |
| ProfilesRouter.GetProfileById | src/server/api/routers/profiles.ts:7-17 | an empty id is rejected; otherwise the profile exists exactly for registered accounts, a failed lookup's error propagates, and the result is the looked-up user with follow data |
| ProfilesRouter.FollowUpdatesProfiles | src/server/api/routers/profiles.ts:10-16 | a follow raises the target's follower count and the follower's following count by one, and shows the target as followed |
| ProfilesRouter.FollowRoundTripRestoresProfiles | src/server/api/routers/profiles.ts:11-15 | follow then unfollow leaves every profile as every viewer saw it |
| RouteHistory.Initial | src/utils/routeHistory.tsx:20 | the history starts as just the current path |
| RouteHistory.OnRouteChange | src/utils/routeHistory.tsx:31-38 | a route change to the newest entry records nothing; any other url is appended behind the unchanged history; either way the url is newest |
| RouteHistory.OnBackNavigation | src/utils/routeHistory.tsx:40-46 | back navigation removes exactly the newest entry; an empty history stays empty |
| RouteHistory.SpliceStart | src/utils/routeHistory.tsx:25 | the splice position always lies within the history |
| RouteHistory.RemoveFromHistory | src/utils/routeHistory.tsx:22-28 | removing index i drops exactly entry i and keeps the rest in order; a negative index counts from the end; an index past the end removes nothing |
| RouteHistory.ChangeThenBackRestores | src/utils/routeHistory.tsx:37-45 | a recorded route change undone by back navigation restores the history |
| RouteHistory.BackThenArrivalRecordsNothing | src/utils/routeHistory.tsx:32-43 | the route change that accompanies a back navigation records nothing |
| RouteHistory.RouteChangeIdempotent | src/utils/routeHistory.tsx:34-37 | repeating a route change records nothing more |
| RouteHistory.RemoveThenReinsert | src/utils/routeHistory.tsx:22-28 | putting a removed entry back at its index gives the original history |
| RouteHistory.NegativeIndexCountsFromEnd | src/utils/routeHistory.tsx:25 | removing index -k removes the same entry as index length-k |
| ContentViews.HandleLikeButtonClick | src/components/contentViews.tsx:165-195 | signed out: the state is unchanged, sign-in is asked for, and the click propagates to the card (the handler returns before stopping it); while a mutation runs: nothing, and the click stops; otherwise the flag flips, the count moves by one in the matching direction, and a like is sent exactly when the post was not liked |
| ContentViews.HandleLikeButtonClickStopped | src/components/contentViews.tsx:174-175 | corrected: the same state and effect as written, but the click never propagates to the card |
| ContentViews.Mount | src/components/contentViews.tsx:106-116 | the card starts with the server's like flag and count and no mutation in flight, so its first signed-in click acts |
| ContentViews.OnCreateLikeError | src/components/contentViews.tsx:123-126 | a failed like flips the flag back and takes one off the count, and the like is no longer in flight. The revert reads the values of the render after the click (see Left out). |
| ContentViews.OnDeleteLikeError | src/components/contentViews.tsx:142-145 | a failed unlike flips the flag back and adds one to the count, and the unlike is no longer in flight. The revert reads the values of the render after the click (see Left out). |
| ContentViews.OnCreateLikeSettled | src/components/contentViews.tsx:121-122 | when the like mutation finishes, `createLoading` clears and nothing else changes |
| ContentViews.OnDeleteLikeSettled | src/components/contentViews.tsx:140-141 | when the unlike mutation finishes, `deleteLoading` clears and nothing else changes |
| ContentViews.LikeButtonRoute | src/components/contentViews.tsx:227-246 | a like click leads to `/post/<id>` exactly when it propagates and the current path does not contain "post" |
| ContentViews.SignedOutLikeOpensPost | src/components/contentViews.tsx:165-175 | as written, a signed-out like click on the home feed asks for sign-in and also opens the post's page |
| ContentViews.LikeClickNavigatesOnlySignedOut | src/components/contentViews.tsx:165-175 | as written, a like click navigates exactly when signed out off a post page; with the corrected handler it never does |
| ContentViews.ClickThenErrorRestores | src/components/contentViews.tsx:121-145 | a click whose mutation fails leaves the card as before the click |
| ContentViews.OptimisticLikeMatchesServer | src/components/contentViews.tsx:115-116 | the optimistic like shows exactly what the server reports once the like is stored |
| ContentViews.ShareUrl | src/components/contentViews.tsx:199-224 | no url means no link; otherwise the link contains the post id, and it is the page url itself when that already mentions the id |
| ContentViews.ShareUrlIdempotent | src/components/contentViews.tsx:213-217 | sharing from the page a share link opens copies the same link |
| ContentViews.HandleClickOnPost | src/components/contentViews.tsx:159-163 | a card click opens `/post/<id>` exactly when the current path does not contain "post" |
| ContentViews.PostPageClicksStay | src/components/contentViews.tsx:119 | on a post's own page, a click on any card navigates nowhere |
| FollowButton.HandleClick | src/components/FollowButton.tsx:84-107 | signed out: nothing changes; while a mutation runs: nothing; otherwise the state flips, and an unfollow is sent exactly when the viewer was following |
| FollowButton.Mount | src/components/FollowButton.tsx:19-21 | the button shows its first prop, remembers it as the value to compare with, is not hovered, has nothing in flight, and a render with the same prop changes nothing under either sync |
| FollowButton.OnCreateError | src/components/FollowButton.tsx:39-41 | a failed follow flips the state back, the follow is no longer in flight, and nothing else changes. The revert reads the values of the render after the click (see Left out). |
| FollowButton.OnDeleteError | src/components/FollowButton.tsx:55-57 | a failed unfollow flips the state back, the unfollow is no longer in flight, and nothing else changes. The revert reads the values of the render after the click (see Left out). |
| FollowButton.OnCreateSettled | src/components/FollowButton.tsx:37-38 | when the follow mutation finishes, `createLoading` clears and nothing else changes |
| FollowButton.OnDeleteSettled | src/components/FollowButton.tsx:53-54 | when the unfollow mutation finishes, `deleteLoading` clears and nothing else changes |
| FollowButton.ClickThenErrorRestores | src/components/FollowButton.tsx:37-67 | a click whose mutation fails leaves the button as before the click |
| FollowButton.OptimisticFollowMatchesServer | src/components/FollowButton.tsx:98-106 | the optimistic follow and then unfollow each show what the server reports after the mutation |
| FollowButton.InvalidatePostQuery | src/components/FollowButton.tsx:69-82 | a post page refreshes the post and its replies; otherwise a profile page refreshes the author's feed and profile; otherwise the global feed is refreshed; exactly one branch applies |
| FollowButton.InvalidatesOpenedPostPage | src/components/FollowButton.tsx:69-82 | on the page a card click opens, a follow refreshes that post and its replies; on the home feed it refreshes the feed |
| FollowButton.SyncPropAsWritten | src/components/FollowButton.tsx:31-35 | as written: a prop different from the first prop seen overwrites the state, and the value compared against never changes |
| FollowButton.SyncPropAsWrittenGoesStale | src/components/FollowButton.tsx:19-35 | counterexample: mounted `false`, props `true` then `false` leave the button showing "following" |
| FollowButton.SyncProp | src/components/FollowButton.tsx:29-35 | corrected: a prop different from the previous one overwrites the state and becomes the value compared against |
| FollowButton.SyncPropKeepsInSync | src/components/FollowButton.tsx:29-35 | a button that shows its last prop keeps doing so after any prop change |
| FollowButton.SyncAll | src/components/FollowButton.tsx:29-35 | a run of renders with new props changes only the shown state and the remembered prop, and the button remembers the last prop given |
| FollowButton.SyncAllShowsLatestProp | src/components/FollowButton.tsx:29-35 | with the corrected sync, a button with no clicks always shows its latest prop |
| FollowButton.Label | src/components/FollowButton.tsx:109-129 | "Following", or "Unfollow" under the mouse, exactly when following and signed in; "Follow" otherwise |
| FollowButton.OnHover | src/components/FollowButton.tsx:109-117 | the mouse moves only the "Following" button's hover flag: entering shows "Unfollow", leaving shows "Following"; on the "Follow" button nothing changes |
| FollowButton.LabelAnnouncesClick | src/components/FollowButton.tsx:109-129 | signed in and idle, the label reads "Follow" exactly when a click sends a follow, and otherwise a click sends an unfollow; signed out it reads "Follow" and a click asks for sign-in |
| Register.RegistrationIssues | src/pages/register.tsx:11-20 | the form is accepted exactly when both names have 4 to 15 characters; each violated bound has its own message |
| Register.RedirectHome | src/pages/register.tsx:61-73 | the page sends home a visitor known to be signed out, or a user who already has both names, and nobody else |
| Register.NamesMetadata | src/pages/register.tsx:42-46 | the update writes exactly the two keys `displayName` and `username`, so the account then shows clients exactly the names entered |
| Register.Submit | src/pages/register.tsx:34-57 | an invalid form never reaches the handler; with no user or a failed update the spinner stays and nothing navigates; only a successful update writes both names, navigates home and clears the spinner |
| Register.SubmitRegisters | src/pages/register.tsx:41-56 | after a successful submit the account is registered, the server's lookup returns the names entered, and the page would send the user home |
| App.RedirectToRegisterAsWritten | src/pages/_app.tsx:19-28 | as written: redirects off every other page exactly when loaded, signed in and the display name is missing; the username is never checked |
| App.RedirectToRegister | src/pages/_app.tsx:19-28 | corrected: redirects exactly when loaded, signed in, off the registration page, and either name is missing |
| App.AsWrittenGuardMissesUsername | src/pages/_app.tsx:26 | counterexample: an account with a display name but no username is not redirected, yet the server's lookup and the feed containing their post both fail |
| App.RedirectMatchesServerLookup | src/pages/_app.tsx:21-27 | the corrected guard redirects exactly the users the server's lookup rejects |
| App.GuardAndRegisterPageAgree | src/pages/_app.tsx:21-27 | with the corrected guard, exactly one of "go register" and the registration page's "go home" applies to a signed-in user |
| App.GuardsAgreeWithUsername | src/pages/_app.tsx:26 | the two guards agree whenever the username is present |

## Left out

- Rendering: JSX, styling, toasts, tooltips and popovers are left out. Only the state each handler leaves and the single effect it chooses are modelled.
- Navigation, clipboard and cache side effects are left out. The model returns which route is pushed, which link is copied and which queries are invalidated, as values.
- `dateToFormatedString` in `contentViews.tsx` is left out. It depends on the wall clock and on locale and time-zone formatting.
- The authentication middleware (`trpc.ts`) is not part of this model. The signed-in user's id is a parameter of every private procedure.
- The database and the identity service are abstract values, not SQL or network calls.
  - A store failure on `posts.create` has no message in the source. The model uses a placeholder, `store write failed`.
  - The identity service's `update` is modelled as replacing the whole `unsafeMetadata` with the two names.
- Promise.all fan-out: `getAllInfiniteById` runs its author lookups concurrently. It is modelled as a sequential, order-preserving map. Races between duplicate creates are out of scope; only the resulting uniqueness failure is modelled.
- The 110-user cap on `getUserList`: `addUserDataToPosts` fetches authors in one batch capped at 110 users. A page holds at most 100 posts, so the cap never binds, and the batch is modelled as per-post lookups.
- Metadata types: only string metadata values are modelled. A non-string `displayName` or `username`, which the source's casts allow, is not represented.
- Page sizes: a non-integer page size, which the numeric schema accepts, is not represented.
- Ordering: rows with equal `createdAt` are kept in table order. The store's order between ties is not modelled.
- String length: it is the length of the character sequence. UTF-16 code units are not modelled.
- `Pagination.FindMany`: for a cursor row outside the `where` filter (a reply cursor from another post's thread), the store would return this thread's rows from the cursor row's `createdAt` on. The model returns no rows instead. The client never sends such a cursor, because it only passes back the `nextCursor` of the same query.
- Routers that only exist elsewhere are not part of this model: `posts.getById` and `posts.getByAuthorIdInfinite`. They appear here only as names of cached queries.
- Router registration: the app's root router registers only posts, likes and replys. The follows and profiles routers are modelled on their own.
- Duplicated helpers: `addUserDataToPosts` in `posts.ts` is modelled as written. The source's other enrichment helper, `addDataToPost`, is modelled separately, and the two are not reconciled.
- Orphan rows: `Store.Consistent` requires every reply and like to reference an existing post. The database schema is not part of this model; it is assumed to enforce this. Deleting posts is not part of the core.
- ContentViews.OnCreateLikeError: it reverts from the values of the render after the click, as though the query library ran the error callback of the latest render. If the library kept the callback of the render in which `mutate` ran, `setIsLiked(!isLiked)` would read the pre-click flag and re-apply the optimistic one, and a failed like would end at count n-1. The files here do not settle which render's callback runs.
- ContentViews.OnDeleteLikeError: rests on the same assumption about which render's callback runs.
- ContentViews.ClickThenErrorRestores: holds only under that assumption about the error callbacks.
- FollowButton.OnCreateError: rests on the same assumption. With the click render's callback, `setIsFollowing(!isFollowing)` would keep the optimistic state after a failed follow.
- FollowButton.OnDeleteError: rests on the same assumption.
- FollowButton.ClickThenErrorRestores: holds only under that assumption about the error callbacks.
- Prop synchronisation: the follow button's hover state and the card's loading flags are plain booleans. Effect scheduling and batched state updates are not modelled.
- ContentViews.ShareUrl: a profile page url gets `post/<id>` appended, which yields a link to a non-existent page. The source marks this as a known gap. The model states it as written and does not claim the link is valid.

## Findings

| source | as written | input that shows it | evidently intended | confidence | as-written member | corrected member |
|---|---|---|---|---|---|---|
| src/pages/_app.tsx:26 | `!displayName \|\| !displayName`: the username is never tested | a signed-in account with `displayName = "Alice"` and no `username` on `/` | redirect to `/register` when either name is missing | high (not executed) | App.RedirectToRegisterAsWritten, App.AsWrittenGuardMissesUsername | App.RedirectToRegister, App.RedirectMatchesServerLookup, App.GuardAndRegisterPageAgree |
| src/components/contentViews.tsx:165-175 | the signed-out branch returns before `event.stopPropagation()`, so the click also reaches the card's `onClick` | a signed-out like click on the home feed (`/`) | the like button never opens the post's page, as the comment at :174 says | medium (not executed) | ContentViews.HandleLikeButtonClick, ContentViews.SignedOutLikeOpensPost | ContentViews.HandleLikeButtonClickStopped, ContentViews.LikeClickNavigatesOnlySignedOut |
| src/components/FollowButton.tsx:20-35 | the prop is compared with the first prop ever seen, which is never updated | mount with `false`; the prop becomes `true` (the button shows following), then `false` again (the button still shows following) | adopt every prop that differs from the previous one | medium (not executed) | FollowButton.SyncPropAsWritten, FollowButton.SyncPropAsWrittenGoesStale | FollowButton.SyncProp, FollowButton.SyncAllShowsLatestProp |
