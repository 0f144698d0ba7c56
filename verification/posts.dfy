/** The posts router: the paginated global feed joined with author profiles
    (`getAllInfinite` with its own `addUserDataToPosts`), and post creation. */
module PostsRouter {
  import opened Common
  import opened Pagination
  import opened Store
  import opened Identity

  datatype PostWithAuthor = PostWithAuthor(post: Post, author: ClientUser)

  datatype PostsPage = PostsPage(postsWithUser: seq<PostWithAuthor>, nextCursor: Option<Id>)

  function AuthorNotFound(p: Post): string {
    "Author for post not found. POST ID: " + p.id + ", USER ID: " + p.authorId
  }

  /** Every post's author is a registered account. */
  predicate AuthorsRegistered(dir: Directory, posts: seq<Post>) {
    forall i :: 0 <= i < |posts| ==> Registered(dir, posts[i].authorId)
  }

  /** `author` is the public profile of account `id`: the client projection of its record, with
      both names set. */
  predicate IsProfileOf(dir: Directory, id: Id, author: ClientUser) {
    && id in dir
    && author == FilterUserForClient(GetUser(dir, id).value)
    && author.id == id
    && HasNames(author)
  }

  /** The posts of an enriched list, in order. */
  function PostsOf(items: seq<PostWithAuthor>): (r: seq<Post>)
    ensures |r| == |items|
    ensures forall i :: 0 <= i < |items| ==> r[i] == items[i].post
  {
    seq(|items|, i requires 0 <= i < |items| => items[i].post)
  }

  /** Post `i` is the first whose author check fails, and `e` is the error it raises. */
  predicate FirstFailure(dir: Directory, posts: seq<Post>, i: int, e: ApiError)
    requires 0 <= i < |posts|
  {
    && !Registered(dir, posts[i].authorId)
    && (forall j :: 0 <= j < i ==> Registered(dir, posts[j].authorId))
    && e == Internal(if posts[i].authorId in dir then MissingNames(posts[i].authorId) else AuthorNotFound(posts[i]))
  }

  /** `addUserDataToPosts`: pair every post with its author's public profile, in the same order.
      The author list comes from one batched lookup of the page's author ids; a page holds at most
      100 posts, below the batch's 110-user cap, so every author of the page is in the batch and the
      lookup is modelled per post. The first post whose author is unknown or lacks a name aborts the
      whole page with an internal error. */
  function AddUserDataToPosts(dir: Directory, posts: seq<Post>): (r: Result<seq<PostWithAuthor>>)
    ensures r.Ok? <==> AuthorsRegistered(dir, posts)
    ensures r.Ok? ==> |r.value| == |posts|
    ensures r.Ok? ==> forall i :: 0 <= i < |posts| ==>
      && r.value[i].post == posts[i]
      && IsProfileOf(dir, posts[i].authorId, r.value[i].author)
    ensures r.Err? ==> (exists i :: 0 <= i < |posts| && FirstFailure(dir, posts, i, r.error))
    decreases |posts|
  {
    if |posts| == 0 then Ok([])
    else
      match PostAuthor(dir, posts[0])
      case Err(e) =>
        assert FirstFailure(dir, posts, 0, e);
        Err(e)
      case Ok(author) =>
        AuthorsRegisteredCons(dir, posts);
        match AddUserDataToPosts(dir, posts[1..])
        case Err(e) =>
          FirstFailureShifts(dir, posts, e);
          Err(e)
        case Ok(rest) =>
          PrependAuthor(dir, posts, author, rest);
          Ok([PostWithAuthor(posts[0], author)] + rest)
  }

  /** The author check for one post: the author's public profile when the account exists and has
      both names; otherwise "author not found" for an unknown account and the lookup's
      missing-names error for an unregistered one. */
  function PostAuthor(dir: Directory, post: Post): (r: Result<ClientUser>)
    ensures r.Ok? <==> Registered(dir, post.authorId)
    ensures r.Ok? ==> r.value.id == post.authorId && HasNames(r.value)
    ensures r.Ok? ==> r.value == FilterUserForClient(GetUser(dir, post.authorId).value)
    ensures r.Err? ==>
      r.error == Internal(if post.authorId in dir then MissingNames(post.authorId) else AuthorNotFound(post))
  {
    match GetUser(dir, post.authorId)
    case None => Err(Internal(AuthorNotFound(post)))
    case Some(user) =>
      var author := FilterUserForClient(user);
      if !Truthy(author.username) || !Truthy(author.displayName) then Err(Internal(MissingNames(author.id)))
      else Ok(author)
  }

  /** A list's authors are registered exactly when its head's and its tail's are. */
  lemma AuthorsRegisteredCons(dir: Directory, posts: seq<Post>)
    requires |posts| > 0
    ensures AuthorsRegistered(dir, posts) <==> Registered(dir, posts[0].authorId) && AuthorsRegistered(dir, posts[1..])
  {
    assert forall i :: 0 <= i < |posts| - 1 ==> posts[1..][i] == posts[i + 1];
  }

  /** Pairing the head with its author in front of a paired tail pairs the whole list. */
  lemma PrependAuthor(dir: Directory, posts: seq<Post>, author: ClientUser, rest: seq<PostWithAuthor>)
    requires |posts| > 0 && IsProfileOf(dir, posts[0].authorId, author)
    requires |rest| == |posts| - 1
    requires forall i :: 0 <= i < |rest| ==>
      && rest[i].post == posts[1..][i]
      && IsProfileOf(dir, posts[1..][i].authorId, rest[i].author)
    ensures var r := [PostWithAuthor(posts[0], author)] + rest;
            forall i :: 0 <= i < |posts| ==>
              && r[i].post == posts[i]
              && IsProfileOf(dir, posts[i].authorId, r[i].author)
  {
    var r := [PostWithAuthor(posts[0], author)] + rest;
    forall i | 0 < i < |posts|
      ensures r[i] == rest[i - 1] && posts[1..][i - 1] == posts[i]
    {
    }
  }

  /** A first failure in the tail, behind a head that passes, is the first failure of the list. */
  lemma FirstFailureShifts(dir: Directory, posts: seq<Post>, e: ApiError)
    requires |posts| > 0 && Registered(dir, posts[0].authorId)
    requires exists i :: 0 <= i < |posts| - 1 && FirstFailure(dir, posts[1..], i, e)
    ensures exists i :: 0 <= i < |posts| && FirstFailure(dir, posts, i, e)
  {
    var i :| 0 <= i < |posts| - 1 && FirstFailure(dir, posts[1..], i, e);
    assert posts[1..][i] == posts[i + 1];
    assert FirstFailure(dir, posts, i + 1, e);
  }

  /** `getAllInfinite`: validate the page size, take one page of the whole table, join authors. */
  function GetAllInfinite(db: Db, dir: Directory, limit: int, cursor: Option<Id>): (r: Result<PostsPage>)
    ensures !(1 <= limit <= 100) ==> r == Err(Validation(LimitIssues(limit)))
    ensures 1 <= limit <= 100 ==>
      var page := Paginate(db.posts, PostKey, limit, cursor);
      && (r.Ok? <==> AuthorsRegistered(dir, page.items))
      && (r.Err? ==> r.error.Internal?)
      && (r.Err? ==> exists i :: 0 <= i < |page.items| && FirstFailure(dir, page.items, i, r.error))
      && (r.Ok? ==> PostsOf(r.value.postsWithUser) == page.items && r.value.nextCursor == page.nextCursor)
    ensures r.Ok? ==> |r.value.postsWithUser| <= limit
    ensures r.Ok? ==> forall i :: 0 <= i < |r.value.postsWithUser| ==>
      IsProfileOf(dir, r.value.postsWithUser[i].post.authorId, r.value.postsWithUser[i].author)
  {
    var issues := LimitIssues(limit);
    if |issues| > 0 then Err(Validation(issues))
    else
      var page := Paginate(db.posts, PostKey, limit, cursor);
      var postsWithUser :- AddUserDataToPosts(dir, page.items);
      Ok(PostsPage(postsWithUser, page.nextCursor))
  }

  /** Remaining rows ahead of a feed crawl (its termination measure). */
  function FeedRemaining(db: Db, cursor: Option<Id>): nat {
    Remaining(db.posts, PostKey, cursor)
  }

  /** The home page's infinite query over the feed: fetch pages, passing each page's `nextCursor`
      back as the next cursor, until none is returned; the first failing page fails the crawl. */
  function FeedCrawl(db: Db, dir: Directory, limit: int, cursor: Option<Id>): (r: Result<seq<PostWithAuthor>>)
    requires UniqueKeys(db.posts, PostKey) && PresentKeys(db.posts, PostKey)
    ensures !(1 <= limit <= 100) ==> r == Err(Validation(LimitIssues(limit)))
    ensures r.Ok? ==> GetAllInfinite(db, dir, limit, cursor).Ok?
    ensures r.Ok? ==> GetAllInfinite(db, dir, limit, cursor).value.postsWithUser <= r.value
    decreases FeedRemaining(db, cursor)
  {
    var page :- GetAllInfinite(db, dir, limit, cursor);
    if page.nextCursor.None? then Ok(page.postsWithUser)
    else
      NextPageStart(db.posts, PostKey, limit, cursor);
      var rest :- FeedCrawl(db, dir, limit, page.nextCursor);
      Ok(page.postsWithUser + rest)
  }

  lemma PostsOfAppend(a: seq<PostWithAuthor>, b: seq<PostWithAuthor>)
    ensures PostsOf(a + b) == PostsOf(a) + PostsOf(b)
  {
  }

  /** Every post of a page of the table is a post of the table. */
  lemma PageAuthorsRegistered(db: Db, dir: Directory, limit: nat, cursor: Option<Id>)
    requires AuthorsRegistered(dir, db.posts)
    ensures AuthorsRegistered(dir, Paginate(db.posts, PostKey, limit, cursor).items)
  {
    var page := Paginate(db.posts, PostKey, limit, cursor);
    PageRows(db.posts, PostKey, limit, cursor);
    forall k | 0 <= k < |page.items|
      ensures Registered(dir, page.items[k].authorId)
    {
      assert page.items[k] in db.posts;
    }
  }

  lemma {:induction false} FeedCrawlFollowsPages(db: Db, dir: Directory, limit: int, cursor: Option<Id>)
    requires 1 <= limit <= 100
    requires UniqueKeys(db.posts, PostKey) && PresentKeys(db.posts, PostKey)
    requires AuthorsRegistered(dir, db.posts)
    ensures FeedCrawl(db, dir, limit, cursor).Ok?
    ensures PostsOf(FeedCrawl(db, dir, limit, cursor).value) == Crawl(db.posts, PostKey, limit, cursor)
    decreases FeedRemaining(db, cursor)
  {
    PageAuthorsRegistered(db, dir, limit, cursor);
    var page := Paginate(db.posts, PostKey, limit, cursor);
    var r := GetAllInfinite(db, dir, limit, cursor);
    assert r.Ok? && PostsOf(r.value.postsWithUser) == page.items && r.value.nextCursor == page.nextCursor;
    if page.nextCursor.Some? {
      NextPageStart(db.posts, PostKey, limit, cursor);
      var next := page.nextCursor;
      FeedCrawlFollowsPages(db, dir, limit, next);
      var rest := FeedCrawl(db, dir, limit, next);
      assert FeedCrawl(db, dir, limit, cursor) == Ok(r.value.postsWithUser + rest.value);
      assert Crawl(db.posts, PostKey, limit, cursor) == page.items + Crawl(db.posts, PostKey, limit, next);
      PostsOfAppend(r.value.postsWithUser, rest.value);
    } else {
      assert FeedCrawl(db, dir, limit, cursor) == Ok(r.value.postsWithUser);
      assert Crawl(db.posts, PostKey, limit, cursor) == page.items;
    }
  }

  /** Headline property at the feed's level: when every author is registered, scrolling the whole
      feed from the top yields every post of the table exactly once, newest first, each with its own
      author. */
  lemma FeedCrawlEnumeratesPosts(db: Db, dir: Directory, limit: int)
    requires 1 <= limit <= 100
    requires Consistent(db)
    requires AuthorsRegistered(dir, db.posts)
    ensures var r := FeedCrawl(db, dir, limit, None);
            && r.Ok?
            && PostsOf(r.value) == db.posts
            && forall i :: 0 <= i < |r.value| ==> IsProfileOf(dir, db.posts[i].authorId, r.value[i].author)
  {
    FeedCrawlFollowsPages(db, dir, limit, None);
    CrawlEnumeratesTable(db.posts, PostKey, limit);
    FeedCrawlAuthors(db, dir, limit, None);
  }

  lemma {:induction false} FeedCrawlAuthors(db: Db, dir: Directory, limit: int, cursor: Option<Id>)
    requires UniqueKeys(db.posts, PostKey) && PresentKeys(db.posts, PostKey)
    requires FeedCrawl(db, dir, limit, cursor).Ok?
    ensures var items := FeedCrawl(db, dir, limit, cursor).value;
            forall i :: 0 <= i < |items| ==> IsProfileOf(dir, items[i].post.authorId, items[i].author)
    decreases FeedRemaining(db, cursor)
  {
    var page := GetAllInfinite(db, dir, limit, cursor).value;
    if page.nextCursor.Some? {
      NextPageStart(db.posts, PostKey, limit, cursor);
      FeedCrawlAuthors(db, dir, limit, page.nextCursor);
    }
  }

  const StoreWriteFailed := "store write failed"

  /** The schema's issues for a post body: 1 to 256 characters. */
  function PostContentIssues(content: string): (issues: seq<string>)
    ensures |issues| == 0 <==> 1 <= |content| <= 256
  {
    MinIssue(content, 1, AtLeastChars(1)) + MaxIssue(content, 256, AtMostChars(256))
  }

  /** `create`: store a post by the signed-in viewer. `freshId` and `now` are the id and timestamp
      the store assigns; a clash of ids is a store failure the router does not catch, which the RPC
      layer reports as an internal error. */
  function CreatePost(db: Db, viewer: Id, content: string, freshId: Id, now: int): (r: Outcome<Post>)
    ensures r.result.Err? ==> r.db == db
    ensures !(1 <= |content| <= 256) ==> r.result == Err(Validation(PostContentIssues(content)))
    ensures r.result.Ok? <==> 1 <= |content| <= 256 && !HasPost(db.posts, freshId)
    ensures 1 <= |content| <= 256 && HasPost(db.posts, freshId) ==> r.result == Err(Internal(StoreWriteFailed))
    ensures r.result.Ok? ==>
      && r.result.value.authorId == viewer
      && r.result.value.content == content
      && r.result.value.id == freshId
      && r.db == db.(posts := [r.result.value] + db.posts)
  {
    var issues := PostContentIssues(content);
    if |issues| > 0 then Outcome(db, Err(Validation(issues)))
    else if HasPost(db.posts, freshId) then Outcome(db, Err(Internal(StoreWriteFailed)))
    else
      var post := Post(freshId, viewer, content, now);
      Outcome(db.(posts := [post] + db.posts), Ok(post))
  }

  /** Creating a post keeps the store consistent, given a non-empty fresh id and a clock that does
      not run backwards. */
  lemma CreatePostKeepsConsistent(db: Db, viewer: Id, content: string, freshId: Id, now: int)
    requires Consistent(db) && ClockAfter(db, now) && freshId != ""
    ensures Consistent(CreatePost(db, viewer, content, freshId, now).db)
  {
    var r := CreatePost(db, viewer, content, freshId, now);
    if r.result.Ok? {
      var ps := r.db.posts;
      assert ps[1..] == db.posts;
      forall i | 0 <= i < |db.posts|
        ensures KeyAt(db.posts, PostKey, i) != PostKey(r.result.value)
      {
        assert db.posts[i] in db.posts;
      }
      PrependKeys(r.result.value, db.posts, PostKey);
      forall i, j | 0 <= i < j < |ps|
        ensures ps[i].createdAt >= ps[j].createdAt
      {
        assert ps[j] == db.posts[j - 1];
        if i == 0 {
          assert ps[j] in db.posts;
        }
      }
      forall p | p in db.posts
        ensures p in ps
      {
      }
    }
  }

  /** The feed scenario: after a registered user creates a post, the first page of the feed (any
      valid size) starts with that post, authored by that user — provided the other authors on the
      page are registered too. */
  lemma NewPostLeadsFeed(db: Db, dir: Directory, viewer: Id, content: string, freshId: Id, now: int, limit: int)
    requires 1 <= limit <= 100
    requires CreatePost(db, viewer, content, freshId, now).result.Ok?
    requires Registered(dir, viewer) && AuthorsRegistered(dir, db.posts)
    ensures var feed := GetAllInfinite(CreatePost(db, viewer, content, freshId, now).db, dir, limit, None);
            && feed.Ok?
            && |feed.value.postsWithUser| > 0
            && feed.value.postsWithUser[0].post.content == content
            && feed.value.postsWithUser[0].author.id == viewer
  {
    var after := CreatePost(db, viewer, content, freshId, now).db;
    assert after.posts[1..] == db.posts;
    AuthorsRegisteredCons(dir, after.posts);
    PageAuthorsRegistered(after, dir, limit, None);
    var page := Paginate(after.posts, PostKey, limit, None);
    assert page.items == after.posts[..Min(limit, |after.posts|)];
  }
}
