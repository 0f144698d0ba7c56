/** The replies router: reply creation, and the paginated reply thread of one post joined with each
    reply's author. */
module ReplysRouter {
  import opened Common
  import opened Pagination
  import opened Store
  import opened Identity

  datatype ReplyWithUser = ReplyWithUser(reply: Reply, author: ClientUser)

  datatype ReplysPage = ReplysPage(replysWithUser: seq<ReplyWithUser>, nextCursor: Option<Id>)

  const EmptyReply := "Reply can not be emtpy"
  const LongReply := "Reply can not exceed 255 characters"
  const CouldNotCreate := "Could not create reply"
  const MissingPostId := "Must provide post ID"

  /** The schema's issues for `create`: a post id, and a body of 1 to 255 characters. */
  function CreateIssues(postId: Id, content: string): (issues: seq<string>)
    ensures |issues| == 0 <==> postId != "" && 1 <= |content| <= 255
    ensures |content| == 0 ==> EmptyReply in issues
    ensures |content| > 255 ==> LongReply in issues
    ensures postId == "" ==> AtLeastChars(1) in issues
  {
    MinIssue(postId, 1, AtLeastChars(1))
    + MinIssue(content, 1, EmptyReply)
    + MaxIssue(content, 255, LongReply)
  }

  /** `create`: store a reply by the signed-in viewer under `postId`. Every store failure — the post
      does not exist, or the assigned id `freshId` clashes — is caught and reported as the same
      bad request; nothing is stored then. */
  function CreateReply(db: Db, viewer: Id, postId: Id, content: string, freshId: Id, now: int): (r: Outcome<Reply>)
    ensures r.result.Err? ==> r.db == db
    ensures |CreateIssues(postId, content)| > 0 ==> r.result == Err(Validation(CreateIssues(postId, content)))
    ensures r.result.Ok? <==> && postId != "" && 1 <= |content| <= 255
                              && HasPost(db.posts, postId) && !HasReply(db.replies, freshId)
    ensures |CreateIssues(postId, content)| == 0 && !HasPost(db.posts, postId) ==> r.result == Err(BadRequest(CouldNotCreate))
    ensures |CreateIssues(postId, content)| == 0 && HasReply(db.replies, freshId) ==> r.result == Err(BadRequest(CouldNotCreate))
    ensures r.result.Ok? ==>
      && r.result.value.userId == viewer
      && r.result.value.postId == postId
      && r.result.value.content == content
      && r.db == db.(replies := [r.result.value] + db.replies)
  {
    var issues := CreateIssues(postId, content);
    if |issues| > 0 then Outcome(db, Err(Validation(issues)))
    else if !HasPost(db.posts, postId) || HasReply(db.replies, freshId) then
      Outcome(db, Err(BadRequest(CouldNotCreate)))
    else
      var reply := Reply(freshId, postId, viewer, content, now);
      Outcome(db.(replies := [reply] + db.replies), Ok(reply))
  }

  /** Creating a reply keeps the store consistent, given a non-empty fresh id and a clock that does
      not run backwards. */
  lemma CreateReplyKeepsConsistent(db: Db, viewer: Id, postId: Id, content: string, freshId: Id, now: int)
    requires Consistent(db) && ClockAfter(db, now) && freshId != ""
    ensures Consistent(CreateReply(db, viewer, postId, content, freshId, now).db)
  {
    var r := CreateReply(db, viewer, postId, content, freshId, now);
    if r.result.Ok? {
      var rs := r.db.replies;
      assert rs[1..] == db.replies;
      forall i | 0 <= i < |db.replies|
        ensures KeyAt(db.replies, ReplyKey, i) != ReplyKey(r.result.value)
      {
        assert db.replies[i] in db.replies;
      }
      PrependKeys(r.result.value, db.replies, ReplyKey);
      forall i, j | 0 <= i < j < |rs|
        ensures rs[i].createdAt >= rs[j].createdAt
      {
        assert rs[j] == db.replies[j - 1];
        if i == 0 {
          assert rs[j] in db.replies;
        }
      }
    }
  }

  /** A successful reply joins the front of its post's thread and leaves every other thread as it
      was, so the post's reply count grows by exactly one. */
  lemma CreateReplyExtendsThread(db: Db, viewer: Id, postId: Id, content: string, freshId: Id, now: int, other: Id)
    requires CreateReply(db, viewer, postId, content, freshId, now).result.Ok?
    ensures var r := CreateReply(db, viewer, postId, content, freshId, now);
            RepliesOn(r.db.replies, other)
              == if other == postId then [r.result.value] + RepliesOn(db.replies, other)
                 else RepliesOn(db.replies, other)
  {
    var r := CreateReply(db, viewer, postId, content, freshId, now);
    assert r.db.replies[1..] == db.replies;
  }

  function ReplyAuthorNotFound(r: Reply): string {
    "Author for post not found. REPLY ID: " + r.id + ", USER ID: " + r.userId
  }

  /** Every reply's author exists in the identity service. */
  predicate AuthorsKnown(dir: Directory, replys: seq<Reply>) {
    forall i :: 0 <= i < |replys| ==> replys[i].userId in dir
  }

  /** The per-reply author join. Unlike the posts feed it checks only that the user exists: the
      projected names may be absent. The source runs the lookups concurrently and awaits them
      together; the result keeps the query order, which this sequential map does by construction. */
  function AddUserToReplys(dir: Directory, replys: seq<Reply>): (r: Result<seq<ReplyWithUser>>)
    ensures r.Ok? <==> AuthorsKnown(dir, replys)
    ensures r.Err? ==> r.error.Internal?
    ensures r.Ok? ==> |r.value| == |replys|
    ensures r.Ok? ==> forall i :: 0 <= i < |replys| ==>
      && r.value[i].reply == replys[i]
      && r.value[i].author == FilterUserForClient(GetUser(dir, replys[i].userId).value)
    decreases |replys|
  {
    if |replys| == 0 then Ok([])
    else
      var reply := replys[0];
      match GetUser(dir, reply.userId)
      case None => Err(Internal(ReplyAuthorNotFound(reply)))
      case Some(user) =>
        var rest :- AddUserToReplys(dir, replys[1..]);
        Ok([ReplyWithUser(reply, FilterUserForClient(user))] + rest)
  }

  /** The schema's issues for `getAllInfiniteById`: a post id and a page size of 1 to 100. */
  function ThreadIssues(postId: Id, limit: int): (issues: seq<string>)
    ensures |issues| == 0 <==> postId != "" && 1 <= limit <= 100
  {
    MinIssue(postId, 1, MissingPostId) + LimitIssues(limit)
  }

  /** The replies of an enriched list, in order. */
  function ReplysOf(items: seq<ReplyWithUser>): (r: seq<Reply>)
    ensures |r| == |items|
    ensures forall i :: 0 <= i < |items| ==> r[i] == items[i].reply
  {
    seq(|items|, i requires 0 <= i < |items| => items[i].reply)
  }

  /** `getAllInfiniteById`: one page of the post's thread (the reply table filtered by `postId`,
      newest first, starting at the cursor row), joined with authors. */
  function GetAllInfiniteById(db: Db, dir: Directory, postId: Id, limit: int, cursor: Option<Id>): (r: Result<ReplysPage>)
    ensures |ThreadIssues(postId, limit)| > 0 ==> r == Err(Validation(ThreadIssues(postId, limit)))
    ensures |ThreadIssues(postId, limit)| == 0 ==>
      var page := Paginate(RepliesOn(db.replies, postId), ReplyKey, limit, cursor);
      && (r.Ok? <==> AuthorsKnown(dir, page.items))
      && (r.Err? ==> r.error.Internal?)
      && (r.Ok? ==> ReplysOf(r.value.replysWithUser) == page.items && r.value.nextCursor == page.nextCursor)
    ensures r.Ok? ==> |r.value.replysWithUser| <= limit
    ensures r.Ok? ==> forall i :: 0 <= i < |r.value.replysWithUser| ==>
      r.value.replysWithUser[i].reply.postId == postId && r.value.replysWithUser[i].reply in db.replies
    ensures r.Ok? ==> forall i :: 0 <= i < |r.value.replysWithUser| ==>
      && r.value.replysWithUser[i].reply.userId in dir
      && r.value.replysWithUser[i].author == FilterUserForClient(GetUser(dir, r.value.replysWithUser[i].reply.userId).value)
  {
    var issues := ThreadIssues(postId, limit);
    if |issues| > 0 then Err(Validation(issues))
    else
      var thread := RepliesOn(db.replies, postId);
      var page := Paginate(thread, ReplyKey, limit, cursor);
      PageRows(thread, ReplyKey, limit, cursor);
      var replysWithUser :- AddUserToReplys(dir, page.items);
      Ok(ReplysPage(replysWithUser, page.nextCursor))
  }

  /** A post without replies yields an empty page with no next cursor. */
  lemma EmptyThreadEmptyPage(db: Db, dir: Directory, postId: Id, limit: int, cursor: Option<Id>)
    requires postId != "" && 1 <= limit <= 100
    requires forall x :: x in db.replies ==> x.postId != postId
    ensures GetAllInfiniteById(db, dir, postId, limit, cursor) == Ok(ReplysPage([], None))
  {
    RepliesOnNone(db.replies, postId);
  }

  /** Every reply of a post's thread has a known author. */
  predicate ThreadAuthorsKnown(db: Db, dir: Directory, postId: Id) {
    AuthorsKnown(dir, RepliesOn(db.replies, postId))
  }

  /** The post page's infinite query over a thread: fetch pages, passing each page's `nextCursor`
      back as the next cursor, until none is returned; the first failing page fails the crawl. */
  function ThreadCrawl(db: Db, dir: Directory, postId: Id, limit: int, cursor: Option<Id>): (r: Result<seq<ReplyWithUser>>)
    requires UniqueKeys(RepliesOn(db.replies, postId), ReplyKey) && PresentKeys(RepliesOn(db.replies, postId), ReplyKey)
    ensures |ThreadIssues(postId, limit)| > 0 ==> r == Err(Validation(ThreadIssues(postId, limit)))
    ensures r.Ok? ==> GetAllInfiniteById(db, dir, postId, limit, cursor).Ok?
    ensures r.Ok? ==> GetAllInfiniteById(db, dir, postId, limit, cursor).value.replysWithUser <= r.value
    decreases Remaining(RepliesOn(db.replies, postId), ReplyKey, cursor)
  {
    var page :- GetAllInfiniteById(db, dir, postId, limit, cursor);
    if page.nextCursor.None? then Ok(page.replysWithUser)
    else
      NextPageStart(RepliesOn(db.replies, postId), ReplyKey, limit, cursor);
      var rest :- ThreadCrawl(db, dir, postId, limit, page.nextCursor);
      Ok(page.replysWithUser + rest)
  }

  lemma ReplysOfAppend(a: seq<ReplyWithUser>, b: seq<ReplyWithUser>)
    ensures ReplysOf(a + b) == ReplysOf(a) + ReplysOf(b)
  {
  }

  /** Every reply of a page of a thread is a reply of the thread, so its author is known too. */
  lemma PageAuthorsKnown(thread: seq<Reply>, dir: Directory, limit: nat, cursor: Option<Id>)
    requires AuthorsKnown(dir, thread)
    ensures AuthorsKnown(dir, Paginate(thread, ReplyKey, limit, cursor).items)
  {
    PageRows(thread, ReplyKey, limit, cursor);
  }

  /** With every author known, the thread crawl succeeds and its replies are the table crawl of
      the thread. */
  lemma {:induction false} ThreadCrawlFollowsPages(db: Db, dir: Directory, postId: Id, limit: int, cursor: Option<Id>)
    requires postId != "" && 1 <= limit <= 100
    requires UniqueKeys(RepliesOn(db.replies, postId), ReplyKey) && PresentKeys(RepliesOn(db.replies, postId), ReplyKey)
    requires ThreadAuthorsKnown(db, dir, postId)
    ensures ThreadCrawl(db, dir, postId, limit, cursor).Ok?
    ensures ReplysOf(ThreadCrawl(db, dir, postId, limit, cursor).value) == Crawl(RepliesOn(db.replies, postId), ReplyKey, limit, cursor)
    decreases Remaining(RepliesOn(db.replies, postId), ReplyKey, cursor)
  {
    var thread := RepliesOn(db.replies, postId);
    PageAuthorsKnown(thread, dir, limit, cursor);
    var page := Paginate(thread, ReplyKey, limit, cursor);
    var r := GetAllInfiniteById(db, dir, postId, limit, cursor);
    assert r.Ok? && ReplysOf(r.value.replysWithUser) == page.items && r.value.nextCursor == page.nextCursor;
    if page.nextCursor.Some? {
      NextPageStart(thread, ReplyKey, limit, cursor);
      var next := page.nextCursor;
      ThreadCrawlFollowsPages(db, dir, postId, limit, next);
      var rest := ThreadCrawl(db, dir, postId, limit, next);
      assert ThreadCrawl(db, dir, postId, limit, cursor) == Ok(r.value.replysWithUser + rest.value);
      assert Crawl(thread, ReplyKey, limit, cursor) == page.items + Crawl(thread, ReplyKey, limit, next);
      ReplysOfAppend(r.value.replysWithUser, rest.value);
    } else {
      assert ThreadCrawl(db, dir, postId, limit, cursor) == Ok(r.value.replysWithUser);
      assert Crawl(thread, ReplyKey, limit, cursor) == page.items;
    }
  }

  /** Scrolling a post's whole thread from the top, through the router, returns each of its replies
      exactly once, newest first, when every reply's author is known. */
  lemma ThreadCrawlEnumeratesReplies(db: Db, dir: Directory, postId: Id, limit: int)
    requires postId != "" && 1 <= limit <= 100 && Consistent(db)
    requires ThreadAuthorsKnown(db, dir, postId)
    ensures UniqueKeys(RepliesOn(db.replies, postId), ReplyKey) && PresentKeys(RepliesOn(db.replies, postId), ReplyKey)
    ensures var r := ThreadCrawl(db, dir, postId, limit, None);
            && r.Ok?
            && ReplysOf(r.value) == RepliesOn(db.replies, postId)
            && RepliesNewestFirst(ReplysOf(r.value))
            && UniqueKeys(ReplysOf(r.value), ReplyKey)
  {
    RepliesOnKeepsKeys(db.replies, postId);
    RepliesOnNewestFirst(db.replies, postId);
    ThreadCrawlFollowsPages(db, dir, postId, limit, None);
    CrawlEnumeratesTable(RepliesOn(db.replies, postId), ReplyKey, limit);
  }

}
