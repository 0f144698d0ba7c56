/** The relational store the routers read and write, as immutable values: posts and replies as
    tables in the store's order (`createdAt` descending), likes and follow edges as sets of their
    composite keys. */
module Store {
  import opened Common
  import opened Pagination

  datatype Post = Post(id: Id, authorId: Id, content: string, createdAt: int)

  datatype Reply = Reply(id: Id, postId: Id, userId: Id, content: string, createdAt: int)

  /** A like, keyed by `(postId, userId)`. */
  datatype Like = Like(postId: Id, userId: Id)

  /** A follow edge: `userId` follows `followingId`; keyed by the pair. */
  datatype Follow = Follow(userId: Id, followingId: Id)

  datatype Db = Db(posts: seq<Post>, replies: seq<Reply>, likes: set<Like>, follows: set<Follow>)

  /** What a mutation leaves behind: the store after the call and the call's result. */
  datatype Outcome<+T> = Outcome(db: Db, result: Result<T>)

  function PostKey(p: Post): Id {
    p.id
  }

  function ReplyKey(r: Reply): Id {
    r.id
  }

  predicate HasPost(posts: seq<Post>, id: Id) {
    exists p :: p in posts && p.id == id
  }

  predicate HasReply(replies: seq<Reply>, id: Id) {
    exists r :: r in replies && r.id == id
  }

  /** `reply.findMany({ where: { postId } })` without paging: the replies of one post, in table
      order. */
  function RepliesOn(replies: seq<Reply>, postId: Id): (r: seq<Reply>)
    ensures |r| <= |replies|
    ensures forall x :: x in r <==> x in replies && x.postId == postId
    decreases |replies|
  {
    if |replies| == 0 then []
    else if replies[0].postId == postId then [replies[0]] + RepliesOn(replies[1..], postId)
    else RepliesOn(replies[1..], postId)
  }

  /** A post no reply points at has an empty thread. */
  lemma {:induction false} RepliesOnNone(replies: seq<Reply>, postId: Id)
    requires forall x :: x in replies ==> x.postId != postId
    ensures RepliesOn(replies, postId) == []
    decreases |replies|
  {
    if |replies| > 0 {
      assert forall x :: x in replies[1..] ==> x in replies;
      RepliesOnNone(replies[1..], postId);
    }
  }

  /** Filtering keeps ids unique and present, so the reply thread of a post is itself a table that
      can be paginated. */
  lemma {:induction false} RepliesOnKeepsKeys(replies: seq<Reply>, postId: Id)
    requires UniqueKeys(replies, ReplyKey) && PresentKeys(replies, ReplyKey)
    ensures UniqueKeys(RepliesOn(replies, postId), ReplyKey)
    ensures PresentKeys(RepliesOn(replies, postId), ReplyKey)
    decreases |replies|
  {
    if |replies| > 0 {
      var tail := replies[1..];
      TailKeys(replies, ReplyKey);
      RepliesOnKeepsKeys(tail, postId);
      if replies[0].postId == postId {
        var t := RepliesOn(tail, postId);
        assert RepliesOn(replies, postId) == [replies[0]] + t;
        forall k | 0 <= k < |t|
          ensures KeyAt(t, ReplyKey, k) != ReplyKey(replies[0])
        {
          assert t[k] in tail;
          var m :| 0 <= m < |tail| && tail[m] == t[k];
          assert KeyAt(replies, ReplyKey, 0) != KeyAt(replies, ReplyKey, m + 1);
        }
        assert KeyAt(replies, ReplyKey, 0) != "";
        PrependKeys(replies[0], t, ReplyKey);
      }
    }
  }

  /** Filtering keeps the table's order, so the thread of a post is newest first like the table. */
  lemma {:induction false} RepliesOnNewestFirst(replies: seq<Reply>, postId: Id)
    requires RepliesNewestFirst(replies)
    ensures RepliesNewestFirst(RepliesOn(replies, postId))
    decreases |replies|
  {
    if |replies| > 0 {
      var tail := replies[1..];
      TailNewestFirst(replies);
      RepliesOnNewestFirst(tail, postId);
      if replies[0].postId == postId {
        var t := RepliesOn(tail, postId);
        HeadNewest(replies);
        ConsNewestFirst(replies[0], t);
      }
    }
  }

  lemma TailNewestFirst(replies: seq<Reply>)
    requires |replies| > 0 && RepliesNewestFirst(replies)
    ensures RepliesNewestFirst(replies[1..])
  {
    var tail := replies[1..];
    forall i, j | 0 <= i < j < |tail|
      ensures tail[i].createdAt >= tail[j].createdAt
    {
      assert tail[i] == replies[i + 1] && tail[j] == replies[j + 1];
    }
  }

  /** In a newest-first table the head is at least as new as every later reply. */
  lemma HeadNewest(replies: seq<Reply>)
    requires |replies| > 0 && RepliesNewestFirst(replies)
    ensures forall x :: x in replies[1..] ==> replies[0].createdAt >= x.createdAt
  {
    forall x | x in replies[1..]
      ensures replies[0].createdAt >= x.createdAt
    {
      var m :| 0 <= m < |replies[1..]| && replies[1..][m] == x;
      assert replies[m + 1] == x;
    }
  }

  /** A reply at least as new as every reply of a newest-first list can head it. */
  lemma ConsNewestFirst(head: Reply, t: seq<Reply>)
    requires RepliesNewestFirst(t)
    requires forall x :: x in t ==> head.createdAt >= x.createdAt
    ensures RepliesNewestFirst([head] + t)
  {
    var r := [head] + t;
    forall i, j | 0 <= i < j < |r|
      ensures r[i].createdAt >= r[j].createdAt
    {
      assert r[j] == t[j - 1] && t[j - 1] in t;
      if i > 0 {
        assert r[i] == t[i - 1];
      }
    }
  }

  /** The likes on one post. */
  function LikesOn(likes: set<Like>, postId: Id): set<Like> {
    set l | l in likes && l.postId == postId
  }

  /** The edges into `u`: who follows `u`. */
  function FollowersOf(follows: set<Follow>, u: Id): set<Follow> {
    set f | f in follows && f.followingId == u
  }

  /** The edges out of `u`: whom `u` follows. */
  function FollowingOf(follows: set<Follow>, u: Id): set<Follow> {
    set f | f in follows && f.userId == u
  }

  predicate NewestFirst(posts: seq<Post>) {
    forall i, j :: 0 <= i < j < |posts| ==> posts[i].createdAt >= posts[j].createdAt
  }

  predicate RepliesNewestFirst(replies: seq<Reply>) {
    forall i, j :: 0 <= i < j < |replies| ==> replies[i].createdAt >= replies[j].createdAt
  }

  /** The store's integrity: ids are unique and present, tables are newest first, every reply and
      like references an existing post, likes and edges name a user, and nobody follows
      themselves. */
  predicate Consistent(db: Db) {
    && UniqueKeys(db.posts, PostKey) && PresentKeys(db.posts, PostKey) && NewestFirst(db.posts)
    && UniqueKeys(db.replies, ReplyKey) && PresentKeys(db.replies, ReplyKey)
    && RepliesNewestFirst(db.replies)
    && (forall r :: r in db.replies ==> HasPost(db.posts, r.postId))
    && (forall l :: l in db.likes ==> HasPost(db.posts, l.postId) && l.userId != "")
    && (forall f :: f in db.follows ==> f.userId != "" && f.followingId != "" && f.userId != f.followingId)
  }

  /** The store's clock: `now` is no earlier than any row already stored. */
  predicate ClockAfter(db: Db, now: int) {
    && (forall p :: p in db.posts ==> p.createdAt <= now)
    && (forall r :: r in db.replies ==> r.createdAt <= now)
  }
}
