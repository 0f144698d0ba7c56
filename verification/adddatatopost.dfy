/** `addDataToPost`: hydrate one post for display — its author's checked profile with follow data,
    its like count, whether the viewer liked it, and its reply count. */
module PostData {
  import opened Common
  import opened Store
  import opened Identity
  import opened FollowData

  datatype PostWithData = PostWithData(post: Post, author: ProfileWithFollows, likeCount: nat, isLikedByUser: bool, replyCount: nat)

  function AddDataToPost(db: Db, dir: Directory, post: Post, viewer: Option<Id>): (r: Result<PostWithData>)
    ensures r.Ok? <==> Registered(dir, post.authorId)
    ensures r.Err? ==> r.error == FindUserFromClerk(dir, post.authorId).error
    ensures r.Ok? ==> r.value.post == post
    ensures r.Ok? ==> r.value.author.user.id == post.authorId
    ensures r.Ok? ==> r.value.author == AttachFollowData(FindUserFromClerk(dir, post.authorId).value, db.follows, viewer)
    ensures r.Ok? ==> r.value.likeCount == |LikesOn(db.likes, post.id)|
    ensures r.Ok? ==> (r.value.isLikedByUser <==> Like(post.id, viewer.GetOr("")) in db.likes)
    ensures r.Ok? ==> r.value.replyCount == |RepliesOn(db.replies, post.id)|
  {
    var author :- FindUserFromClerk(dir, post.authorId);
    var authorWithFollowingData := AttachFollowData(author, db.follows, viewer);
    var likeCount := |set l | l in db.likes && l.postId == post.id|;
    var isLikedByUser := exists l :: l in db.likes && l.postId == post.id && l.userId == viewer.GetOr("");
    var replyCount := |RepliesOn(db.replies, post.id)|;
    Ok(PostWithData(post, authorWithFollowingData, likeCount, isLikedByUser, replyCount))
  }

  /** A post nothing references yet — one whose id is not in a consistent store — has no likes, no
      replies, and is not liked by anyone, signed in or not. */
  lemma {:induction false} UnreferencedPostHasNoEngagement(db: Db, dir: Directory, post: Post, viewer: Option<Id>)
    requires Consistent(db) && !HasPost(db.posts, post.id)
    requires Registered(dir, post.authorId)
    ensures var r := AddDataToPost(db, dir, post, viewer);
            r.Ok? && r.value.likeCount == 0 && !r.value.isLikedByUser && r.value.replyCount == 0
  {
    assert LikesOn(db.likes, post.id) == {};
    RepliesOnNone(db.replies, post.id);
  }
}
