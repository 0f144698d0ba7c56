/** The likes router: the signed-in viewer likes or unlikes a post. Both calls are a single write
    keyed by `(postId, viewer)`; any store failure (unknown post, duplicate like, missing like) is
    caught and reported as the same bad request. */
module LikesRouter {
  import opened Common
  import opened Store
  import opened Identity
  import opened PostData

  const LikeFailed := "Error"

  /** `create`: record that `viewer` likes `postId`. */
  function Create(db: Db, viewer: Id, postId: Id): (r: Outcome<Like>)
    ensures r.result.Err? ==> r.db == db
    ensures postId == "" ==> r.result == Err(Validation([AtLeastChars(1)]))
    ensures postId != "" && (!HasPost(db.posts, postId) || Like(postId, viewer) in db.likes)
            ==> r.result == Err(BadRequest(LikeFailed))
    ensures r.result.Ok? <==> postId != "" && HasPost(db.posts, postId) && Like(postId, viewer) !in db.likes
    ensures r.result.Ok? ==>
      && r.result.value == Like(postId, viewer)
      && r.db == db.(likes := db.likes + {Like(postId, viewer)})
  {
    if postId == "" then Outcome(db, Err(Validation([AtLeastChars(1)])))
    else
      var like := Like(postId, viewer);
      if !HasPost(db.posts, postId) || like in db.likes then Outcome(db, Err(BadRequest(LikeFailed)))
      else Outcome(db.(likes := db.likes + {like}), Ok(like))
  }

  /** `delete`: remove `viewer`'s like of `postId`; the call returns nothing on success. */
  function Delete(db: Db, viewer: Id, postId: Id): (r: Outcome<()>)
    ensures r.result.Err? ==> r.db == db
    ensures postId == "" ==> r.result == Err(Validation([AtLeastChars(1)]))
    ensures postId != "" && Like(postId, viewer) !in db.likes ==> r.result == Err(BadRequest(LikeFailed))
    ensures r.result.Ok? <==> postId != "" && Like(postId, viewer) in db.likes
    ensures r.result.Ok? ==> r.db == db.(likes := db.likes - {Like(postId, viewer)})
  {
    if postId == "" then Outcome(db, Err(Validation([AtLeastChars(1)])))
    else
      var like := Like(postId, viewer);
      if like !in db.likes then Outcome(db, Err(BadRequest(LikeFailed)))
      else Outcome(db.(likes := db.likes - {like}), Ok(()))
  }

  /** Liking and then unliking restores the like set (and the whole store). */
  lemma LikeThenUnlikeRestores(db: Db, viewer: Id, postId: Id)
    requires Create(db, viewer, postId).result.Ok?
    ensures var afterLike := Create(db, viewer, postId).db;
            var afterUnlike := Delete(afterLike, viewer, postId);
            afterUnlike.result.Ok? && afterUnlike.db == db
  {
    var l := Like(postId, viewer);
    assert db.likes + {l} - {l} == db.likes;
  }

  /** Both mutations keep the store consistent. */
  lemma MutationsKeepConsistent(db: Db, viewer: Id, postId: Id)
    requires Consistent(db) && viewer != ""
    ensures Consistent(Create(db, viewer, postId).db)
    ensures Consistent(Delete(db, viewer, postId).db)
  {
  }

  /** What the viewer sees after liking: the post's like count is one higher and the post shows as
      liked by them. */
  lemma LikeRaisesCount(db: Db, dir: Directory, viewer: Id, post: Post)
    requires Create(db, viewer, post.id).result.Ok?
    requires Registered(dir, post.authorId)
    ensures var before := AddDataToPost(db, dir, post, Some(viewer));
            var after := AddDataToPost(Create(db, viewer, post.id).db, dir, post, Some(viewer));
            && before.Ok? && after.Ok?
            && after.value.likeCount == before.value.likeCount + 1
            && after.value.isLikedByUser && !before.value.isLikedByUser
  {
    var l := Like(post.id, viewer);
    assert LikesOn(db.likes + {l}, post.id) == LikesOn(db.likes, post.id) + {l};
  }
}
