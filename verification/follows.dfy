/** The follows router: listing a user's incoming and outgoing edges, and creating and deleting the
    viewer's edge to another user. Self-follows are refused before the store is touched; a duplicate
    create or a delete of a missing edge is the store's uniqueness / not-found failure, caught and
    reported as a bad request. */
module FollowsRouter {
  import opened Common
  import opened Store
  import Identity
  import FollowData

  const SelfFollow := "User can not follow themselves"
  const FailedToFollow := "Failed to follow"
  const FailedToUnfollow := "Failed to unfollow"

  /** `getFollowers`: the edges into `userId`. */
  function GetFollowers(db: Db, userId: Id): (r: Result<set<Follow>>)
    ensures userId == "" ==> r == Err(Validation([AtLeastChars(1)]))
    ensures userId != "" ==> r.Ok? && forall f :: f in r.value <==> f in db.follows && f.followingId == userId
  {
    if userId == "" then Err(Validation([AtLeastChars(1)]))
    else Ok(set f | f in db.follows && f.followingId == userId)
  }

  /** `getFollowing`: the edges out of `userId`. */
  function GetFollowing(db: Db, userId: Id): (r: Result<set<Follow>>)
    ensures userId == "" ==> r == Err(Validation([AtLeastChars(1)]))
    ensures userId != "" ==> r.Ok? && forall f :: f in r.value <==> f in db.follows && f.userId == userId
  {
    if userId == "" then Err(Validation([AtLeastChars(1)]))
    else Ok(set f | f in db.follows && f.userId == userId)
  }

  /** `create`: the signed-in `viewer` follows `followingId`. */
  function Create(db: Db, viewer: Id, followingId: Id): (r: Outcome<Follow>)
    ensures r.result.Err? ==> r.db == db
    ensures followingId == "" ==> r.result == Err(Validation([AtLeastChars(1)]))
    ensures followingId != "" && followingId == viewer ==> r.result == Err(Forbidden(SelfFollow))
    ensures followingId != "" && followingId != viewer && Follow(viewer, followingId) in db.follows
            ==> r.result == Err(BadRequest(FailedToFollow))
    ensures r.result.Ok? <==> followingId != "" && followingId != viewer && Follow(viewer, followingId) !in db.follows
    ensures r.result.Ok? ==>
      && r.result.value == Follow(viewer, followingId)
      && r.db == db.(follows := db.follows + {Follow(viewer, followingId)})
  {
    if followingId == "" then Outcome(db, Err(Validation([AtLeastChars(1)])))
    else if followingId == viewer then Outcome(db, Err(Forbidden(SelfFollow)))
    else
      var edge := Follow(viewer, followingId);
      if edge in db.follows then Outcome(db, Err(BadRequest(FailedToFollow)))
      else Outcome(db.(follows := db.follows + {edge}), Ok(edge))
  }

  /** `delete`: the signed-in `viewer` stops following `followingId`; the edge is found by its
      composite key. */
  function Delete(db: Db, viewer: Id, followingId: Id): (r: Outcome<Follow>)
    ensures r.result.Err? ==> r.db == db
    ensures followingId == "" ==> r.result == Err(Validation([AtLeastChars(1)]))
    ensures followingId != "" && followingId == viewer ==> r.result == Err(Forbidden(SelfFollow))
    ensures followingId != "" && followingId != viewer && Follow(viewer, followingId) !in db.follows
            ==> r.result == Err(BadRequest(FailedToUnfollow))
    ensures r.result.Ok? <==> followingId != "" && followingId != viewer && Follow(viewer, followingId) in db.follows
    ensures r.result.Ok? ==>
      && r.result.value == Follow(viewer, followingId)
      && r.db == db.(follows := db.follows - {Follow(viewer, followingId)})
  {
    if followingId == "" then Outcome(db, Err(Validation([AtLeastChars(1)])))
    else if followingId == viewer then Outcome(db, Err(Forbidden(SelfFollow)))
    else
      var edge := Follow(viewer, followingId);
      if edge !in db.follows then Outcome(db, Err(BadRequest(FailedToUnfollow)))
      else Outcome(db.(follows := db.follows - {edge}), Ok(edge))
  }

  /** Following and then unfollowing the same user restores the store exactly. */
  lemma FollowThenUnfollowRestores(db: Db, viewer: Id, followingId: Id)
    requires Create(db, viewer, followingId).result.Ok?
    ensures var afterFollow := Create(db, viewer, followingId).db;
            var afterUnfollow := Delete(afterFollow, viewer, followingId);
            afterUnfollow.result.Ok? && afterUnfollow.db == db
  {
    var e := Follow(viewer, followingId);
    assert db.follows + {e} - {e} == db.follows;
  }

  /** Unfollowing and then following again restores the store exactly. */
  lemma UnfollowThenFollowRestores(db: Db, viewer: Id, followingId: Id)
    requires Delete(db, viewer, followingId).result.Ok?
    ensures var afterUnfollow := Delete(db, viewer, followingId).db;
            var afterFollow := Create(afterUnfollow, viewer, followingId);
            afterFollow.result.Ok? && afterFollow.db == db
  {
    var e := Follow(viewer, followingId);
    assert db.follows - {e} + {e} == db.follows;
  }

  /** Both mutations keep the store consistent: in particular no self-edge is ever created. */
  lemma MutationsKeepConsistent(db: Db, viewer: Id, followingId: Id)
    requires Consistent(db) && viewer != ""
    ensures Consistent(Create(db, viewer, followingId).db)
    ensures Consistent(Delete(db, viewer, followingId).db)
  {
  }

  /** The lists agree with the profile: a user's follower and following lists are exactly as long
      as the counts `attachFollowData` reports for them. */
  lemma ListsMatchProfileCounts(db: Db, u: Identity.ClientUser, viewer: Option<Id>)
    requires u.id != ""
    ensures |GetFollowers(db, u.id).value| == FollowData.AttachFollowData(u, db.follows, viewer).followers
    ensures |GetFollowing(db, u.id).value| == FollowData.AttachFollowData(u, db.follows, viewer).following
  {
    assert GetFollowers(db, u.id).value == FollowersOf(db.follows, u.id);
    assert GetFollowing(db, u.id).value == FollowingOf(db.follows, u.id);
  }

  /** A follow adds its edge to the target's follower list and to the viewer's following list, and
      changes neither list otherwise. */
  lemma CreateListsEdge(db: Db, viewer: Id, followingId: Id)
    requires Create(db, viewer, followingId).result.Ok?
    ensures var after := Create(db, viewer, followingId).db;
            var e := Follow(viewer, followingId);
            && GetFollowers(after, followingId).value == GetFollowers(db, followingId).value + {e}
            && (viewer != "" ==> GetFollowing(after, viewer).value == GetFollowing(db, viewer).value + {e})
  {
  }

  /** An unfollow takes its edge out of both lists, and changes neither list otherwise. */
  lemma DeleteUnlistsEdge(db: Db, viewer: Id, followingId: Id)
    requires Delete(db, viewer, followingId).result.Ok?
    ensures var after := Delete(db, viewer, followingId).db;
            var e := Follow(viewer, followingId);
            && GetFollowers(after, followingId).value == GetFollowers(db, followingId).value - {e}
            && (viewer != "" ==> GetFollowing(after, viewer).value == GetFollowing(db, viewer).value - {e})
  {
  }
}
