/** The profiles router: a user's public profile with follow data, as seen by the viewer. */
module ProfilesRouter {
  import opened Common
  import opened Store
  import opened Identity
  import opened FollowData
  import FollowsRouter

  /** `getProfileById`: checked lookup, then follow data; a failed lookup fails the call before any
      follow data is computed. `viewer` is absent for an anonymous request. */
  function GetProfileById(db: Db, dir: Directory, userId: Id, viewer: Option<Id>): (r: Result<ProfileWithFollows>)
    ensures userId == "" ==> r == Err(Validation([AtLeastChars(1)]))
    ensures userId != "" ==> (r.Ok? <==> Registered(dir, userId))
    ensures userId != "" && r.Err? ==> r.error == FindUserFromClerk(dir, userId).error
    ensures r.Ok? ==> r.value == AttachFollowData(FindUserFromClerk(dir, userId).value, db.follows, viewer)
    ensures r.Ok? ==> r.value.user.id == userId && HasNames(r.value.user)
  {
    if userId == "" then Err(Validation([AtLeastChars(1)]))
    else
      var userWithNoFollowData :- FindUserFromClerk(dir, userId);
      Ok(AttachFollowData(userWithNoFollowData, db.follows, viewer))
  }

  /** Following a user raises their profile's follower count by one, raises the follower's
      following count by one, and shows the target as followed to the follower. */
  lemma FollowUpdatesProfiles(db: Db, dir: Directory, viewer: Id, target: Id)
    requires FollowsRouter.Create(db, viewer, target).result.Ok?
    requires viewer != "" && Registered(dir, target) && Registered(dir, viewer)
    ensures var after := FollowsRouter.Create(db, viewer, target).db;
            var t0 := GetProfileById(db, dir, target, Some(viewer));
            var t1 := GetProfileById(after, dir, target, Some(viewer));
            var v0 := GetProfileById(db, dir, viewer, None);
            var v1 := GetProfileById(after, dir, viewer, None);
            && t0.Ok? && t1.Ok? && v0.Ok? && v1.Ok?
            && t1.value.followers == t0.value.followers + 1
            && t1.value.following == t0.value.following
            && !t0.value.isFollowing && t1.value.isFollowing
            && v1.value.following == v0.value.following + 1
            && v1.value.followers == v0.value.followers
  {
    var e := Follow(viewer, target);
    var after := FollowsRouter.Create(db, viewer, target).db;
    assert after.follows == db.follows + {e};
    var t := FindUserFromClerk(dir, target).value;
    var v := FindUserFromClerk(dir, viewer).value;
    CountsAfterNewEdge(db.follows, e, t, Some(viewer));
    CountsAfterNewEdge(db.follows, e, v, None);
    assert GetProfileById(db, dir, target, Some(viewer)) == Ok(AttachFollowData(t, db.follows, Some(viewer)));
    assert GetProfileById(after, dir, target, Some(viewer)) == Ok(AttachFollowData(t, after.follows, Some(viewer)));
    assert GetProfileById(db, dir, viewer, None) == Ok(AttachFollowData(v, db.follows, None));
    assert GetProfileById(after, dir, viewer, None) == Ok(AttachFollowData(v, after.follows, None));
  }

  /** Following and then unfollowing leaves every profile, as seen by any viewer, as it was. */
  lemma FollowRoundTripRestoresProfiles(db: Db, dir: Directory, viewer: Id, target: Id, userId: Id, anyViewer: Option<Id>)
    requires FollowsRouter.Create(db, viewer, target).result.Ok?
    ensures var afterFollow := FollowsRouter.Create(db, viewer, target).db;
            var afterUnfollow := FollowsRouter.Delete(afterFollow, viewer, target).db;
            GetProfileById(afterUnfollow, dir, userId, anyViewer) == GetProfileById(db, dir, userId, anyViewer)
  {
    FollowsRouter.FollowThenUnfollowRestores(db, viewer, target);
  }
}
