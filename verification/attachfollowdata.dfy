/** `attachFollowData`: extend a public profile with the follow graph as seen from a viewer —
    how many follow the profile, how many it follows, and whether the viewer follows it. It only
    reads the store. */
module FollowData {
  import opened Common
  import opened Store
  import opened Identity

  datatype ProfileWithFollows = ProfileWithFollows(user: ClientUser, followers: nat, following: nat, isFollowing: bool)

  /** `viewer` is the signed-in user's id, absent for an anonymous request; the query substitutes the
      empty string for it (`userId ?? ""`). */
  function AttachFollowData(author: ClientUser, follows: set<Follow>, viewer: Option<Id>): (r: ProfileWithFollows)
    ensures r.user == author
    ensures r.followers == |FollowersOf(follows, author.id)|
    ensures r.following == |FollowingOf(follows, author.id)|
    ensures r.isFollowing <==> Follow(viewer.GetOr(""), author.id) in follows
  {
    var followerCount := |set f | f in follows && f.followingId == author.id|;
    var followingCount := |set f | f in follows && f.userId == author.id|;
    var v := viewer.GetOr("");
    var found := exists f :: f in follows && f.userId == v && f.followingId == author.id;
    ProfileWithFollows(author, followerCount, followingCount, found)
  }

  /** In a consistent store no edge starts at the empty id, so an anonymous viewer never
      "follows" anyone. */
  lemma AnonymousViewerFollowsNobody(db: Db, author: ClientUser)
    requires Consistent(db)
    ensures !AttachFollowData(author, db.follows, None).isFollowing
  {
  }

  /** A new edge into the profile raises its follower count by exactly one and leaves its following
      count alone; an edge out of it does the converse; other edges change neither. */
  lemma CountsAfterNewEdge(follows: set<Follow>, e: Follow, author: ClientUser, viewer: Option<Id>)
    requires e !in follows
    ensures var before := AttachFollowData(author, follows, viewer);
            var after := AttachFollowData(author, follows + {e}, viewer);
            && after.followers == before.followers + (if e.followingId == author.id then 1 else 0)
            && after.following == before.following + (if e.userId == author.id then 1 else 0)
  {
    var u := author.id;
    if e.followingId == u {
      assert FollowersOf(follows + {e}, u) == FollowersOf(follows, u) + {e};
    } else {
      assert FollowersOf(follows + {e}, u) == FollowersOf(follows, u);
    }
    if e.userId == u {
      assert FollowingOf(follows + {e}, u) == FollowingOf(follows, u) + {e};
    } else {
      assert FollowingOf(follows + {e}, u) == FollowingOf(follows, u);
    }
  }
}
