/** The follow button's behaviour (`FollowButton`): the optimistic toggle and its revert on error,
    how the button re-synchronises with its `isFollowing` prop, which cached queries a successful
    mutation invalidates, and the label it shows. */
module FollowButton {
  import opened Common
  import opened Store
  import opened Identity
  import opened FollowData
  import FollowsRouter
  import ContentViews

  /** The button's local state. `seenProp` is the prop value the button compares new props
      against; `isHovering` tracks the mouse over the "Following" button. */
  datatype FollowButton = FollowButton(isFollowing: bool, seenProp: bool, isHovering: bool, createLoading: bool, deleteLoading: bool)

  datatype FollowEffect = NoEffect | SignInRequired | CreateFollow(followingId: Id) | DeleteFollow(followingId: Id)

  datatype FollowClick = FollowClick(state: FollowButton, effect: FollowEffect)

  /** Mounting records the prop twice: as the shown state and as the value later props are
      compared with; a render with the same prop then changes nothing. */
  function Mount(isFollowingProp: bool): (r: FollowButton)
    ensures r.isFollowing == isFollowingProp && !r.isHovering
    ensures !r.createLoading && !r.deleteLoading
    ensures SyncPropAsWritten(r, isFollowingProp) == r && SyncProp(r, isFollowingProp) == r
  {
    FollowButton(isFollowingProp, isFollowingProp, false, false, false)
  }

  /** `handleClick`: refuse when signed out, ignore while a mutation is in flight, otherwise flip
      the state and unfollow if the viewer was following, follow if not. */
  function HandleClick(s: FollowButton, isSignedIn: bool, authorId: Id): (r: FollowClick)
    ensures !isSignedIn ==> r == FollowClick(s, SignInRequired)
    ensures isSignedIn && (s.createLoading || s.deleteLoading) ==> r == FollowClick(s, NoEffect)
    ensures isSignedIn && !s.createLoading && !s.deleteLoading ==>
      && r.state.isFollowing == !s.isFollowing
      && (r.effect == DeleteFollow(authorId) <==> s.isFollowing)
      && (r.effect == CreateFollow(authorId) <==> !s.isFollowing)
  {
    if !isSignedIn then FollowClick(s, SignInRequired)
    else if s.createLoading || s.deleteLoading then FollowClick(s, NoEffect)
    else
      var wasFollowingBeforeClick := s.isFollowing;
      var optimistic := s.(isFollowing := !s.isFollowing);
      if wasFollowingBeforeClick then FollowClick(optimistic.(deleteLoading := true), DeleteFollow(authorId))
      else FollowClick(optimistic.(createLoading := true), CreateFollow(authorId))
  }

  /** Either mutation failed: flip the state back. */
  function OnCreateError(s: FollowButton): (r: FollowButton)
    ensures r.isFollowing != s.isFollowing
    ensures !r.createLoading && r.(isFollowing := s.isFollowing, createLoading := s.createLoading) == s
  {
    s.(isFollowing := !s.isFollowing, createLoading := false)
  }

  function OnDeleteError(s: FollowButton): (r: FollowButton)
    ensures r.isFollowing != s.isFollowing
    ensures !r.deleteLoading && r.(isFollowing := s.isFollowing, deleteLoading := s.deleteLoading) == s
  {
    s.(isFollowing := !s.isFollowing, deleteLoading := false)
  }

  /** A mutation finished (either way): it is no longer in flight. */
  function OnCreateSettled(s: FollowButton): (r: FollowButton)
    ensures !r.createLoading && r.(createLoading := s.createLoading) == s
  {
    s.(createLoading := false)
  }

  function OnDeleteSettled(s: FollowButton): (r: FollowButton)
    ensures !r.deleteLoading && r.(deleteLoading := s.deleteLoading) == s
  {
    s.(deleteLoading := false)
  }

  /** A click whose mutation then fails leaves the button exactly as before the click. */
  lemma ClickThenErrorRestores(s: FollowButton, authorId: Id)
    requires !s.createLoading && !s.deleteLoading
    ensures var c := HandleClick(s, true, authorId);
            && (c.effect.CreateFollow? ==> OnCreateError(c.state) == s)
            && (c.effect.DeleteFollow? ==> OnDeleteError(c.state) == s)
            && (c.effect.CreateFollow? || c.effect.DeleteFollow?)
  {
  }

  /** The optimistic update predicts the server: a button mounted from a profile the viewer does
      not follow, clicked while signed in, shows after the follow succeeds what the server now
      reports for that profile and viewer; an unfollow then brings both back. */
  lemma OptimisticFollowMatchesServer(db: Db, viewer: Id, author: ClientUser)
    requires FollowsRouter.Create(db, viewer, author.id).result.Ok?
    ensures var before := AttachFollowData(author, db.follows, Some(viewer));
            var c := HandleClick(Mount(before.isFollowing), true, author.id);
            var afterDb := FollowsRouter.Create(db, viewer, author.id).db;
            var after := AttachFollowData(author, afterDb.follows, Some(viewer));
            var c2 := HandleClick(OnCreateSettled(c.state), true, author.id);
            var undoneDb := FollowsRouter.Delete(afterDb, viewer, author.id).db;
            && c.effect == CreateFollow(author.id)
            && c.state.isFollowing == after.isFollowing
            && c2.effect == DeleteFollow(author.id)
            && c2.state.isFollowing == AttachFollowData(author, undoneDb.follows, Some(viewer)).isFollowing
  {
    FollowsRouter.FollowThenUnfollowRestores(db, viewer, author.id);
  }

  /** The cached queries a successful follow or unfollow invalidates. */
  datatype Query =
    | PostsGetById
    | ReplysGetAllInfiniteById
    | PostsGetByAuthorIdInfinite
    | ProfilesGetProfileById
    | PostsGetAllInfinite

  /** `invalidatePostQuery`: on a single-post page the post and its replies; on a profile page the
      author's feed and profile; anywhere else the global feed. The test for "post" comes first. */
  function InvalidatePostQuery(currentPath: string): (r: set<Query>)
    ensures Contains(currentPath, "post") <==> r == {PostsGetById, ReplysGetAllInfiniteById}
    ensures !Contains(currentPath, "post") && Contains(currentPath, "profile")
            <==> r == {PostsGetByAuthorIdInfinite, ProfilesGetProfileById}
    ensures !Contains(currentPath, "post") && !Contains(currentPath, "profile") <==> r == {PostsGetAllInfinite}
  {
    if Contains(currentPath, "post") then {PostsGetById, ReplysGetAllInfiniteById}
    else if Contains(currentPath, "profile") then {PostsGetByAuthorIdInfinite, ProfilesGetProfileById}
    else {PostsGetAllInfinite}
  }

  /** Where a card click leads, the follow button refreshes the single post and its replies; on the
      home feed it refreshes the feed. */
  lemma InvalidatesOpenedPostPage(fromPath: string, postId: Id)
    requires ContentViews.HandleClickOnPost(fromPath, postId).Some?
    ensures var target := ContentViews.HandleClickOnPost(fromPath, postId).value;
            InvalidatePostQuery(target) == {PostsGetById, ReplysGetAllInfiniteById}
    ensures InvalidatePostQuery("/") == {PostsGetAllInfinite}
  {
    assert OccursAt("/post/" + postId, "post", 1);
  }

  /** The prop-sync effect AS WRITTEN: it compares the new prop with the FIRST prop the button saw
      and never updates that value, so a prop that returns to its first value is ignored. */
  function SyncPropAsWritten(s: FollowButton, isFollowingProp: bool): (r: FollowButton)
    ensures s.seenProp != isFollowingProp ==> r.isFollowing == isFollowingProp
    ensures s.seenProp == isFollowingProp ==> r == s
    ensures r.seenProp == s.seenProp
  {
    if s.seenProp != isFollowingProp then s.(isFollowing := isFollowingProp) else s
  }

  /** Two buttons for one author, both mounted "not following": following through the first and
      unfollowing through the second leave the first showing "following" although its prop says
      otherwise. */
  lemma SyncPropAsWrittenGoesStale()
    ensures var a := Mount(false);
            var afterFollow := SyncPropAsWritten(a, true);
            var afterUnfollow := SyncPropAsWritten(afterFollow, false);
            afterFollow.isFollowing && afterUnfollow.isFollowing
  {
  }

  /** The prop-sync effect as evidently intended: adopt every prop that differs from the previous
      one, and remember it. */
  function SyncProp(s: FollowButton, isFollowingProp: bool): (r: FollowButton)
    ensures r.seenProp == isFollowingProp
    ensures s.seenProp != isFollowingProp ==> r.isFollowing == isFollowingProp
    ensures s.seenProp == isFollowingProp ==> r == s
  {
    if s.seenProp != isFollowingProp then s.(isFollowing := isFollowingProp, seenProp := isFollowingProp) else s
  }

  /** A button that shows the prop it last saw keeps doing so through any prop change. */
  lemma SyncPropKeepsInSync(s: FollowButton, isFollowingProp: bool)
    requires s.isFollowing == s.seenProp
    ensures SyncProp(s, isFollowingProp).isFollowing == isFollowingProp
    ensures SyncProp(s, isFollowingProp).seenProp == isFollowingProp
  {
  }

  /** Feed a mounted button a sequence of props, one render each. Only the shown state and the
      remembered prop can change, and the button remembers the last prop it was given. */
  function SyncAll(s: FollowButton, props: seq<bool>): (r: FollowButton)
    ensures r.isHovering == s.isHovering && r.createLoading == s.createLoading && r.deleteLoading == s.deleteLoading
    ensures |props| > 0 ==> r.seenProp == props[|props| - 1]
    decreases |props|
  {
    if |props| == 0 then s else SyncProp(SyncAll(s, props[..|props| - 1]), props[|props| - 1])
  }

  /** With the intended sync a button with no clicks of its own always shows its latest prop,
      whatever props came before; the as-written sync fails this for `[true, false]` after
      mounting with `false`. */
  lemma {:induction false} SyncAllShowsLatestProp(mounted: bool, props: seq<bool>)
    ensures SyncAll(Mount(mounted), props).isFollowing == (if |props| == 0 then mounted else props[|props| - 1])
    ensures SyncAll(Mount(mounted), props).seenProp == SyncAll(Mount(mounted), props).isFollowing
    decreases |props|
  {
    if |props| > 0 {
      SyncAllShowsLatestProp(mounted, props[..|props| - 1]);
      SyncPropKeepsInSync(SyncAll(Mount(mounted), props[..|props| - 1]), props[|props| - 1]);
    }
  }

  /** The label: "Following" (or "Unfollow" under the mouse) only when following and signed in,
      "Follow" otherwise. */
  function Label(s: FollowButton, isSignedIn: bool): (text: string)
    ensures text == "Follow" <==> !(s.isFollowing && isSignedIn)
    ensures text == "Unfollow" <==> s.isFollowing && isSignedIn && s.isHovering
    ensures text == "Following" <==> s.isFollowing && isSignedIn && !s.isHovering
  {
    if s.isFollowing && isSignedIn then (if s.isHovering then "Unfollow" else "Following") else "Follow"
  }

  /** The label announces the click: signed in and idle, the button reads "Follow" exactly when a
      click sends a follow, and reads "Following" or "Unfollow" exactly when it sends an unfollow;
      signed out it reads "Follow" and a click asks for sign-in. */
  lemma LabelAnnouncesClick(s: FollowButton, isSignedIn: bool, authorId: Id)
    requires !s.createLoading && !s.deleteLoading
    ensures isSignedIn ==> (Label(s, true) == "Follow" <==> HandleClick(s, true, authorId).effect == CreateFollow(authorId))
    ensures isSignedIn ==> (Label(s, true) != "Follow" <==> HandleClick(s, true, authorId).effect == DeleteFollow(authorId))
    ensures !isSignedIn ==> Label(s, false) == "Follow" && HandleClick(s, false, authorId).effect == SignInRequired
  {
  }

  /** Mouse events reach only the "Following" button: entering it turns the label to "Unfollow",
      leaving it turns it back; on the "Follow" button nothing changes. */
  function OnHover(s: FollowButton, isSignedIn: bool, entering: bool): (r: FollowButton)
    ensures r.(isHovering := s.isHovering) == s
    ensures s.isFollowing && isSignedIn ==> Label(r, isSignedIn) == (if entering then "Unfollow" else "Following")
    ensures !(s.isFollowing && isSignedIn) ==> r == s
  {
    if s.isFollowing && isSignedIn then s.(isHovering := entering) else s
  }
}
