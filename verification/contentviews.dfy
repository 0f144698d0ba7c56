/** The post card's behaviour (`PostView`): the optimistic like toggle and its reverts on error, the
    share link it copies, and the click that opens the post's own page. Rendering, toasts, the
    clipboard and the router are left out; each handler returns the state it leaves and the one
    effect it chooses. */
module ContentViews {
  import opened Common
  import opened Store
  import opened Identity
  import opened PostData
  import LikesRouter

  /** The card's local state: the like flag and count it shows, and whether the like and unlike
      mutations are in flight. */
  datatype LikeButton = LikeButton(isLiked: bool, likeCount: int, createLoading: bool, deleteLoading: bool)

  datatype LikeEffect = NoEffect | SignInRequired | CreateLike(postId: Id) | DeleteLike(postId: Id)

  /** A like-button click: the state it leaves, the effect it chooses, and whether the click event
      goes on to the card around the button (the button did not stop its propagation). */
  datatype LikeClick = LikeClick(state: LikeButton, effect: LikeEffect, propagates: bool)

  /** The card as mounted from the enriched post the server returned: it shows the server's flag
      and count, and with no mutation in flight its first signed-in click acts. */
  function Mount(data: PostWithData): (r: LikeButton)
    ensures r.isLiked == data.isLikedByUser && r.likeCount == data.likeCount
    ensures HandleLikeButtonClick(r, true, data.post.id).effect != NoEffect
  {
    LikeButton(data.isLikedByUser, data.likeCount, false, false)
  }

  /** `handleLikeButtonClick` AS WRITTEN: refuse when signed out, returning before the event's
      propagation is stopped; otherwise stop propagation, ignore the click while a mutation is in
      flight, or flip the flag, move the count by one, and send the matching mutation. */
  function HandleLikeButtonClick(s: LikeButton, isSignedIn: bool, postId: Id): (r: LikeClick)
    ensures !isSignedIn ==> r == LikeClick(s, SignInRequired, true)
    ensures isSignedIn && (s.createLoading || s.deleteLoading) ==> r == LikeClick(s, NoEffect, false)
    ensures r.propagates <==> !isSignedIn
    ensures isSignedIn && !s.createLoading && !s.deleteLoading ==>
      && r.state.isLiked == !s.isLiked
      && r.state.likeCount == (if s.isLiked then s.likeCount - 1 else s.likeCount + 1)
      && (r.effect == CreateLike(postId) <==> !s.isLiked)
      && (r.effect == DeleteLike(postId) <==> s.isLiked)
  {
    if !isSignedIn then LikeClick(s, SignInRequired, true)
    else if s.createLoading || s.deleteLoading then LikeClick(s, NoEffect, false)
    else
      var prevIsLiked := s.isLiked;
      var likeCountUpdate := if !s.isLiked then 1 else -1;
      var optimistic := s.(isLiked := !s.isLiked, likeCount := s.likeCount + likeCountUpdate);
      if !prevIsLiked then LikeClick(optimistic.(createLoading := true), CreateLike(postId), false)
      else LikeClick(optimistic.(deleteLoading := true), DeleteLike(postId), false)
  }

  /** `handleLikeButtonClick` as evidently intended: the event never reaches the card, so a like
      click never takes the user to the post's page. Everything else is as written. */
  function HandleLikeButtonClickStopped(s: LikeButton, isSignedIn: bool, postId: Id): (r: LikeClick)
    ensures !r.propagates
    ensures !isSignedIn ==> r.state == s && r.effect == SignInRequired
    ensures r.state == HandleLikeButtonClick(s, isSignedIn, postId).state
    ensures r.effect == HandleLikeButtonClick(s, isSignedIn, postId).effect
  {
    HandleLikeButtonClick(s, isSignedIn, postId).(propagates := false)
  }

  /** The like mutation failed: flip the flag back and take the optimistic +1 off. */
  function OnCreateLikeError(s: LikeButton): (r: LikeButton)
    ensures r.isLiked != s.isLiked && r.likeCount + 1 == s.likeCount
    ensures !r.createLoading && r.deleteLoading == s.deleteLoading
  {
    s.(isLiked := !s.isLiked, likeCount := s.likeCount - 1, createLoading := false)
  }

  /** The unlike mutation failed: flip the flag back and put the optimistic -1 back. */
  function OnDeleteLikeError(s: LikeButton): (r: LikeButton)
    ensures r.isLiked != s.isLiked && r.likeCount == s.likeCount + 1
    ensures !r.deleteLoading && r.createLoading == s.createLoading
  {
    s.(isLiked := !s.isLiked, likeCount := s.likeCount + 1, deleteLoading := false)
  }

  /** The like mutation finished: it is no longer in flight, and nothing else changes. */
  function OnCreateLikeSettled(s: LikeButton): (r: LikeButton)
    ensures !r.createLoading && r.(createLoading := s.createLoading) == s
  {
    s.(createLoading := false)
  }

  /** The unlike mutation finished: it is no longer in flight, and nothing else changes. */
  function OnDeleteLikeSettled(s: LikeButton): (r: LikeButton)
    ensures !r.deleteLoading && r.(deleteLoading := s.deleteLoading) == s
  {
    s.(deleteLoading := false)
  }

  /** A click whose mutation then fails leaves the card exactly as before the click. */
  lemma ClickThenErrorRestores(s: LikeButton, postId: Id)
    requires !s.createLoading && !s.deleteLoading
    ensures var c := HandleLikeButtonClick(s, true, postId);
            && (c.effect.CreateLike? ==> OnCreateLikeError(c.state) == s)
            && (c.effect.DeleteLike? ==> OnDeleteLikeError(c.state) == s)
            && (c.effect.CreateLike? || c.effect.DeleteLike?)
  {
  }

  /** The optimistic update predicts the server: a card mounted from the server's view of a post,
      clicked while signed in, shows after its like mutation succeeds exactly what the server now
      reports for that post and viewer. */
  lemma OptimisticLikeMatchesServer(db: Db, dir: Directory, viewer: Id, post: Post)
    requires AddDataToPost(db, dir, post, Some(viewer)).Ok?
    requires !AddDataToPost(db, dir, post, Some(viewer)).value.isLikedByUser
    requires LikesRouter.Create(db, viewer, post.id).result.Ok?
    ensures var c := HandleLikeButtonClick(Mount(AddDataToPost(db, dir, post, Some(viewer)).value), true, post.id);
            var after := AddDataToPost(LikesRouter.Create(db, viewer, post.id).db, dir, post, Some(viewer));
            && c.effect == CreateLike(post.id)
            && after.Ok?
            && OnCreateLikeSettled(c.state) == Mount(after.value)
  {
    LikesRouter.LikeRaisesCount(db, dir, viewer, post);
  }

  /** `handleShareClick`: the link to copy, or nothing when the page url is unavailable. A url
      that already mentions the post is copied as is; otherwise `post/<id>` is appended. */
  function ShareUrl(currentUrl: string, postId: Id): (r: Option<string>)
    ensures currentUrl == "" <==> r.None?
    ensures r.Some? ==> Contains(r.value, postId)
    ensures r.Some? && Contains(currentUrl, postId) ==> r.value == currentUrl
    ensures r.Some? && !Contains(currentUrl, postId) ==> r.value == currentUrl + "post/" + postId
  {
    if currentUrl == "" then None
    else if Contains(currentUrl, postId) then Some(currentUrl)
    else
      ContainsSuffix(currentUrl + "post/", postId);
      Some(currentUrl + "post/" + postId)
  }

  /** Sharing from the page a share link opens copies that same link. */
  lemma ShareUrlIdempotent(currentUrl: string, postId: Id)
    requires currentUrl != ""
    ensures ShareUrl(ShareUrl(currentUrl, postId).value, postId) == ShareUrl(currentUrl, postId)
  {
  }

  /** `handleClickOnPost`: open `/post/<id>` unless the current path already contains "post". */
  function HandleClickOnPost(currentPath: string, postId: Id): (r: Option<string>)
    ensures r.Some? <==> !Contains(currentPath, "post")
    ensures r.Some? ==> r.value == "/post/" + postId
  {
    if Contains(currentPath, "post") then None else Some("/post/" + postId)
  }

  /** Where a click on the like button leads: a click that propagates also runs the card's own
      click handler. */
  function LikeButtonRoute(click: LikeClick, currentPath: string, postId: Id): (r: Option<string>)
    ensures r.Some? <==> click.propagates && !Contains(currentPath, "post")
    ensures r.Some? ==> r.value == "/post/" + postId
  {
    if click.propagates then HandleClickOnPost(currentPath, postId) else None
  }

  /** As written, a signed-out like click on the home feed asks the user to sign in AND opens the
      post's page. */
  lemma SignedOutLikeOpensPost(s: LikeButton, postId: Id)
    ensures var c := HandleLikeButtonClick(s, false, postId);
            && c.effect == SignInRequired
            && LikeButtonRoute(c, "/", postId) == Some("/post/" + postId)
  {
  }

  /** As written, only a signed-out like click navigates; with the intended handler none does. */
  lemma LikeClickNavigatesOnlySignedOut(s: LikeButton, isSignedIn: bool, postId: Id, currentPath: string)
    ensures LikeButtonRoute(HandleLikeButtonClick(s, isSignedIn, postId), currentPath, postId).Some?
            <==> !isSignedIn && !Contains(currentPath, "post")
    ensures LikeButtonRoute(HandleLikeButtonClickStopped(s, isSignedIn, postId), currentPath, postId).None?
  {
  }

  /** On the page a card click opens, clicking any card navigates nowhere. */
  lemma PostPageClicksStay(postId: Id, otherId: Id)
    ensures HandleClickOnPost("/post/" + postId, otherId).None?
  {
    assert OccursAt("/post/" + postId, "post", 1);
  }
}
