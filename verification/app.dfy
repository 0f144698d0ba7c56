/** The app shell's guard (`RedirectIfNotRegistered`): a signed-in user who has not finished
    registration is sent to the registration page from anywhere else. The guard as written tests the
    display name twice and never the username; the corrected guard tests both, and it is the one
    that agrees with the registration page and with the server's lookup. */
module App {
  import opened Common
  import opened Identity
  import Register
  import Store
  import PostsRouter

  const RegisterPath := "/register"

  /** The guard AS WRITTEN: `!displayName || !displayName`. */
  function RedirectToRegisterAsWritten(pathname: string, isLoaded: bool, isSignedIn: Option<bool>, user: Option<User>): (r: bool)
    ensures r <==> pathname != RegisterPath && isLoaded && isSignedIn == Some(true) && user.Some?
                   && !Truthy(Metadata(user.value, "displayName"))
  {
    && pathname != RegisterPath
    && isLoaded
    && isSignedIn == Some(true)
    && user.Some?
    && (!Truthy(Metadata(user.value, "displayName")) || !Truthy(Metadata(user.value, "displayName")))
  }

  /** The guard as evidently intended: redirect when either name is missing. */
  function RedirectToRegister(pathname: string, isLoaded: bool, isSignedIn: Option<bool>, user: Option<User>): (r: bool)
    ensures r <==> pathname != RegisterPath && isLoaded && isSignedIn == Some(true) && user.Some?
                   && !HasNames(FilterUserForClient(user.value))
  {
    && pathname != RegisterPath
    && isLoaded
    && isSignedIn == Some(true)
    && user.Some?
    && (!Truthy(Metadata(user.value, "displayName")) || !Truthy(Metadata(user.value, "username")))
  }

  /** A signed-in account with a display name but no username: the as-written guard never sends
      them to the registration page (which would keep them if they went there), and yet the server
      refuses to look them up, so every feed page holding one of their posts fails. */
  lemma AsWrittenGuardMissesUsername()
    ensures var dir := map["u1" := Account(map["displayName" := "Alice"], "")];
            var user := GetUser(dir, "u1");
            && !RedirectToRegisterAsWritten("/", true, Some(true), user)
            && !Register.RedirectHome(Some(true), user)
            && FindUserFromClerk(dir, "u1") == Err(Internal(MissingNames("u1")))
            && PostsRouter.GetAllInfinite(Store.Db([Store.Post("p1", "u1", "hello", 0)], [], {}, {}), dir, 10, None)
               == Err(Internal(MissingNames("u1")))
  {
    var dir := map["u1" := Account(map["displayName" := "Alice"], "")];
    assert "username" !in dir["u1"].unsafeMetadata;
  }

  /** The corrected guard redirects a signed-in, loaded user away from any other page exactly when
      the server's lookup would reject them. */
  lemma RedirectMatchesServerLookup(dir: Directory, id: Id, pathname: string)
    requires id in dir && pathname != RegisterPath
    ensures RedirectToRegister(pathname, true, Some(true), GetUser(dir, id)) <==> FindUserFromClerk(dir, id).Err?
  {
  }

  /** The corrected guard and the registration page never disagree: for a signed-in user, exactly one
      of "send to the registration page" (from elsewhere) and "send home" (from the registration
      page) applies, so nobody is stranded and nobody loops. */
  lemma GuardAndRegisterPageAgree(user: User, pathname: string)
    requires pathname != RegisterPath
    ensures RedirectToRegister(pathname, true, Some(true), Some(user)) != Register.RedirectHome(Some(true), Some(user))
  {
  }

  /** Both guards agree whenever the username is present, so the correction changes nothing for
      accounts the registration page created. */
  lemma GuardsAgreeWithUsername(pathname: string, isLoaded: bool, isSignedIn: Option<bool>, user: Option<User>)
    requires user.Some? ==> Truthy(Metadata(user.value, "username"))
    ensures RedirectToRegister(pathname, isLoaded, isSignedIn, user) == RedirectToRegisterAsWritten(pathname, isLoaded, isSignedIn, user)
  {
  }
}
