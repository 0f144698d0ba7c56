/** The registration page (`Register`): the form's validation, the submit handler that writes both
    names into the signed-in account's metadata, and the redirect that sends away visitors who have
    nothing to register. The identity service's client is the directory itself; navigation is a
    flag in the result. */
module Register {
  import opened Common
  import opened Identity

  const DisplayNameTooShort := "Display name must contain at least 4 characters"
  const DisplayNameTooLong := "Display name must contain at most 15 characters"
  const UsernameTooShort := "Username must contain at least 4 characters"
  const UsernameTooLong := "Username must contain at most 15 characters"

  /** The form schema's issues, field by field in declaration order: each name must have 4 to 15
      characters. */
  function RegistrationIssues(displayName: string, username: string): (issues: seq<string>)
    ensures |issues| == 0 <==> 4 <= |displayName| <= 15 && 4 <= |username| <= 15
    ensures DisplayNameTooShort in issues <==> |displayName| < 4
    ensures DisplayNameTooLong in issues <==> |displayName| > 15
    ensures UsernameTooShort in issues <==> |username| < 4
    ensures UsernameTooLong in issues <==> |username| > 15
    ensures |issues| <= 2
  {
    (if |displayName| < 4 then [DisplayNameTooShort] else [])
    + (if |displayName| > 15 then [DisplayNameTooLong] else [])
    + (if |username| < 4 then [UsernameTooShort] else [])
    + (if |username| > 15 then [UsernameTooLong] else [])
  }

  /** The page's redirect home: for a visitor known to be signed out (`isSignedIn === false`; it is
      absent while the service loads), or for a user whose metadata already holds both names. */
  function RedirectHome(isSignedIn: Option<bool>, user: Option<User>): (r: bool)
    ensures isSignedIn == Some(false) ==> r
    ensures isSignedIn != Some(false) && user.None? ==> !r
    ensures isSignedIn != Some(false) && user.Some? ==>
      (r <==> HasNames(FilterUserForClient(user.value)))
  {
    isSignedIn == Some(false)
    || (user.Some? && Truthy(Metadata(user.value, "displayName")) && Truthy(Metadata(user.value, "username")))
  }

  /** The two names written as the account's whole `unsafeMetadata`: an account holding it shows
      exactly these names to clients. */
  function NamesMetadata(displayName: string, username: string): (m: map<string, string>)
    ensures m.Keys == {"displayName", "username"}
    ensures forall u: User {:trigger FilterUserForClient(u)} :: u.unsafeMetadata == m ==>
      FilterUserForClient(u).displayName == Some(displayName) && FilterUserForClient(u).username == Some(username)
  {
    map["displayName" := displayName, "username" := username]
  }

  /** What a submit leaves: the directory, the page's loading flag, whether it navigated home, and
      the form issues shown (a submit with issues never reaches the handler). */
  datatype SubmitResult = SubmitResult(dir: Directory, issues: seq<string>, loading: bool, navigatedHome: bool)

  /** A submit of the form. `user` is the signed-in account's id, absent before the service has
      loaded it; `updateFails` stands for a failed call to the identity service. Once the handler
      starts, the spinner is shown; it is cleared only after a successful update and navigation. */
  function Submit(dir: Directory, user: Option<Id>, displayName: string, username: string, updateFails: bool): (r: SubmitResult)
    ensures r.issues == RegistrationIssues(displayName, username)
    ensures |r.issues| > 0 ==> r == SubmitResult(dir, r.issues, false, false)
    ensures |r.issues| == 0 && (user.None? || updateFails || user.value !in dir) ==>
      r == SubmitResult(dir, [], true, false)
    ensures r.navigatedHome <==> |r.issues| == 0 && user.Some? && !updateFails && user.value in dir
    ensures r.navigatedHome ==> !r.loading
    ensures r.navigatedHome ==>
      && r.dir.Keys == dir.Keys
      && r.dir[user.value] == dir[user.value].(unsafeMetadata := NamesMetadata(displayName, username))
      && (forall id :: id in dir && id != user.value ==> r.dir[id] == dir[id])
  {
    var issues := RegistrationIssues(displayName, username);
    if |issues| > 0 then SubmitResult(dir, issues, false, false)
    else if user.None? then SubmitResult(dir, [], true, false)
    else if updateFails || user.value !in dir then SubmitResult(dir, [], true, false)
    else
      var id := user.value;
      var updated := dir[id := dir[id].(unsafeMetadata := NamesMetadata(displayName, username))];
      SubmitResult(updated, [], false, true)
  }

  /** A submit that navigates home finishes registration: the account is now registered, the
      server-side lookup returns exactly the names entered, and the page would send the user home
      if they came back to it. */
  lemma SubmitRegisters(dir: Directory, id: Id, displayName: string, username: string)
    requires Submit(dir, Some(id), displayName, username, false).navigatedHome
    ensures var after := Submit(dir, Some(id), displayName, username, false).dir;
            && Registered(after, id)
            && FindUserFromClerk(after, id).Ok?
            && FindUserFromClerk(after, id).value.displayName == Some(displayName)
            && FindUserFromClerk(after, id).value.username == Some(username)
            && RedirectHome(Some(true), GetUser(after, id))
  {
    var after := Submit(dir, Some(id), displayName, username, false).dir;
    var names := NamesMetadata(displayName, username);
    assert after[id].unsafeMetadata == names;
    assert names["displayName"] == displayName && names["username"] == username;
    assert |displayName| >= 4 && |username| >= 4;
  }
}
