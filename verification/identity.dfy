/** The external identity service and the two helpers that read from it: the client projection of a
    user record (`filterUserForClient`, which the source defines three times with the same body) and
    the checked lookup `findUserFromClerk`. The service is a finite map from user id to account. */
module Identity {
  import opened Common

  /** What the identity service keeps for an account. `unsafeMetadata` is the free-form metadata the
      registration page writes (`displayName`, `username`); only string values are modelled. */
  datatype Account = Account(unsafeMetadata: map<string, string>, profileImageUrl: string)

  type Directory = map<Id, Account>

  /** A user record as the service returns it. */
  datatype User = User(id: Id, unsafeMetadata: map<string, string>, profileImageUrl: string)

  /** `getUser(id)`: the record, or nothing for an unknown id. */
  function GetUser(dir: Directory, id: Id): (r: Option<User>)
    ensures r.Some? <==> id in dir
    ensures r.Some? ==> r.value.id == id
    ensures r.Some? ==> Account(r.value.unsafeMetadata, r.value.profileImageUrl) == dir[id]
  {
    if id in dir then Some(User(id, dir[id].unsafeMetadata, dir[id].profileImageUrl)) else None
  }

  /** `user.unsafeMetadata[field]`, absent when the field was never written. */
  function Metadata(u: User, field: string): Option<string> {
    if field in u.unsafeMetadata then Some(u.unsafeMetadata[field]) else None
  }

  /** JavaScript truthiness of an optional string: present and non-empty. */
  predicate Truthy(s: Option<string>) {
    s.Some? && s.value != ""
  }

  /** The public part of a user, as sent to clients. The casts in the source (`as string`) check
      nothing, so a field the metadata lacks stays absent here. */
  datatype ClientUser = ClientUser(id: Id, username: Option<string>, displayName: Option<string>, profileImageUrl: string)

  /** `filterUserForClient`: project a user record onto exactly the four public fields. */
  function FilterUserForClient(u: User): (r: ClientUser)
    ensures r.id == u.id && r.profileImageUrl == u.profileImageUrl
    ensures r.username == Metadata(u, "username")
    ensures r.displayName == Metadata(u, "displayName")
  {
    ClientUser(u.id, Metadata(u, "username"), Metadata(u, "displayName"), u.profileImageUrl)
  }

  /** The projection reveals nothing else: two records that agree on the id, the avatar and the two
      name fields project to the same client user, whatever other metadata they hold. */
  lemma FilterUserForClientHidesRest(u: User, v: User)
    requires u.id == v.id && u.profileImageUrl == v.profileImageUrl
    requires Metadata(u, "username") == Metadata(v, "username")
    requires Metadata(u, "displayName") == Metadata(v, "displayName")
    ensures FilterUserForClient(u) == FilterUserForClient(v)
  {
  }

  /** Both names of a projected user are present and non-empty. */
  predicate HasNames(c: ClientUser) {
    Truthy(c.username) && Truthy(c.displayName)
  }

  /** The account exists and has finished registration (both names set). */
  predicate Registered(dir: Directory, id: Id) {
    && id in dir
    && "username" in dir[id].unsafeMetadata && dir[id].unsafeMetadata["username"] != ""
    && "displayName" in dir[id].unsafeMetadata && dir[id].unsafeMetadata["displayName"] != ""
  }

  const UserNotFound := "User not found"

  function MissingNames(id: Id): string {
    "Author is missing displayName or username: " + id
  }

  /** `findUserFromClerk`: look the user up and insist on both names; either failure is an internal
      error, never a partial profile. */
  function FindUserFromClerk(dir: Directory, userId: Id): (r: Result<ClientUser>)
    ensures r.Ok? <==> Registered(dir, userId)
    ensures userId !in dir ==> r == Err(Internal(UserNotFound))
    ensures userId in dir && !Registered(dir, userId) ==> r == Err(Internal(MissingNames(userId)))
    ensures r.Ok? ==> && r.value.id == userId
                      && r.value.profileImageUrl == dir[userId].profileImageUrl
                      && r.value.username == Some(dir[userId].unsafeMetadata["username"])
                      && r.value.displayName == Some(dir[userId].unsafeMetadata["displayName"])
                      && HasNames(r.value)
  {
    match GetUser(dir, userId)
    case None => Err(Internal(UserNotFound))
    case Some(user) =>
      var filtered := FilterUserForClient(user);
      if !Truthy(filtered.username) || !Truthy(filtered.displayName) then
        Err(Internal(MissingNames(user.id)))
      else
        Ok(filtered)
  }
}
