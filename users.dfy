/** The user service: the current user without the password column, and the
    profile update with its password-change branch. bcrypt's `compare` and
    salted `hash` are parameters. */
module Users {
  import opened Common
  import opened Store

  /** A user row with the password left out (`const { password, ...rest } = user`). */
  datatype PublicUser = PublicUser(
    id: int, email: string, username: string, bio: Option<string>, image: Option<string>)

  function WithoutPassword(u: User): PublicUser {
    PublicUser(u.id, u.email, u.username, u.bio, u.image)
  }

  /** What `updateUser` receives. */
  datatype UpdateUserData = UpdateUserData(
    email: Option<string>, username: Option<string>, password: Option<string>,
    newPassword: Option<string>, bio: Option<string>, image: Option<string>)

  /** The body the update endpoint accepts; it names the current password
      `currentPassword`. */
  datatype UpdateUserDto = UpdateUserDto(
    email: Option<string>, username: Option<string>, bio: Option<string>, image: Option<string>,
    currentPassword: Option<string>, newPassword: Option<string>)

  /** The body handed to the service as the controller does it: the service
      reads `password`, which the body does not have. */
  function DataFromDtoAsWritten(dto: UpdateUserDto): (data: UpdateUserData)
    ensures data.password.None? && data.newPassword == dto.newPassword
  {
    UpdateUserData(dto.email, dto.username, None, dto.newPassword, dto.bio, dto.image)
  }

  /** The body handed to the service with the current password where the service looks for it. */
  function DataFromDto(dto: UpdateUserDto): (data: UpdateUserData)
    ensures data.password == dto.currentPassword && data.newPassword == dto.newPassword
    ensures data.email == dto.email && data.username == dto.username
    ensures data.bio == dto.bio && data.image == dto.image
  {
    UpdateUserData(dto.email, dto.username, dto.currentPassword, dto.newPassword, dto.bio, dto.image)
  }

  /** The update's decision, given the result of the user lookup the
      password-change branch makes: the `data` it writes, or why it writes nothing. */
  function PrepareUpdate(data: UpdateUserData, current: Option<User>,
                         hash: string -> string, compare: (string, string) -> bool): (r: Result<UserPatch>)
    ensures Supplied(data.newPassword) && !Supplied(data.password) ==> r == Err(Http(BadRequest))
    ensures Supplied(data.newPassword) && Supplied(data.password) && current.None? ==> r == Err(Http(NotFound))
    ensures (Supplied(data.newPassword) && Supplied(data.password) && current.Some?
             && !compare(data.password.value, current.value.password)) ==> r == Err(Http(Unauthorized))
    ensures r.Ok? && Supplied(data.newPassword) ==>
              r.value == UserPatch(data.email, data.username, Some(hash(data.newPassword.value)), None,
                                   data.bio, data.image)
    ensures !Supplied(data.newPassword) ==>
              r == Ok(UserPatch(data.email, data.username, data.password, data.newPassword, data.bio, data.image))
    ensures r.Err? ==> Supplied(data.newPassword)
  {
    if Supplied(data.newPassword) then
      if !Supplied(data.password) then Err(Http(BadRequest))
      else if current.None? then Err(Http(NotFound))
      else if !compare(data.password.value, current.value.password) then Err(Http(Unauthorized))
      else Ok(UserPatch(data.email, data.username, Some(hash(data.newPassword.value)), None, data.bio, data.image))
    else
      Ok(UserPatch(data.email, data.username, data.password, data.newPassword, data.bio, data.image))
  }

  /** A missing current password is refused before the user is looked up:
      the outcome does not depend on the lookup. */
  lemma MissingCurrentPasswordPrecedesLookup(data: UpdateUserData, a: Option<User>, b: Option<User>,
                                             hash: string -> string, compare: (string, string) -> bool)
    requires Supplied(data.newPassword) && !Supplied(data.password)
    ensures PrepareUpdate(data, a, hash, compare) == PrepareUpdate(data, b, hash, compare)
  {
  }

  /** The endpoint's body never carries the current password into the
      service, so every password change through it is refused. */
  lemma PasswordChangeThroughDtoAlwaysRefused(dto: UpdateUserDto, current: Option<User>,
                                              hash: string -> string, compare: (string, string) -> bool)
    requires Supplied(dto.newPassword)
    ensures PrepareUpdate(DataFromDtoAsWritten(dto), current, hash, compare) == Err(Http(BadRequest))
  {
  }

  /** Read with `currentPassword`, a body whose current password matches
      changes the password to the hash of the new one. */
  lemma PasswordChangeThroughDtoAccepted(dto: UpdateUserDto, current: User,
                                         hash: string -> string, compare: (string, string) -> bool)
    requires Supplied(dto.newPassword) && Supplied(dto.currentPassword)
    requires compare(dto.currentPassword.value, current.password)
    ensures PrepareUpdate(DataFromDto(dto), Some(current), hash, compare).Ok?
    ensures PrepareUpdate(DataFromDto(dto), Some(current), hash, compare).value.password == Some(hash(dto.newPassword.value))
  {
  }

  class UserService {
    const db: Database

    constructor (db: Database)
      ensures this.db == db
    {
      this.db := db;
    }

    function GetCurrentUser(userId: int): (r: Result<PublicUser>)
      reads db
      requires db.Valid()
      ensures r.Err? <==> userId !in db.users
      ensures r.Err? ==> r.failure == Http(NotFound)
      ensures r.Ok? ==> r.value.id == userId && r.value.email == db.users[userId].email
                        && r.value.username == db.users[userId].username
                        && r.value.bio == db.users[userId].bio && r.value.image == db.users[userId].image
    {
      var user := db.UserById(userId);
      if user.None? then Err(Http(NotFound)) else Ok(WithoutPassword(user.value))
    }

    method UpdateUser(userId: int, data: UpdateUserData,
                      hash: string -> string, compare: (string, string) -> bool) returns (r: Result<PublicUser>)
      requires db.Valid()
      modifies db`users
      ensures db.Valid()
      ensures r.Err? ==> unchanged(db)
      ensures var decided := old(PrepareUpdate(data, db.UserById(userId), hash, compare));
              && (decided.Err? ==> r == Err(decided.failure))
              && (decided.Ok? && decided.value.newPassword.Some? ==> r == Err(Unexpected))
              && (decided.Ok? && decided.value.newPassword.None? && userId !in old(db.users) ==>
                    r == Err(PrismaKnown(RECORD_NOT_FOUND)))
              && (decided.Ok? && decided.value.newPassword.None? && userId in old(db.users) ==>
                    if old(db.UserPatchConflicts(userId, decided.value))
                    then r == Err(PrismaKnown(UNIQUE_VIOLATION))
                    else r.Ok?)
              && (r.Ok? ==> decided.Ok? && userId in old(db.users)
                            && db.users == old(db.users)[userId := PatchedUser(old(db.users)[userId], decided.value)]
                            && r.value == WithoutPassword(db.users[userId]))
      ensures r.Ok? && Supplied(data.newPassword) ==> db.users[userId].password == hash(data.newPassword.value)
    {
      var patch := UserPatch(data.email, data.username, data.password, data.newPassword, data.bio, data.image);
      if Supplied(data.newPassword) {
        if !Supplied(data.password) {
          return Err(Http(BadRequest));
        }
        var currentUser := db.UserById(userId);
        if currentUser.None? {
          return Err(Http(NotFound));
        }
        if !compare(data.password.value, currentUser.value.password) {
          return Err(Http(Unauthorized));
        }
        var hashedNewPassword := hash(data.newPassword.value);
        patch := UserPatch(data.email, data.username, Some(hashedNewPassword), None, data.bio, data.image);
      }
      var updated := db.UpdateUser(userId, patch);
      if updated.Err? {
        return Err(updated.failure);
      }
      r := Ok(WithoutPassword(updated.value));
    }
  }
}
