/** UserMapper: a new user from a request, the response form, and the
    partial update. */
module UserMapper {
  import opened Common
  import opened Entities
  import opened Dtos
  import opened UserUpdate
  import opened Text

  /** A fresh user: the id keeps its default 0 until the store assigns one. */
  function MapToUser(req: NewUserRequest): (u: User)
    ensures u.id == 0 && u.name == req.name && u.email == req.email
  {
    User(0, req.name, req.email)
  }

  function MapToUserDto(u: User): (d: UserDto)
    ensures d.id == u.id && d.name == u.name && d.email == u.email
  {
    UserDto(u.id, u.name, u.email)
  }

  /** The response form loses nothing: different users render differently. */
  lemma UserDtoIsLossless(a: User, b: User)
    ensures MapToUserDto(a) == MapToUserDto(b) <==> a == b
  {
  }

  /** A new user renders with the request's name and email and id 0. */
  lemma NewUserRendersRequest(req: NewUserRequest)
    ensures MapToUserDto(MapToUser(req)) == UserDto(0, req.name, req.email)
  {
  }

  function UpdateUserFields(u: User, upd: UpdateUserRequest): (r: User)
    ensures r.id == u.id
    ensures r.name == (if upd.HasName() then upd.name.value else u.name)
    ensures r.email == (if upd.HasEmail() then upd.email.value else u.email)
  {
    var a := if upd.HasName() then u.(name := upd.name.value) else u;
    if upd.HasEmail() then a.(email := upd.email.value) else a
  }

  /** A blank email in an update leaves the stored email as it was. */
  lemma BlankEmailKeepsStored(u: User, upd: UpdateUserRequest)
    requires upd.email.Some? && IsBlank(upd.email.value)
    ensures UpdateUserFields(u, upd).email == u.email
    ensures UpdateUserFields(u, upd).id == u.id
  {
    BlankEmailIsAbsent(upd);
  }

  /** An update that carries nothing leaves the user as it was. */
  lemma EmptyUserUpdateIsIdentity(u: User, upd: UpdateUserRequest)
    requires !upd.HasName() && !upd.HasEmail()
    ensures UpdateUserFields(u, upd) == u
  {
  }

  /** Applying the same update twice is applying it once. */
  lemma UserUpdateIsIdempotent(u: User, upd: UpdateUserRequest)
    ensures UpdateUserFields(UpdateUserFields(u, upd), upd) == UpdateUserFields(u, upd)
  {
  }

  /** Each field changes only when the update carries it. */
  lemma UserFieldChangesNeedPresence(u: User, upd: UpdateUserRequest)
    ensures UpdateUserFields(u, upd).name != u.name ==> upd.HasName()
    ensures UpdateUserFields(u, upd).email != u.email ==> upd.HasEmail()
  {
  }
}
