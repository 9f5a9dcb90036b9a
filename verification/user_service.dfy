/** UserServiceImpl: listing, finding, creating, updating and deleting users
    through the users table. */
module UserService {
  import opened Common
  import opened Seqs
  import opened Entities
  import opened Dtos
  import opened Storage
  import opened UserMapper
  import opened UserUpdate

  /** `getAllUsers`: one response per stored user, in table order. */
  function GetAllUsers(db: Db): (r: seq<UserDto>)
    ensures |r| == |db.users|
    ensures forall i :: 0 <= i < |r| ==>
              r[i].id == db.users[i].id && r[i].name == db.users[i].name && r[i].email == db.users[i].email
  {
    seq(|db.users|, i requires 0 <= i < |db.users| => MapToUserDto(db.users[i]))
  }

  function FindUserById(db: Db, userId: int): (r: Result<UserDto>)
    ensures r.Err? <==> forall u :: u in db.users ==> u.id != userId
    ensures r.Err? ==> r.error == NotFound
    ensures r.Ok? ==> r.value.id == userId && r.value in GetAllUsers(db)
  {
    match FindUser(db.users, userId)
    case None => Err(NotFound)
    case Some(u) =>
      var i :| 0 <= i < |db.users| && db.users[i] == u;
      assert GetAllUsers(db)[i] == MapToUserDto(u);
      Ok(MapToUserDto(u))
  }

  /** `saveUser`: the request becomes a new row under a fresh id. */
  function SaveUser(db: Db, req: NewUserRequest): (out: Reply<UserDto>)
    requires db.Valid()
    ensures out.db.Valid()
    ensures out.result.Ok?
    ensures out.db.(users := db.users, lastId := db.lastId) == db
    ensures out.db.users == db.users + [User(out.db.lastId, req.name, req.email)]
    ensures forall u :: u in db.users ==> u.id != out.db.lastId
    ensures out.result.value == UserDto(out.db.lastId, req.name, req.email)
  {
    var saved := MapToUser(req).(id := db.lastId + 1);
    var db' := db.(users := db.users + [saved], lastId := db.lastId + 1);
    assert db'.Valid();
    Reply(Ok(MapToUserDto(saved)), db')
  }

  /** `updateUser`: a missing user gives NotFound and writes nothing;
      otherwise the carried fields replace the stored ones, saved once. */
  function UpdateUser(db: Db, upd: UpdateUserRequest, userId: int): (out: Reply<UserDto>)
    requires db.Valid()
    ensures out.db.Valid()
    ensures out.result.Err? ==> out.db == db
    ensures out.result == Err(NotFound) <==> FindUser(db.users, userId).None?
    ensures out.result.Ok? ==>
              var updated := UpdateUserFields(FindUser(db.users, userId).value, upd);
              && updated.id == userId
              && out.result.value == UserDto(userId, updated.name, updated.email)
              && out.db.(users := db.users) == db
              && |out.db.users| == |db.users|
              && forall i :: 0 <= i < |db.users| ==>
                   out.db.users[i] == if db.users[i].id == userId then updated else db.users[i]
  {
    match FindUser(db.users, userId)
    case None => Reply(Err(NotFound), db)
    case Some(u) =>
      var updated := UpdateUserFields(u, upd);
      var db' := db.(users := Replace(db.users, (x: User) => x.id == userId, updated));
      assert db'.Valid() by {
        forall x | x in db'.users ensures x.id <= db'.lastId {
          var i :| 0 <= i < |db'.users| && db'.users[i] == x;
        }
      }
      Reply(Ok(MapToUserDto(updated)), db')
  }

  /** `deleteUserById`: a missing user gives NotFound and writes nothing;
      otherwise exactly the rows with that id go, the others stay in order. */
  function DeleteUserById(db: Db, userId: int): (out: Reply<()>)
    requires db.Valid()
    ensures out.db.Valid()
    ensures out.result.Err? ==> out.db == db
    ensures out.result == Err(NotFound) <==> FindUser(db.users, userId).None?
    ensures out.result.Ok? ==>
              && out.db.(users := db.users) == db
              && (forall u :: u in out.db.users <==> u in db.users && u.id != userId)
              && Selects(db.users, out.db.users, (u: User) => u.id != userId)
  {
    match FindUser(db.users, userId)
    case None => Reply(Err(NotFound), db)
    case Some(_) =>
      var rest := Filter(db.users, (u: User) => u.id != userId);
      SelectsMembers(db.users, rest, (u: User) => u.id != userId);
      Reply(Ok(()), db.(users := rest))
  }

  /** After a deletion the user is gone: finding it again gives NotFound. */
  lemma DeletedUserIsNotFound(db: Db, userId: int)
    requires db.Valid()
    requires DeleteUserById(db, userId).result.Ok?
    ensures FindUserById(DeleteUserById(db, userId).db, userId) == Err(NotFound)
  {
  }

  /** A saved user can be found under the id it was given. */
  lemma SavedUserIsFound(db: Db, req: NewUserRequest)
    requires db.Valid()
    ensures var out := SaveUser(db, req);
            FindUserById(out.db, out.db.lastId) == Ok(out.result.value)
  {
    var out := SaveUser(db, req);
    assert out.db.users[|db.users|] == User(out.db.lastId, req.name, req.email);
  }
}
