/** UserInMemoryStorage: the earlier storage of users, a map from id to user,
    the set of emails ever registered, and a counter that hands out ids.
    An email enters the set when a user takes it and never leaves. */
module UserMemoryStore {
  import opened Common
  import opened Seqs
  import opened Entities

  datatype Store = Store(users: map<int, User>, emails: set<string>, counter: int)
  {
    /** Every entry sits under its own id, which the counter has handed
        out, and its email is registered. */
    ghost predicate Valid() {
      && counter >= 0
      && forall k :: k in users ==> users[k].id == k && 0 < k <= counter && users[k].email in emails
    }

    /** No two stored users share an email. */
    ghost predicate EmailsUnique() {
      forall j, k :: j in users && k in users && j != k ==> users[j].email != users[k].email
    }
  }

  /** `findAllUsers`: the stored users, in no particular order. */
  function FindAllUsers(s: Store): (r: set<User>)
    ensures forall u :: u in r ==> exists k :: k in s.users && s.users[k] == u
    ensures forall k :: k in s.users ==> s.users[k] in r
  {
    ValuesHaveKeys(s.users);
    s.users.Values
  }

  /** `findUserById`: a copy of the stored user, or nothing. */
  function FindUserById(s: Store, id: int): (r: Option<User>)
    ensures r.None? <==> id !in s.users
    ensures r.Some? ==> r.value.id == s.users[id].id && r.value.name == s.users[id].name
                        && r.value.email == s.users[id].email
  {
    if id in s.users then Some(User(s.users[id].id, s.users[id].name, s.users[id].email)) else None
  }

  /** A result and the store after the call. */
  datatype Outcome = Outcome(result: Result<User>, store: Store)

  /** `addUser`: a new email registers the user under the next id; a known
      email fails and changes nothing. */
  function AddUser(s: Store, u: User): (out: Outcome)
    ensures u.email in s.emails <==> out.result == Err(Duplicate)
    ensures out.result.Err? ==> out.store == s
    ensures out.result.Ok? ==>
              && out.result.value == u.(id := s.counter + 1)
              && out.store.counter == s.counter + 1
              && out.store.emails == s.emails + {u.email}
              && out.store.users == s.users[s.counter + 1 := u.(id := s.counter + 1)]
  {
    if u.email in s.emails then Outcome(Err(Duplicate), s)
    else
      var id := s.counter + 1;
      var stored := u.(id := id);
      Outcome(Ok(stored), Store(s.users[id := stored], s.emails + {u.email}, id))
  }

  /** `updateUser` reads the stored user, so the id must be present. Keeping
      the email always succeeds; moving to a registered email fails and
      changes nothing; moving to a new one registers it and keeps the old. */
  function UpdateUser(s: Store, u: User): (out: Outcome)
    requires u.id in s.users
    ensures u.email == s.users[u.id].email ==> out.result.Ok?
    ensures (out.result == Err(Duplicate)) <==> u.email != s.users[u.id].email && u.email in s.emails
    ensures out.result.Err? ==> out.store == s
    ensures out.result.Ok? ==>
              && out.result.value == u
              && out.store.counter == s.counter
              && out.store.emails == s.emails + (if u.email == s.users[u.id].email then {} else {u.email})
              && out.store.users == s.users[u.id := u]
  {
    var previous := s.users[u.id].email;
    if u.email != previous && u.email in s.emails then Outcome(Err(Duplicate), s)
    else
      var emails := if u.email != previous then s.emails + {u.email} else s.emails;
      Outcome(Ok(u), Store(s.users[u.id := u], emails, s.counter))
  }

  /** `deleteUserById`: true exactly when the id was present; only that
      entry goes, and its email stays registered. */
  function DeleteUserById(s: Store, id: int): (r: (bool, Store))
    ensures r.0 <==> id in s.users
    ensures r.1.users == s.users - {id}
    ensures r.1.emails == s.emails && r.1.counter == s.counter
  {
    (id in s.users, s.(users := s.users - {id}))
  }

  /** Adding keeps the store valid, never reuses an id, and keeps emails unique. */
  lemma AddUserKeepsInvariants(s: Store, u: User)
    requires s.Valid() && s.EmailsUnique()
    ensures AddUser(s, u).result.Ok? ==> AddUser(s, u).result.value.id !in s.users
    ensures AddUser(s, u).store.Valid() && AddUser(s, u).store.EmailsUnique()
  {
  }

  /** Updating an existing user keeps the store valid and emails unique. */
  lemma UpdateUserKeepsInvariants(s: Store, u: User)
    requires s.Valid() && s.EmailsUnique() && u.id in s.users
    ensures UpdateUser(s, u).store.Valid() && UpdateUser(s, u).store.EmailsUnique()
  {
    var out := UpdateUser(s, u);
    if out.result.Ok? {
      forall j, k | j in out.store.users && k in out.store.users && j != k
        ensures out.store.users[j].email != out.store.users[k].email
      {
        if j == u.id || k == u.id {
          var other := if j == u.id then k else j;
          assert out.store.users[other] == s.users[other];
          assert s.users[other].email in s.emails;
          assert s.users[other].email != s.users[u.id].email;
        }
      }
    }
  }

  /** Ids handed out by consecutive successful additions strictly increase. */
  lemma UserIdsIncrease(s: Store, a: User, b: User)
    requires AddUser(s, a).result.Ok?
    requires AddUser(AddUser(s, a).store, b).result.Ok?
    ensures AddUser(AddUser(s, a).store, b).result.value.id > AddUser(s, a).result.value.id
  {
  }

  /** No operation ever removes a registered email. */
  lemma EmailsOnlyGrow(s: Store, u: User, v: User, id: int)
    requires v.id in s.users
    ensures s.emails <= AddUser(s, u).store.emails
    ensures s.emails <= UpdateUser(s, v).store.emails
    ensures s.emails <= DeleteUserById(s, id).1.emails
  {
  }

  /** A deleted user's email stays reserved: nobody can register it again. */
  lemma DeletedEmailStaysReserved(s: Store, id: int, u: User)
    requires s.Valid() && id in s.users
    requires u.email == s.users[id].email
    ensures AddUser(DeleteUserById(s, id).1, u).result == Err(Duplicate)
  {
  }

  /** An email given up in an update stays reserved too. */
  lemma ReplacedEmailStaysReserved(s: Store, v: User, u: User)
    requires s.Valid() && v.id in s.users
    requires UpdateUser(s, v).result.Ok?
    requires u.email == s.users[v.id].email
    ensures AddUser(UpdateUser(s, v).store, u).result == Err(Duplicate)
  {
  }

  /** What was added reads back. */
  lemma AddThenFindUser(s: Store, u: User)
    requires AddUser(s, u).result.Ok?
    ensures FindUserById(AddUser(s, u).store, s.counter + 1) == Some(u.(id := s.counter + 1))
  {
  }
}
