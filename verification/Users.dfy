/** src/users/users.service.ts: unique user names. */
module Users {
  import opened Common
  import opened Schema

  predicate NameTaken(db: Db, userName: string) {
    exists u :: u in db.users && db.users[u].userName == userName
  }

  // The one user of that name.
  ghost function UserNamed(db: Db, userName: string): (r: Option<UserId>)
    ensures r.Some? <==> NameTaken(db, userName)
    ensures r.Some? ==> r.value in db.users && db.users[r.value].userName == userName
  {
    if NameTaken(db, userName) then
      var u :| u in db.users && db.users[u].userName == userName;
      Some(u)
    else None
  }

  method GetUserByUsername(store: Store, userName: string) returns (r: Result<UserId>)
    ensures r.Ok? <==> NameTaken(store.State(), userName)
    ensures r.Ok? ==> r.value in store.users && store.users[r.value].userName == userName
    ensures r.Ok? && UniqueColumns(store.State()) ==> UserNamed(store.State(), userName) == Some(r.value)
    ensures r.Err? ==> r.error == NotInDB
  {
    if u :| u in store.users && store.users[u].userName == userName {
      return Ok(u);
    }
    return Err(NotInDB);
  }

  // `userRepository.save` of a new user, under a fresh id: the unique column refuses a taken name.
  function CreateUserStep(db: Db, id: UserId, userName: string, displayName: string): Step<UserId> {
    if NameTaken(db, userName) then Step(db, Err(AlreadyInDB))
    else Step(db.(users := db.users[id := User(userName, displayName)]), Ok(id))
  }

  method CreateUser(store: Store, id: UserId, userName: string, displayName: string) returns (r: Result<UserId>)
    requires id !in store.users
    modifies store`users
    ensures Step(store.State(), r) == CreateUserStep(old(store.State()), id, userName, displayName)
  {
    if exists u :: u in store.users && store.users[u].userName == userName {
      return Err(AlreadyInDB);
    }
    store.users := store.users[id := User(userName, displayName)];
    return Ok(id);
  }

  // A user is created exactly if nobody has the name, with the names as given; nothing else changes,
  // and a refusal changes nothing.
  lemma CreateUserIff(db: Db, id: UserId, userName: string, displayName: string)
    requires id !in db.users
    ensures var step := CreateUserStep(db, id, userName, displayName);
            && (step.result.Ok? <==> forall u :: u in db.users ==> db.users[u].userName != userName)
            && (step.result.Err? ==> step == Step(db, Err(AlreadyInDB)))
            && (step.result.Ok? ==>
                  && step.result.value == id
                  && step.db == db.(users := step.db.users)
                  && step.db.users.Keys == db.users.Keys + {id}
                  && step.db.users[id].userName == userName
                  && step.db.users[id].displayName == displayName
                  && (forall u :: u in db.users ==> step.db.users[u] == db.users[u]))
  {
  }

  // Then that name, and no other, leads to the new user.
  lemma NewUserIsFound(db: Db, id: UserId, userName: string, displayName: string, name: string)
    requires id !in db.users && CreateUserStep(db, id, userName, displayName).result.Ok?
    ensures UserNamed(CreateUserStep(db, id, userName, displayName).db, name) == Some(id) <==> name == userName
  {
    var after := CreateUserStep(db, id, userName, displayName).db;
    assert after.users[id].userName == userName;
    if name == userName {
      assert NameTaken(after, name);
      var u := UserNamed(after, name).value;
      assert u == id || u in db.users;
    }
  }

  lemma MoreUsersKeepLinks(db: Db, users: map<UserId, User>)
    requires Linked(db) && db.users.Keys <= users.Keys
    ensures Linked(db.(users := users))
  {
  }

  lemma AddNameKeepsUnique(users: map<UserId, User>, id: UserId, user: User)
    requires UniqueNames(users) && forall u :: u in users ==> users[u].userName != user.userName
    ensures UniqueNames(users[id := user])
  {
  }

  lemma CreateUserKeeps(db: Db, id: UserId, userName: string, displayName: string)
    requires id !in db.users && Consistent(db)
    ensures Consistent(CreateUserStep(db, id, userName, displayName).db)
  {
    if !NameTaken(db, userName) {
      var user := User(userName, displayName);
      AddNameKeepsUnique(db.users, id, user);
      MoreUsersKeepLinks(db, db.users[id := user]);
    }
  }
}
