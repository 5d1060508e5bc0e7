/** User use cases (internal/services/users.go). */
module UserServices {
  import opened Common
  import opened Models
  import opened Store
  import UserModel
  import UserRepository

  /** Validates the user for step "create" and stores it, in one transaction. */
  method Create(db: Database, user: User, refused: set<DbCall>) returns (r: Result<User>)
    requires db.Valid()
    modifies db
    ensures db.Valid()
    ensures r.Ok? <==>
              Begin !in refused && UserModel.ValidateUser(user, "create") == Pass &&
              Write(1) !in refused && Commit !in refused
    ensures Begin !in refused && UserModel.ValidateUser(user, "create").Fail? ==>
              r == Err(UserModel.ValidateUser(user, "create").error)
    ensures r.Err? ==> db.Snapshot() == old(db.Snapshot())
    ensures r.Ok? ==>
      && user.googleSub != "" && user.name != "" && user.authProvider in {0, 1}
      && r.value == user.(id := r.value.id)
      && r.value.id !in old(db.users)
      && db.Snapshot() == old(db.Snapshot()).(users := old(db.users)[r.value.id := r.value])
  {
    if Begin in refused {
      return Err(Refused);
    }
    var tx := db.Snapshot();
    var valid := UserModel.ValidateUser(user, "create");
    if valid.Fail? {
      db.Rollback(tx);
      return Err(valid.error);
    }
    var created := UserRepository.Create(db, user, Write(1) !in refused);
    if created.Err? {
      db.Rollback(tx);
      return Err(created.error);
    }
    if Commit in refused {
      db.Rollback(tx);
      return Err(Refused);
    }
    r := created;
  }

  /** Reads a user by id; the Google subject is not returned. */
  function GetByID(users: map<nat, User>, userId: nat): (r: Result<User>)
    ensures r.Ok? <==> userId in users
    ensures r.Ok? ==> r.value == users[userId].(googleSub := "")
    ensures r.Err? ==> r.error == AppError("user not found")
  {
    UserRepository.GetByID(users, userId)
  }

  /** Changes the caller's own name and CPF/CNPJ. Validation for step "update"
      accepts every user, so empty values are stored as given. */
  method Update(db: Database, userId: nat, requestUserId: nat, user: User, refused: set<DbCall>) returns (r: Result<nat>)
    requires db.Valid()
    modifies db
    ensures db.Valid()
    ensures Begin !in refused && userId != requestUserId ==> r == Err(AppError("Only the owner can update the user"))
    ensures r.Ok? <==>
              Begin !in refused && userId == requestUserId && userId in old(db.users) &&
              Write(1) !in refused && Commit !in refused
    ensures Begin !in refused && userId == requestUserId && Write(1) !in refused && userId !in old(db.users) ==>
              r == Err(AppError("no user updated"))
    ensures r.Err? ==> db.Snapshot() == old(db.Snapshot())
    ensures r.Ok? ==>
      && r.value == 1
      && db.Snapshot() == old(db.Snapshot()).(users :=
           old(db.users)[userId := old(db.users)[userId].(name := user.name, cpfCnpj := user.cpfCnpj)])
  {
    if Begin in refused {
      return Err(Refused);
    }
    var tx := db.Snapshot();
    if userId != requestUserId {
      db.Rollback(tx);
      return Err(AppError("Only the owner can update the user"));
    }
    var valid := UserModel.ValidateUser(user, "update");
    if valid.Fail? {
      // Step "update" passes every user.
      assert false;
    }
    var affected := UserRepository.Update(db, userId, user, Write(1) !in refused);
    if affected.Err? {
      db.Rollback(tx);
      return Err(affected.error);
    }
    if Commit in refused {
      db.Rollback(tx);
      return Err(Refused);
    }
    r := affected;
  }

  /** Deletes the caller's own user. When the transaction cannot be opened,
      the result is zero rows and no error. */
  method Delete(db: Database, userId: nat, requestUserId: nat, refused: set<DbCall>) returns (r: Result<nat>)
    requires db.Valid()
    modifies db
    ensures db.Valid()
    ensures Begin in refused ==> r == Ok(0) && db.Snapshot() == old(db.Snapshot())
    ensures Begin !in refused && userId != requestUserId ==> r == Err(AppError("Only the owner can delete the user"))
    ensures Begin !in refused ==>
              (r.Ok? <==> userId == requestUserId && Write(1) !in refused && Commit !in refused)
    ensures r.Err? ==> db.Snapshot() == old(db.Snapshot())
    ensures Begin !in refused && r.Ok? ==>
              && r.value == (if userId in old(db.users) then 1 else 0)
              && db.Snapshot() == old(db.Snapshot()).(users := old(db.users) - {userId})
  {
    if Begin in refused {
      return Ok(0);
    }
    var tx := db.Snapshot();
    if userId != requestUserId {
      db.Rollback(tx);
      return Err(AppError("Only the owner can delete the user"));
    }
    var affected := UserRepository.Delete(db, userId, Write(1) !in refused);
    if affected.Err? {
      db.Rollback(tx);
      return Err(affected.error);
    }
    if Commit in refused {
      db.Rollback(tx);
      return Err(Refused);
    }
    r := affected;
  }
}
