/** Table operations on `users` (internal/repository/user.go). */
module UserRepository {
  import opened Common
  import opened Models
  import opened Store

  /** Some row has Google subject `googleSub`. */
  predicate HasSubject(users: map<nat, User>, googleSub: string) {
    exists k :: k in users && users[k].googleSub == googleSub
  }

  /** INSERT of every field; the new id comes from the sequence. */
  method Create(db: Database, user: User, accepted: bool) returns (r: Result<User>)
    requires db.Valid()
    modifies db`users, db`nextUserId
    ensures db.Valid()
    ensures !accepted ==> r == Err(Refused) && unchanged(db)
    ensures accepted ==>
      && r == Ok(user.(id := old(db.nextUserId)))
      && r.value.id !in old(db.users)
      && db.users == old(db.users)[r.value.id := r.value]
      && db.nextUserId == old(db.nextUserId) + 1
  {
    if !accepted {
      return Err(Refused);
    }
    var id := db.nextUserId;
    db.nextUserId := id + 1;
    db.users := db.users[id := user.(id := id)];
    r := Ok(user.(id := id));
  }

  /** SELECT ... WHERE id = $1. `google_sub` is not selected, so it comes back empty. */
  function GetByID(users: map<nat, User>, id: nat): (r: Result<User>)
    ensures r.Ok? <==> id in users
    ensures r.Ok? ==> r.value == users[id].(googleSub := "")
    ensures r.Err? ==> r.error == AppError("user not found")
  {
    if id in users then Ok(users[id].(googleSub := "")) else Err(AppError("user not found"))
  }

  /** GetByGoogleSubscription as evidently intended: SELECT ... WHERE google_sub = $1
      with every selected column scanned; the first row, which the query leaves
      unspecified. */
  method GetByGoogleSubscription(users: map<nat, User>, googleSub: string) returns (r: Result<User>)
    ensures r.Ok? <==> HasSubject(users, googleSub)
    ensures r.Ok? ==> r.value in users.Values && r.value.googleSub == googleSub
    ensures r.Err? ==> r.error == AppError("user not found")
  {
    if k :| k in users && users[k].googleSub == googleSub {
      r := Ok(users[k]);
    } else {
      r := Err(AppError("user not found"));
    }
  }

  /** GetByGoogleSubscription as written: nine columns are selected and scanned
      into eight destinations (google_sub is missing), which the driver refuses
      whenever a row is found. */
  function GetByGoogleSubscriptionAsWritten(users: map<nat, User>, googleSub: string): (r: Result<User>)
    ensures r.Err?
    ensures !HasSubject(users, googleSub) ==> r.error == AppError("user not found")
  {
    if !HasSubject(users, googleSub) then Err(AppError("user not found"))
    else match ScanRow(9, 8)
      case Fail(e) => Err(e)
      case Pass => Err(AppError("user not found"))
  }

  /** A stored user is never found by its Google subject as written. */
  lemma GetByGoogleSubscriptionAsWrittenMissesStoredUsers(users: map<nat, User>, id: nat)
    requires id in users
    ensures GetByGoogleSubscriptionAsWritten(users, users[id].googleSub)
            == Err(DbError("number of field descriptions must equal number of destinations"))
  {
  }

  /** UPDATE users SET name = $1, cpf_cnpj = $2 WHERE id = $3; every other column
      (Google subject, Stripe customer, provider, consent) stays. */
  method Update(db: Database, id: nat, user: User, accepted: bool) returns (r: Result<nat>)
    requires db.Valid()
    modifies db`users
    ensures db.Valid()
    ensures !accepted ==> r == Err(Refused) && unchanged(db)
    ensures accepted && id !in old(db.users) ==> r == Err(AppError("no user updated")) && unchanged(db)
    ensures accepted && id in old(db.users) ==>
      && r == Ok(1)
      && db.users == old(db.users)[id := old(db.users)[id].(name := user.name, cpfCnpj := user.cpfCnpj)]
  {
    if !accepted {
      return Err(Refused);
    }
    if id !in db.users {
      return Err(AppError("no user updated"));
    }
    db.users := db.users[id := db.users[id].(name := user.name, cpfCnpj := user.cpfCnpj)];
    r := Ok(1);
  }

  /** DELETE FROM users WHERE id = $1; no row deleted returns 0 and no error. */
  method Delete(db: Database, id: nat, accepted: bool) returns (r: Result<nat>)
    requires db.Valid()
    modifies db`users
    ensures db.Valid()
    ensures !accepted ==> r == Err(Refused) && unchanged(db)
    ensures accepted && id !in old(db.users) ==> r == Ok(0) && unchanged(db)
    ensures accepted && id in old(db.users) ==> r == Ok(1) && db.users == old(db.users) - {id}
  {
    if !accepted {
      return Err(Refused);
    }
    if id !in db.users {
      return Ok(0);
    }
    db.users := db.users - {id};
    r := Ok(1);
  }
}
