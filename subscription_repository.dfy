/** Table operations on `subscriptions` (internal/repository/subscription.go). */
module SubscriptionRepository {
  import opened Common
  import opened Models
  import opened Store

  /** The keys of the rows whose external `subscription_id` is `sid`. */
  function RowsWith(subscriptions: map<nat, Subscription>, sid: string): set<nat> {
    set k | k in subscriptions && subscriptions[k].subscriptionId == sid
  }

  /** `subscriptions` with price, status and period end of every row with
      external id `sid` taken from `s`. */
  function Updated(subscriptions: map<nat, Subscription>, sid: string, s: Subscription): map<nat, Subscription> {
    map k | k in subscriptions ::
      if subscriptions[k].subscriptionId == sid
      then subscriptions[k].(priceId := s.priceId, status := s.status, currentPeriodEnd := s.currentPeriodEnd)
      else subscriptions[k]
  }

  /** An update keeps every row's id, user and external id, so it keeps the rows
      matching any external id. */
  lemma {:induction false} UpdatedKeepsRows(subscriptions: map<nat, Subscription>, sid: string, s: Subscription, other: string)
    ensures Updated(subscriptions, sid, s).Keys == subscriptions.Keys
    ensures RowsWith(Updated(subscriptions, sid, s), other) == RowsWith(subscriptions, other)
    ensures forall k :: k in subscriptions ==>
              Updated(subscriptions, sid, s)[k].id == subscriptions[k].id &&
              Updated(subscriptions, sid, s)[k].userId == subscriptions[k].userId
  {
    var u := Updated(subscriptions, sid, s);
    assert forall k :: k in u ==> u[k].subscriptionId == subscriptions[k].subscriptionId;
  }

  /** Inserting a fresh row with external id `sid` adds exactly its key to the
      rows matching `sid`. */
  lemma {:induction false} InsertAddsOneRow(subscriptions: map<nat, Subscription>, k: nat, s: Subscription)
    requires k !in subscriptions
    ensures RowsWith(subscriptions[k := s], s.subscriptionId) == RowsWith(subscriptions, s.subscriptionId) + {k}
    ensures |RowsWith(subscriptions[k := s], s.subscriptionId)| == |RowsWith(subscriptions, s.subscriptionId)| + 1
  {
    var sid := s.subscriptionId;
    assert k !in RowsWith(subscriptions, sid);
    assert RowsWith(subscriptions[k := s], sid) == RowsWith(subscriptions, sid) + {k};
  }

  /** INSERT of every field; the new id comes from the sequence. */
  method Create(db: Database, s: Subscription, accepted: bool) returns (r: Result<Subscription>)
    requires db.Valid()
    modifies db`subscriptions, db`nextSubscriptionId
    ensures db.Valid()
    ensures !accepted ==> r == Err(Refused) && unchanged(db)
    ensures accepted ==>
      && r == Ok(s.(id := old(db.nextSubscriptionId)))
      && r.value.id !in old(db.subscriptions)
      && db.subscriptions == old(db.subscriptions)[r.value.id := r.value]
      && db.nextSubscriptionId == old(db.nextSubscriptionId) + 1
  {
    if !accepted {
      return Err(Refused);
    }
    var id := db.nextSubscriptionId;
    db.nextSubscriptionId := id + 1;
    db.subscriptions := db.subscriptions[id := s.(id := id)];
    r := Ok(s.(id := id));
  }

  /** SELECT ... WHERE subscription_id = $1: the first row, which the query
      leaves unspecified. */
  method GetBySubscriptionID(subscriptions: map<nat, Subscription>, sid: string) returns (r: Result<Subscription>)
    ensures r.Ok? <==> RowsWith(subscriptions, sid) != {}
    ensures r.Ok? ==> r.value in subscriptions.Values && r.value.subscriptionId == sid
    ensures r.Err? ==> r.error == AppError("subscription not found")
  {
    if k :| k in subscriptions && subscriptions[k].subscriptionId == sid {
      assert k in RowsWith(subscriptions, sid);
      r := Ok(subscriptions[k]);
    } else {
      assert RowsWith(subscriptions, sid) == {};
      r := Err(AppError("subscription not found"));
    }
  }

  /** SELECT * ... WHERE id = $1, on the internal id. */
  function GetByID(subscriptions: map<nat, Subscription>, id: nat): (r: Result<Subscription>)
    ensures r.Ok? <==> id in subscriptions
    ensures r.Ok? ==> r.value == subscriptions[id]
    ensures r.Err? ==> r.error == AppError("subscription not found")
  {
    if id in subscriptions then Ok(subscriptions[id]) else Err(AppError("subscription not found"))
  }

  /** What an executed update reports: the number of rows with external id
      `sid`, or the error "no subscription updated" when there are none. */
  function UpdateReport(subscriptions: map<nat, Subscription>, sid: string): Result<nat> {
    if RowsWith(subscriptions, sid) == {} then Err(AppError("no subscription updated"))
    else Ok(|RowsWith(subscriptions, sid)|)
  }

  /** Update as evidently intended: UPDATE ... SET price_id, status,
      current_period_end WHERE subscription_id = $4, with all four values bound.
      Every row with that external id is updated; the count is reported. */
  method Update(db: Database, sid: string, s: Subscription, accepted: bool) returns (r: Result<nat>)
    requires db.Valid()
    modifies db`subscriptions
    ensures db.Valid()
    ensures !accepted ==> r == Err(Refused) && unchanged(db)
    ensures accepted ==> r == UpdateReport(old(db.subscriptions), sid)
    ensures accepted && RowsWith(old(db.subscriptions), sid) == {} ==>
              r == Err(AppError("no subscription updated")) && unchanged(db)
    ensures accepted && RowsWith(old(db.subscriptions), sid) != {} ==>
              && r == Ok(|RowsWith(old(db.subscriptions), sid)|)
              && db.subscriptions == Updated(old(db.subscriptions), sid, s)
  {
    if !accepted {
      return Err(Refused);
    }
    var hits := RowsWith(db.subscriptions, sid);
    if hits == {} {
      return Err(AppError("no subscription updated"));
    }
    UpdatedKeepsRows(db.subscriptions, sid, s, sid);
    db.subscriptions := Updated(db.subscriptions, sid, s);
    r := Ok(|hits|);
  }

  /** The number of values the update's Exec call binds: price_id, status and
      current_period_end, but not the external id for the fourth placeholder. */
  const UpdateArgumentCountAsWritten: nat := 3

  /** Update as written: four placeholders, three arguments, so the driver
      rejects every call before the table is touched. */
  function UpdateAsWritten(subscriptions: map<nat, Subscription>, sid: string, s: Subscription): (r: Result<nat>)
    ensures r == Err(DbError("mismatched param and argument count"))
  {
    match BindArguments(4, UpdateArgumentCountAsWritten)
      case Fail(e) => Err(e)
      case Pass => UpdateReport(subscriptions, sid)
  }

  /** DELETE ... WHERE id = $1, on the internal id; no row deleted returns 0 and no error. */
  method Delete(db: Database, id: nat, accepted: bool) returns (r: Result<nat>)
    requires db.Valid()
    modifies db`subscriptions
    ensures db.Valid()
    ensures !accepted ==> r == Err(Refused) && unchanged(db)
    ensures accepted && id !in old(db.subscriptions) ==> r == Ok(0) && unchanged(db)
    ensures accepted && id in old(db.subscriptions) ==> r == Ok(1) && db.subscriptions == old(db.subscriptions) - {id}
  {
    if !accepted {
      return Err(Refused);
    }
    if id !in db.subscriptions {
      return Ok(0);
    }
    db.subscriptions := db.subscriptions - {id};
    r := Ok(1);
  }
}
