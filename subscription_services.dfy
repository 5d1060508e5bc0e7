/** Subscription use cases (internal/services/subscriptions.go): the records
    that mirror the payment provider's subscriptions, keyed on the provider's
    subscription id. */
module SubscriptionServices {
  import opened Common
  import opened Models
  import opened Store
  import SubscriptionRepository

  /** At most one row per external subscription id: the invariant that
      UpsertSubscription keeps. */
  ghost predicate UniqueExternalIds(subscriptions: map<nat, Subscription>) {
    forall j, k ::
      j in subscriptions && k in subscriptions && subscriptions[j].subscriptionId == subscriptions[k].subscriptionId ==> j == k
  }

  /** Stores a new subscription in one transaction; an empty external id is
      refused before the transaction opens. */
  method Create(db: Database, s: Subscription, refused: set<DbCall>) returns (r: Result<Subscription>)
    requires db.Valid()
    modifies db
    ensures db.Valid()
    ensures s.subscriptionId == "" ==> r == Err(AppError("subscription_id is required"))
    ensures r.Ok? <==> s.subscriptionId != "" && Begin !in refused && Write(1) !in refused && Commit !in refused
    ensures r.Err? ==> db.Snapshot() == old(db.Snapshot())
    ensures r.Ok? ==>
      && r.value == s.(id := r.value.id)
      && r.value.id !in old(db.subscriptions)
      && db.Snapshot() == old(db.Snapshot()).(subscriptions := old(db.subscriptions)[r.value.id := r.value])
  {
    if s.subscriptionId == "" {
      return Err(AppError("subscription_id is required"));
    }
    if Begin in refused {
      return Err(Refused);
    }
    var tx := db.Snapshot();
    var created := SubscriptionRepository.Create(db, s, Write(1) !in refused);
    if created.Err? {
      db.Rollback(tx);
      return Err(created.error);
    }
    if Commit in refused {
      db.Rollback(tx);
      return Err(Refused);
    }
    r := created;
  }

  /** Copies price, status and period end of `s` into every row with external
      id `sid`, in one transaction. */
  method Update(db: Database, sid: string, s: Subscription, refused: set<DbCall>) returns (r: Result<nat>)
    requires db.Valid()
    modifies db
    ensures db.Valid()
    ensures r.Ok? <==>
              Begin !in refused && Write(1) !in refused && Commit !in refused &&
              SubscriptionRepository.RowsWith(old(db.subscriptions), sid) != {}
    ensures Begin !in refused && Write(1) !in refused && SubscriptionRepository.RowsWith(old(db.subscriptions), sid) == {} ==>
              r == Err(AppError("no subscription updated"))
    ensures r.Err? ==> db.Snapshot() == old(db.Snapshot())
    ensures r.Ok? ==>
      && r.value == |SubscriptionRepository.RowsWith(old(db.subscriptions), sid)|
      && db.Snapshot() == old(db.Snapshot()).(subscriptions := SubscriptionRepository.Updated(old(db.subscriptions), sid, s))
  {
    if Begin in refused {
      return Err(Refused);
    }
    var tx := db.Snapshot();
    var affected := SubscriptionRepository.Update(db, sid, s, Write(1) !in refused);
    if affected.Err? {
      db.Rollback(tx);
      return Err(affected.error);
    }
    if Commit in refused {
      db.Rollback(tx);
      return Err(Refused);
    }
    r := affected;
  }

  /** Update over the statement as written (SubscriptionRepository.UpdateAsWritten):
      the driver refuses it, so the transaction is rolled back on every call and
      the commit is never reached. */
  method UpdateAsWritten(db: Database, sid: string, s: Subscription, refused: set<DbCall>) returns (r: Result<nat>)
    requires db.Valid()
    modifies db
    ensures db.Valid()
    ensures Begin in refused ==> r == Err(Refused)
    ensures Begin !in refused ==> r == Err(DbError("mismatched param and argument count"))
    ensures db.Snapshot() == old(db.Snapshot())
  {
    if Begin in refused {
      return Err(Refused);
    }
    var tx := db.Snapshot();
    var affected := SubscriptionRepository.UpdateAsWritten(db.subscriptions, sid, s);
    if affected.Err? {
      db.Rollback(tx);
      return Err(affected.error);
    }
    // The statement is refused on every call.
    assert false;
  }

  /** Deletes the row with internal id `id`. When the transaction cannot be
      opened, the result is zero rows and no error. */
  method Delete(db: Database, id: nat, refused: set<DbCall>) returns (r: Result<nat>)
    requires db.Valid()
    modifies db
    ensures db.Valid()
    ensures Begin in refused ==> r == Ok(0) && db.Snapshot() == old(db.Snapshot())
    ensures Begin !in refused ==> (r.Ok? <==> Write(1) !in refused && Commit !in refused)
    ensures r.Err? ==> db.Snapshot() == old(db.Snapshot())
    ensures Begin !in refused && r.Ok? ==>
              && r.value == (if id in old(db.subscriptions) then 1 else 0)
              && db.Snapshot() == old(db.Snapshot()).(subscriptions := old(db.subscriptions) - {id})
  {
    if Begin in refused {
      return Ok(0);
    }
    var tx := db.Snapshot();
    var affected := SubscriptionRepository.Delete(db, id, Write(1) !in refused);
    if affected.Err? {
      db.Rollback(tx);
      return Err(affected.error);
    }
    if Commit in refused {
      db.Rollback(tx);
      return Err(Refused);
    }
    r := affected;
  }

  /** Updating rows keeps every row's external id, so it keeps uniqueness. */
  lemma UpdatedKeepsUnique(subscriptions: map<nat, Subscription>, sid: string, s: Subscription)
    requires UniqueExternalIds(subscriptions)
    ensures UniqueExternalIds(SubscriptionRepository.Updated(subscriptions, sid, s))
  {
    var u := SubscriptionRepository.Updated(subscriptions, sid, s);
    forall j, k | j in u && k in u && u[j].subscriptionId == u[k].subscriptionId
      ensures j == k
    {
      assert u[j].subscriptionId == subscriptions[j].subscriptionId;
      assert u[k].subscriptionId == subscriptions[k].subscriptionId;
    }
  }

  /** Inserting a row whose external id no row has yet keeps uniqueness. */
  lemma InsertKeepsUnique(subscriptions: map<nat, Subscription>, k: nat, s: Subscription)
    requires UniqueExternalIds(subscriptions)
    requires k !in subscriptions
    requires SubscriptionRepository.RowsWith(subscriptions, s.subscriptionId) == {}
    ensures UniqueExternalIds(subscriptions[k := s])
  {
    forall i | i in subscriptions
      ensures subscriptions[i].subscriptionId != s.subscriptionId
    {
      assert i !in SubscriptionRepository.RowsWith(subscriptions, s.subscriptionId);
    }
  }

  /** Updates the rows carrying `s`'s external id when there is one, and
      creates `s` otherwise. The lookup reads outside the update's
      transaction. */
  method UpsertSubscription(db: Database, s: Subscription, refused: set<DbCall>) returns (r: Outcome)
    requires db.Valid()
    modifies db
    ensures db.Valid()
    ensures UniqueExternalIds(old(db.subscriptions)) ==> UniqueExternalIds(db.subscriptions)
    ensures r == Pass && SubscriptionRepository.RowsWith(old(db.subscriptions), s.subscriptionId) != {} ==>
              SubscriptionRepository.RowsWith(db.subscriptions, s.subscriptionId) ==
              SubscriptionRepository.RowsWith(old(db.subscriptions), s.subscriptionId)
    ensures r == Pass && SubscriptionRepository.RowsWith(old(db.subscriptions), s.subscriptionId) == {} ==>
              |SubscriptionRepository.RowsWith(db.subscriptions, s.subscriptionId)| == 1
    ensures |SubscriptionRepository.RowsWith(old(db.subscriptions), s.subscriptionId)| <= 1 ==>
              |SubscriptionRepository.RowsWith(db.subscriptions, s.subscriptionId)| <= 1
    ensures r == Pass <==>
              Begin !in refused && Write(1) !in refused && Commit !in refused &&
              (SubscriptionRepository.RowsWith(old(db.subscriptions), s.subscriptionId) != {} || s.subscriptionId != "")
    ensures r.Fail? ==> db.Snapshot() == old(db.Snapshot())
    ensures r == Pass && SubscriptionRepository.RowsWith(old(db.subscriptions), s.subscriptionId) != {} ==>
              db.Snapshot() == old(db.Snapshot()).(subscriptions :=
                SubscriptionRepository.Updated(old(db.subscriptions), s.subscriptionId, s))
    ensures r == Pass && SubscriptionRepository.RowsWith(old(db.subscriptions), s.subscriptionId) == {} ==>
              exists k :: k !in old(db.subscriptions) &&
                db.Snapshot() == old(db.Snapshot()).(subscriptions := old(db.subscriptions)[k := s.(id := k)])
  {
    var existing := SubscriptionRepository.GetBySubscriptionID(db.subscriptions, s.subscriptionId);
    if existing.Ok? {
      ghost var before := db.subscriptions;
      var updated := Update(db, existing.value.subscriptionId, s, refused);
      if updated.Err? {
        return Fail(updated.error);
      }
      SubscriptionRepository.UpdatedKeepsRows(before, s.subscriptionId, s, s.subscriptionId);
      if UniqueExternalIds(before) {
        UpdatedKeepsUnique(before, s.subscriptionId, s);
      }
      return Pass;
    }
    ghost var before := db.subscriptions;
    var created := Create(db, s, refused);
    if created.Err? {
      return Fail(created.error);
    }
    SubscriptionRepository.InsertAddsOneRow(before, created.value.id, created.value);
    if UniqueExternalIds(before) {
      InsertKeepsUnique(before, created.value.id, created.value);
    }
    r := Pass;
  }

  /** UpsertSubscription over the update as written: when a row already carries
      the external id, the upsert fails and the tables are left as they were;
      otherwise it creates the record as UpsertSubscription does. */
  method UpsertSubscriptionAsWritten(db: Database, s: Subscription, refused: set<DbCall>) returns (r: Outcome)
    requires db.Valid()
    modifies db
    ensures db.Valid()
    ensures UniqueExternalIds(old(db.subscriptions)) ==> UniqueExternalIds(db.subscriptions)
    ensures SubscriptionRepository.RowsWith(old(db.subscriptions), s.subscriptionId) != {} ==>
              r.Fail? && db.Snapshot() == old(db.Snapshot())
    ensures SubscriptionRepository.RowsWith(old(db.subscriptions), s.subscriptionId) != {} && Begin !in refused ==>
              r == Fail(DbError("mismatched param and argument count"))
    ensures SubscriptionRepository.RowsWith(old(db.subscriptions), s.subscriptionId) == {} ==>
              (r == Pass <==> Begin !in refused && Write(1) !in refused && Commit !in refused && s.subscriptionId != "")
    ensures r.Fail? ==> db.Snapshot() == old(db.Snapshot())
    ensures r == Pass ==>
              exists k :: k !in old(db.subscriptions) &&
                db.Snapshot() == old(db.Snapshot()).(subscriptions := old(db.subscriptions)[k := s.(id := k)])
  {
    var existing := SubscriptionRepository.GetBySubscriptionID(db.subscriptions, s.subscriptionId);
    if existing.Ok? {
      var updated := UpdateAsWritten(db, existing.value.subscriptionId, s, refused);
      return Fail(updated.error);
    }
    ghost var before := db.subscriptions;
    var created := Create(db, s, refused);
    if created.Err? {
      return Fail(created.error);
    }
    if UniqueExternalIds(before) {
      InsertKeepsUnique(before, created.value.id, created.value);
    }
    r := Pass;
  }

  /** Where external ids are unique, an external id that some row carries is
      carried by exactly one row; so after a successful upsert from such a
      state, GetBySubscriptionID has one row to choose. */
  lemma UpsertLeavesOneRow(after: map<nat, Subscription>, sid: string)
    requires UniqueExternalIds(after)
    requires SubscriptionRepository.RowsWith(after, sid) != {}
    ensures |SubscriptionRepository.RowsWith(after, sid)| == 1
  {
    var k :| k in SubscriptionRepository.RowsWith(after, sid);
    assert SubscriptionRepository.RowsWith(after, sid) == {k};
  }
}
