/** Table operations on `notifications` (internal/repository/notifications.go).
    Every read and delete is scoped to the receiving user. */
module NotificationRepository {
  import opened Common
  import opened Models
  import opened Store

  /** The keys of the notifications addressed to `userId`. */
  function ReceivedBy(notifications: map<nat, Notification>, userId: nat): set<nat> {
    set k | k in notifications && notifications[k].receiverId == userId
  }

  /** Row `id` exists and is addressed to `userId`. */
  predicate Matches(notifications: map<nat, Notification>, userId: nat, id: nat) {
    id in notifications && notifications[id].receiverId == userId
  }

  /** Builds the notice of a join request (from its sender, to the team owner,
      referring to the request, unseen) and inserts it with a fresh id. */
  method CreateByJoinRequest(db: Database, request: JoinRequest, accepted: bool) returns (r: Result<Notification>)
    requires db.Valid()
    modifies db`notifications, db`nextNotificationId
    ensures db.Valid()
    ensures !accepted ==> r == Err(Refused) && unchanged(db)
    ensures accepted ==>
      && r.Ok?
      && r.value == Notification(old(db.nextNotificationId), request.senderId, request.teamOwnerId,
                                 JoinRequestNotification, request.id, false)
      && r.value.id !in old(db.notifications)
      && db.notifications == old(db.notifications)[r.value.id := r.value]
      && db.nextNotificationId == old(db.nextNotificationId) + 1
  {
    var notification := Notification(0, request.senderId, request.teamOwnerId, JoinRequestNotification, request.id, false);
    if !accepted {
      return Err(Refused);
    }
    var id := db.nextNotificationId;
    db.nextNotificationId := id + 1;
    notification := notification.(id := id);
    db.notifications := db.notifications[id := notification];
    r := Ok(notification);
  }

  /** Every row is stored under its own id, as in the table. */
  predicate Keyed(notifications: map<nat, Notification>) {
    forall k :: k in notifications ==> notifications[k].id == k
  }

  /** `rows` holds, once each and under their own ids, the rows stored under the keys in `done`. */
  ghost predicate Listing(notifications: map<nat, Notification>, rows: seq<Notification>, done: set<nat>) {
    && (forall k :: k in done ==> k in notifications && notifications[k] in rows)
    && (forall i :: 0 <= i < |rows| ==> rows[i].id in done && rows[i].id in notifications && rows[i] == notifications[rows[i].id])
    && (forall i, j :: 0 <= i < j < |rows| ==> rows[i].id != rows[j].id)
  }

  /** Appending the row of a key not yet listed keeps the listing. */
  lemma AppendKeepsListing(notifications: map<nat, Notification>, rows: seq<Notification>, done: set<nat>, k: nat)
    requires Keyed(notifications) && k in notifications && k !in done
    requires Listing(notifications, rows, done)
    ensures Listing(notifications, rows + [notifications[k]], done + {k})
  {
  }

  /** SELECT ... WHERE receiver_id = $1, appending each row; an empty result is
      the error "no notifications found". */
  method GetAll(notifications: map<nat, Notification>, userId: nat) returns (r: Result<seq<Notification>>)
    requires Keyed(notifications)
    ensures r.Err? <==> ReceivedBy(notifications, userId) == {}
    ensures r.Err? ==> r.error == AppError("no notifications found")
    ensures r.Ok? ==> |r.value| == |ReceivedBy(notifications, userId)|
    ensures r.Ok? ==> forall k :: k in ReceivedBy(notifications, userId) ==> notifications[k] in r.value
    ensures r.Ok? ==> forall x :: x in r.value ==> x.id in ReceivedBy(notifications, userId) && notifications[x.id] == x
    ensures r.Ok? ==> forall i, j :: 0 <= i < j < |r.value| ==> r.value[i] != r.value[j]
  {
    var todo := ReceivedBy(notifications, userId);
    ghost var done: set<nat> := {};
    var rows: seq<Notification> := [];
    while todo != {}
      invariant forall k :: k in done ==> k in ReceivedBy(notifications, userId)
      invariant forall k :: k in todo <==> k in ReceivedBy(notifications, userId) && k !in done
      invariant |rows| == |done|
      invariant Listing(notifications, rows, done)
      decreases |todo|
    {
      var k :| k in todo;
      AppendKeepsListing(notifications, rows, done, k);
      rows := rows + [notifications[k]];
      todo, done := todo - {k}, done + {k};
    }
    assert done == ReceivedBy(notifications, userId);
    if |rows| < 1 {
      return Err(AppError("no notifications found"));
    }
    r := Ok(rows);
  }

  /** SELECT ... WHERE id = $1 AND receiver_id = $2. */
  function GetByID(notifications: map<nat, Notification>, userId: nat, id: nat): (r: Result<Notification>)
    ensures r.Ok? <==> Matches(notifications, userId, id)
    ensures r.Ok? ==> r.value == notifications[id] && r.value.receiverId == userId
    ensures r.Err? ==> r.error == AppError("notification not found")
  {
    if Matches(notifications, userId, id) then Ok(notifications[id]) else Err(AppError("notification not found"))
  }

  /** DELETE ... WHERE id = $1 AND receiver_id = $2; no row deleted is an error. */
  method Delete(db: Database, userId: nat, id: nat, accepted: bool) returns (r: Result<nat>)
    requires db.Valid()
    modifies db`notifications
    ensures db.Valid()
    ensures !accepted ==> r == Err(Refused) && unchanged(db)
    ensures accepted && !Matches(old(db.notifications), userId, id) ==>
              r == Err(AppError("no notification deleted")) && unchanged(db)
    ensures accepted && Matches(old(db.notifications), userId, id) ==>
              r == Ok(1) && db.notifications == old(db.notifications) - {id}
  {
    if !accepted {
      return Err(Refused);
    }
    if !Matches(db.notifications, userId, id) {
      return Err(AppError("no notification deleted"));
    }
    db.notifications := db.notifications - {id};
    r := Ok(1);
  }
}
