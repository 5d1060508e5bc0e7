/** Notification use cases (internal/services/notifications.go): a user reads
    and deletes only the notifications addressed to them. */
module NotificationServices {
  import opened Common
  import opened Models
  import opened Store
  import NotificationRepository

  /** Lists the caller's notifications; asking for another user's is refused. */
  method GetAll(notifications: map<nat, Notification>, requestUserId: nat, userId: nat)
    returns (r: Result<seq<Notification>>)
    requires NotificationRepository.Keyed(notifications)
    ensures requestUserId != userId ==> r == Err(AppError("you can only see your own notifications"))
    ensures requestUserId == userId && NotificationRepository.ReceivedBy(notifications, userId) == {} ==>
              r == Err(AppError("no notifications found"))
    ensures r.Ok? <==> requestUserId == userId && NotificationRepository.ReceivedBy(notifications, userId) != {}
    ensures r.Ok? ==>
      && |r.value| == |NotificationRepository.ReceivedBy(notifications, requestUserId)|
      && (forall k :: k in NotificationRepository.ReceivedBy(notifications, requestUserId) ==> notifications[k] in r.value)
      && (forall x :: x in r.value ==>
            x.id in NotificationRepository.ReceivedBy(notifications, requestUserId) && notifications[x.id] == x &&
            x.receiverId == requestUserId)
      && (forall i, j :: 0 <= i < j < |r.value| ==> r.value[i] != r.value[j])
  {
    if requestUserId != userId {
      return Err(AppError("you can only see your own notifications"));
    }
    r := NotificationRepository.GetAll(notifications, userId);
  }

  /** Reads one of the caller's notifications. */
  function GetByID(notifications: map<nat, Notification>, requestUserId: nat, userId: nat, notificationId: nat)
    : (r: Result<Notification>)
    ensures r.Ok? <==> requestUserId == userId && NotificationRepository.Matches(notifications, userId, notificationId)
    ensures r.Ok? ==> r.value == notifications[notificationId] && r.value.receiverId == requestUserId
    ensures requestUserId != userId ==> r == Err(AppError("you can only see your own notifications"))
    ensures requestUserId == userId && !NotificationRepository.Matches(notifications, userId, notificationId) ==>
              r == Err(AppError("notification not found"))
  {
    if requestUserId != userId then Err(AppError("you can only see your own notifications"))
    else NotificationRepository.GetByID(notifications, userId, notificationId)
  }

  /** Deletes one of the caller's notifications in a transaction. The
      ownership check comes before the transaction is opened. */
  method Delete(db: Database, requestUserId: nat, userId: nat, notificationId: nat, refused: set<DbCall>)
    returns (r: Result<nat>)
    requires db.Valid()
    modifies db
    ensures db.Valid()
    ensures requestUserId != userId ==> r == Err(AppError("you can only delete your own notifications"))
    ensures r.Ok? <==>
              requestUserId == userId && Begin !in refused && Write(1) !in refused &&
              NotificationRepository.Matches(old(db.notifications), userId, notificationId) && Commit !in refused
    ensures requestUserId == userId && Begin !in refused && Write(1) !in refused &&
            !NotificationRepository.Matches(old(db.notifications), userId, notificationId) ==>
              r == Err(AppError("no notification deleted"))
    ensures r.Err? ==> db.Snapshot() == old(db.Snapshot())
    ensures r.Ok? ==>
              r.value == 1 &&
              db.Snapshot() == old(db.Snapshot()).(notifications := old(db.notifications) - {notificationId})
  {
    if requestUserId != userId {
      return Err(AppError("you can only delete your own notifications"));
    }
    if Begin in refused {
      return Err(Refused);
    }
    var tx := db.Snapshot();
    var affected := NotificationRepository.Delete(db, userId, notificationId, Write(1) !in refused);
    if affected.Err? {
      db.Rollback(tx);
      return Err(affected.error);
    }
    if Commit in refused {
      db.Rollback(tx);
      return Err(Refused);
    }
    r := affected;
  }
}
