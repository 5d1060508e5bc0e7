/** The relational database the repositories talk to: one map per table, keyed by
    the row id, and one id sequence per table. */
module Store {
  import opened Common
  import opened Models

  /** A call the database may refuse in one service run: beginning the
      transaction, its n-th write statement (counted from 1), or the commit.
      The set of refused calls stands for driver, connection and constraint
      errors, which the model does not otherwise describe. */
  datatype DbCall = Begin | Write(n: nat) | Commit

  /** The error of a refused call. */
  const Refused := DbError("statement refused by the database")

  /** The contents of all six tables at one moment. */
  datatype Tables = Tables(
    users: map<nat, User>,
    teams: map<nat, Team>,
    members: map<nat, TeamMember>,
    joinRequests: map<nat, JoinRequest>,
    notifications: map<nat, Notification>,
    subscriptions: map<nat, Subscription>)

  /** pgx refuses to scan a row whose column count differs from the number of destinations. */
  function ScanRow(columns: nat, destinations: nat): Outcome {
    if columns == destinations then Pass
    else Fail(DbError("number of field descriptions must equal number of destinations"))
  }

  /** pgx refuses a statement whose placeholder count differs from the number of arguments. */
  function BindArguments(placeholders: nat, arguments: nat): Outcome {
    if placeholders == arguments then Pass
    else Fail(DbError("mismatched param and argument count"))
  }

  class Database {
    var users: map<nat, User>
    var teams: map<nat, Team>
    var members: map<nat, TeamMember>
    var joinRequests: map<nat, JoinRequest>
    var notifications: map<nat, Notification>
    var subscriptions: map<nat, Subscription>

    /** The next value of each table's id sequence. */
    var nextUserId: nat
    var nextTeamId: nat
    var nextMemberId: nat
    var nextJoinRequestId: nat
    var nextNotificationId: nat
    var nextSubscriptionId: nat

    function Snapshot(): Tables
      reads this
    {
      Tables(users, teams, members, joinRequests, notifications, subscriptions)
    }

    /** Every row of `t` is stored under its own id, and every id is one the
        sequences have already handed out. */
    ghost predicate Fits(t: Tables)
      reads this
    {
      && (forall k :: k in t.users ==> 0 < k < nextUserId && t.users[k].id == k)
      && (forall k :: k in t.teams ==> 0 < k < nextTeamId && t.teams[k].id == k)
      && (forall k :: k in t.members ==> 0 < k < nextMemberId && t.members[k].id == k)
      && (forall k :: k in t.joinRequests ==> 0 < k < nextJoinRequestId && t.joinRequests[k].id == k)
      && (forall k :: k in t.notifications ==> 0 < k < nextNotificationId && t.notifications[k].id == k)
      && (forall k :: k in t.subscriptions ==> 0 < k < nextSubscriptionId && t.subscriptions[k].id == k)
    }

    ghost predicate Valid()
      reads this
    {
      && 0 < nextUserId && 0 < nextTeamId && 0 < nextMemberId
      && 0 < nextJoinRequestId && 0 < nextNotificationId && 0 < nextSubscriptionId
      && Fits(Snapshot())
    }

    constructor ()
      ensures Valid()
      ensures Snapshot() == Tables(map[], map[], map[], map[], map[], map[])
    {
      users, teams, members, joinRequests, notifications, subscriptions :=
        map[], map[], map[], map[], map[], map[];
      nextUserId, nextTeamId, nextMemberId := 1, 1, 1;
      nextJoinRequestId, nextNotificationId, nextSubscriptionId := 1, 1, 1;
    }

    /** Undoes a transaction: the tables return to the snapshot taken when it
        began. The sequences keep their values, as database sequences do. */
    method Rollback(tx: Tables)
      requires Valid() && Fits(tx)
      modifies this`users, this`teams, this`members, this`joinRequests, this`notifications, this`subscriptions
      ensures Valid()
      ensures Snapshot() == tx
    {
      users, teams, members := tx.users, tx.teams, tx.members;
      joinRequests, notifications, subscriptions := tx.joinRequests, tx.notifications, tx.subscriptions;
    }
  }
}
