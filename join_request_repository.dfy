/** Table operations on `teamjoinrequests` (internal/repository/joinRequest.go). */
module JoinRequestRepository {
  import opened Common
  import opened Models
  import opened Store

  /** Every row is stored under its own id, as in the table. */
  predicate Keyed(requests: map<nat, JoinRequest>) {
    forall k :: k in requests ==> requests[k].id == k
  }

  /** The keys of the rows whose `team_id` is `teamId`. */
  function OfTeam(requests: map<nat, JoinRequest>, teamId: nat): set<nat> {
    set k | k in requests && requests[k].teamId == teamId
  }

  /** `requests` with the decision written on row `id`. */
  function Decided(requests: map<nat, JoinRequest>, id: nat, status: nat, decider: nat): map<nat, JoinRequest>
    requires id in requests
  {
    requests[id := requests[id].(status := status, decisionBy := Some(decider))]
  }

  /** The matching row, if any, of a statement filtered by `id` and `team_id`. */
  predicate Matches(requests: map<nat, JoinRequest>, id: nat, teamId: nat) {
    id in requests && requests[id].teamId == teamId
  }

  /** INSERT of team, owner, sender and status; the new id comes from the sequence.
      The stored row has no decision yet; the returned value is the input with its id. */
  method Create(db: Database, request: JoinRequest, accepted: bool) returns (r: Result<JoinRequest>)
    requires db.Valid()
    modifies db`joinRequests, db`nextJoinRequestId
    ensures db.Valid()
    ensures !accepted ==> r == Err(Refused) && unchanged(db)
    ensures accepted ==>
      && r == Ok(request.(id := old(db.nextJoinRequestId)))
      && r.value.id !in old(db.joinRequests)
      && db.joinRequests == old(db.joinRequests)[r.value.id := request.(id := r.value.id, decisionBy := None)]
      && db.nextJoinRequestId == old(db.nextJoinRequestId) + 1
  {
    if !accepted {
      return Err(Refused);
    }
    var id := db.nextJoinRequestId;
    db.nextJoinRequestId := id + 1;
    db.joinRequests := db.joinRequests[id := request.(id := id, decisionBy := None)];
    r := Ok(request.(id := id));
  }

  /** `rows` holds, once each and under their own ids, the rows stored under the keys in `done`. */
  ghost predicate Listing(requests: map<nat, JoinRequest>, rows: seq<JoinRequest>, done: set<nat>) {
    && (forall k :: k in done ==> k in requests && requests[k] in rows)
    && (forall i :: 0 <= i < |rows| ==> rows[i].id in done && rows[i].id in requests && rows[i] == requests[rows[i].id])
    && (forall i, j :: 0 <= i < j < |rows| ==> rows[i].id != rows[j].id)
  }

  /** Appending the row of a key not yet listed keeps the listing. */
  lemma AppendKeepsListing(requests: map<nat, JoinRequest>, rows: seq<JoinRequest>, done: set<nat>, k: nat)
    requires Keyed(requests) && k in requests && k !in done
    requires Listing(requests, rows, done)
    ensures Listing(requests, rows + [requests[k]], done + {k})
  {
  }

  /** SELECT ... WHERE team_id = $1, appending each row in turn. */
  method GetAll(requests: map<nat, JoinRequest>, teamId: nat) returns (rows: seq<JoinRequest>)
    requires Keyed(requests)
    ensures |rows| == |OfTeam(requests, teamId)|
    ensures forall k :: k in OfTeam(requests, teamId) ==> requests[k] in rows
    ensures forall x :: x in rows ==> x.id in OfTeam(requests, teamId) && requests[x.id] == x
    ensures forall i, j :: 0 <= i < j < |rows| ==> rows[i] != rows[j]
  {
    var todo := OfTeam(requests, teamId);
    ghost var done: set<nat> := {};
    rows := [];
    while todo != {}
      invariant forall k :: k in done ==> k in OfTeam(requests, teamId)
      invariant forall k :: k in todo <==> k in OfTeam(requests, teamId) && k !in done
      invariant |rows| == |done|
      invariant Listing(requests, rows, done)
      decreases |todo|
    {
      var k :| k in todo;
      AppendKeepsListing(requests, rows, done, k);
      rows := rows + [requests[k]];
      todo, done := todo - {k}, done + {k};
    }
    assert done == OfTeam(requests, teamId);
  }

  /** SELECT ... WHERE id = $1 AND team_id = $2. */
  function GetByID(requests: map<nat, JoinRequest>, id: nat, teamId: nat): (r: Result<JoinRequest>)
    ensures r.Ok? <==> Matches(requests, id, teamId)
    ensures r.Ok? ==> r.value == requests[id] && r.value.teamId == teamId
    ensures r.Err? ==> r.error == AppError("join request not found")
  {
    if Matches(requests, id, teamId) then Ok(requests[id]) else Err(AppError("join request not found"))
  }

  /** DELETE ... WHERE id = $1 AND team_id = $2; no row deleted is an error. */
  method Delete(db: Database, id: nat, teamId: nat, accepted: bool) returns (r: Result<nat>)
    requires db.Valid()
    modifies db`joinRequests
    ensures db.Valid()
    ensures !accepted ==> r == Err(Refused) && unchanged(db)
    ensures accepted && !Matches(old(db.joinRequests), id, teamId) ==>
              r == Err(AppError("no team deleted")) && unchanged(db)
    ensures accepted && Matches(old(db.joinRequests), id, teamId) ==>
              r == Ok(1) && db.joinRequests == old(db.joinRequests) - {id}
  {
    if !accepted {
      return Err(Refused);
    }
    if !Matches(db.joinRequests, id, teamId) {
      return Err(AppError("no team deleted"));
    }
    db.joinRequests := db.joinRequests - {id};
    r := Ok(1);
  }

  /** UPDATE ... SET status = 1, decision_by = $1 WHERE id = $2 AND team_id = $3.
      The current status is not consulted. */
  method Accept(db: Database, userId: nat, teamId: nat, id: nat, accepted: bool) returns (r: Result<nat>)
    requires db.Valid()
    modifies db`joinRequests
    ensures db.Valid()
    ensures !accepted ==> r == Err(Refused) && unchanged(db)
    ensures accepted && !Matches(old(db.joinRequests), id, teamId) ==>
              r == Err(AppError("no request accepted")) && unchanged(db)
    ensures accepted && Matches(old(db.joinRequests), id, teamId) ==>
              r == Ok(1) && db.joinRequests == Decided(old(db.joinRequests), id, Accepted, userId)
  {
    if !accepted {
      return Err(Refused);
    }
    if !Matches(db.joinRequests, id, teamId) {
      return Err(AppError("no request accepted"));
    }
    db.joinRequests := Decided(db.joinRequests, id, Accepted, userId);
    r := Ok(1);
  }

  /** UPDATE ... SET status = 2, decision_by = $1 WHERE id = $2 AND team_id = $3.
      The current status is not consulted; the error text is the one Accept uses. */
  method Reject(db: Database, userId: nat, teamId: nat, id: nat, accepted: bool) returns (r: Result<nat>)
    requires db.Valid()
    modifies db`joinRequests
    ensures db.Valid()
    ensures !accepted ==> r == Err(Refused) && unchanged(db)
    ensures accepted && !Matches(old(db.joinRequests), id, teamId) ==>
              r == Err(AppError("no request accepted")) && unchanged(db)
    ensures accepted && Matches(old(db.joinRequests), id, teamId) ==>
              r == Ok(1) && db.joinRequests == Decided(old(db.joinRequests), id, Rejected, userId)
  {
    if !accepted {
      return Err(Refused);
    }
    if !Matches(db.joinRequests, id, teamId) {
      return Err(AppError("no request accepted"));
    }
    db.joinRequests := Decided(db.joinRequests, id, Rejected, userId);
    r := Ok(1);
  }

  /** A decision rewrites only the decided row, and only its status and decider. */
  lemma DecidedTouchesOneRow(requests: map<nat, JoinRequest>, id: nat, status: nat, decider: nat, k: nat)
    requires id in requests
    ensures Decided(requests, id, status, decider).Keys == requests.Keys
    ensures k in requests && k != id ==> Decided(requests, id, status, decider)[k] == requests[k]
    ensures Decided(requests, id, status, decider)[id].(status := requests[id].status, decisionBy := requests[id].decisionBy)
            == requests[id]
  {
  }
}
