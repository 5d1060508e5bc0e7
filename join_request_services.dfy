/** The join-request workflow (internal/services/joinRequest.go). Every
    mutating operation runs in one transaction: on any error the tables are
    back where they were. Permission is checked with CanSee, to which every
    operation except GetAll passes the request id in place of the caller id,
    so those operations go ahead only when the request id equals the team
    owner's id.

    After a successful Accept, the HTTP handler (internal/controllers/joinRequest.go)
    creates the sender's team membership in a separate transaction, outside
    this workflow, ignoring that step's error; that step is not part of this model. */
module JoinRequestServices {
  import opened Common
  import opened Models
  import opened Store
  import TeamRepository
  import JoinRequestRepository
  import NotificationRepository
  import Validators

  /** The status state machine: a row kept across a step has the same status,
      or moved from pending to accepted or rejected; a row that appears is pending. */
  ghost predicate StatusRespected(before: map<nat, JoinRequest>, after: map<nat, JoinRequest>) {
    && (forall k :: k in before && k in after ==>
          after[k].status == before[k].status ||
          (before[k].status == Pending && (after[k].status == Accepted || after[k].status == Rejected)))
    && (forall k :: k in after && k !in before ==> after[k].status == Pending)
  }

  /** The check that GetByID, Delete, Accept and Reject make: CanSee applied to
      the request id. */
  predicate RequestIdOwnsTeam(teams: map<nat, Team>, requestId: nat, teamId: nat) {
    teamId in teams && teams[teamId].ownerId == requestId
  }

  /** Creates a pending request from the caller to the team and the notice to
      the team owner that refers to it, in one transaction. */
  method Create(db: Database, requestUserId: nat, teamId: nat, refused: set<DbCall>)
    returns (r: Result<(JoinRequest, Notification)>)
    requires db.Valid()
    modifies db
    ensures db.Valid()
    ensures StatusRespected(old(db.joinRequests), db.joinRequests)
    ensures r.Ok? <==>
              Begin !in refused && teamId in old(db.teams) &&
              Write(1) !in refused && Write(2) !in refused && Commit !in refused
    ensures Begin !in refused && teamId !in old(db.teams) ==> r == Err(AppError("team not found"))
    ensures r.Err? ==> db.Snapshot() == old(db.Snapshot())
    ensures r.Ok? ==>
      var (request, notice) := r.value;
      && request == JoinRequest(request.id, teamId, old(db.teams)[teamId].ownerId, requestUserId, Pending, None)
      && notice == Notification(notice.id, requestUserId, old(db.teams)[teamId].ownerId,
                                JoinRequestNotification, request.id, false)
      && request.id !in old(db.joinRequests)
      && notice.id !in old(db.notifications)
      && db.Snapshot() == old(db.Snapshot()).(joinRequests := old(db.joinRequests)[request.id := request],
                                               notifications := old(db.notifications)[notice.id := notice])
  {
    if Begin in refused {
      return Err(Refused);
    }
    var tx := db.Snapshot();
    var team := TeamRepository.GetTeamByID(db.teams, teamId);
    if team.Err? {
      db.Rollback(tx);
      return Err(team.error);
    }
    var request := JoinRequest(0, teamId, team.value.ownerId, requestUserId, Pending, None);
    var created := JoinRequestRepository.Create(db, request, Write(1) !in refused);
    if created.Err? {
      db.Rollback(tx);
      return Err(created.error);
    }
    var notice := NotificationRepository.CreateByJoinRequest(db, created.value, Write(2) !in refused);
    if notice.Err? {
      db.Rollback(tx);
      return Err(notice.error);
    }
    if Commit in refused {
      db.Rollback(tx);
      return Err(Refused);
    }
    r := Ok((created.value, notice.value));
  }

  /** Lists the team's requests, for the team owner only. */
  method GetAll(teams: map<nat, Team>, requests: map<nat, JoinRequest>, requestUserId: nat, teamId: nat)
    returns (r: Result<seq<JoinRequest>>)
    requires JoinRequestRepository.Keyed(requests)
    ensures teamId !in teams ==> r == Err(AppError("team not found"))
    ensures teamId in teams && teams[teamId].ownerId != requestUserId ==>
              r == Err(AppError("you dont have permission to see the team join requests"))
    ensures r.Ok? <==> teamId in teams && teams[teamId].ownerId == requestUserId
    ensures r.Ok? ==>
      && |r.value| == |JoinRequestRepository.OfTeam(requests, teamId)|
      && (forall k :: k in JoinRequestRepository.OfTeam(requests, teamId) ==> requests[k] in r.value)
      && (forall x :: x in r.value ==>
            x.id in JoinRequestRepository.OfTeam(requests, teamId) && requests[x.id] == x && x.teamId == teamId)
      && (forall i, j :: 0 <= i < j < |r.value| ==> r.value[i] != r.value[j])
  {
    var ok := Validators.CanSee(teams, requestUserId, teamId);
    if ok.Err? {
      return Err(ok.error);
    }
    if !ok.value {
      return Err(AppError("you dont have permission to see the team join requests"));
    }
    var rows := JoinRequestRepository.GetAll(requests, teamId);
    r := Ok(rows);
  }

  /** Reads one request of the team; permission is checked on the request id. */
  function GetByID(teams: map<nat, Team>, requests: map<nat, JoinRequest>, requestUserId: nat, teamId: nat, requestId: nat)
    : (r: Result<JoinRequest>)
    ensures r.Ok? <==> RequestIdOwnsTeam(teams, requestId, teamId) && JoinRequestRepository.Matches(requests, requestId, teamId)
    ensures r.Ok? ==> r.value == requests[requestId]
    ensures teamId !in teams ==> r == Err(AppError("team not found"))
    ensures teamId in teams && !RequestIdOwnsTeam(teams, requestId, teamId) ==>
              r == Err(AppError("you dont have permission to see the team join requests"))
    ensures RequestIdOwnsTeam(teams, requestId, teamId) && !JoinRequestRepository.Matches(requests, requestId, teamId) ==>
              r == Err(AppError("join request not found"))
  {
    match Validators.CanSee(teams, requestId, teamId)
      case Err(e) => Err(e)
      case Ok(ok) =>
        if !ok then Err(AppError("you dont have permission to see the team join requests"))
        else JoinRequestRepository.GetByID(requests, requestId, teamId)
  }

  /** The caller's id plays no part in GetByID. */
  lemma GetByIDIgnoresCaller(teams: map<nat, Team>, requests: map<nat, JoinRequest>, caller1: nat, caller2: nat, teamId: nat, requestId: nat)
    ensures GetByID(teams, requests, caller1, teamId, requestId) == GetByID(teams, requests, caller2, teamId, requestId)
  {
  }

  /** Deletes the row matching both the request id and the team. */
  method Delete(db: Database, requestUserId: nat, teamId: nat, requestId: nat, refused: set<DbCall>) returns (r: Result<nat>)
    requires db.Valid()
    modifies db
    ensures db.Valid()
    ensures StatusRespected(old(db.joinRequests), db.joinRequests)
    ensures r.Ok? <==>
              Begin !in refused && RequestIdOwnsTeam(old(db.teams), requestId, teamId) &&
              JoinRequestRepository.Matches(old(db.joinRequests), requestId, teamId) &&
              Write(1) !in refused && Commit !in refused
    ensures Begin !in refused && teamId in old(db.teams) && !RequestIdOwnsTeam(old(db.teams), requestId, teamId) ==>
              r == Err(AppError("you dont have permission to delete the team join requests"))
    ensures r.Err? ==> db.Snapshot() == old(db.Snapshot())
    ensures r.Ok? ==> r.value == 1 && db.Snapshot() == old(db.Snapshot()).(joinRequests := old(db.joinRequests) - {requestId})
  {
    if Begin in refused {
      return Err(Refused);
    }
    var tx := db.Snapshot();
    var ok := Validators.CanSee(db.teams, requestId, teamId);
    if ok.Err? {
      db.Rollback(tx);
      return Err(ok.error);
    }
    if !ok.value {
      db.Rollback(tx);
      return Err(AppError("you dont have permission to delete the team join requests"));
    }
    var affected := JoinRequestRepository.Delete(db, requestId, teamId, Write(1) !in refused);
    if affected.Err? {
      db.Rollback(tx);
      return Err(affected.error);
    }
    if Commit in refused {
      db.Rollback(tx);
      return Err(Refused);
    }
    r := affected;
  }

  /** Accepts a pending request, recording the caller as the decider. */
  method Accept(db: Database, requestUserId: nat, teamId: nat, requestId: nat, refused: set<DbCall>) returns (r: Result<nat>)
    requires db.Valid()
    modifies db
    ensures db.Valid()
    ensures StatusRespected(old(db.joinRequests), db.joinRequests)
    ensures r.Ok? <==>
              Begin !in refused && RequestIdOwnsTeam(old(db.teams), requestId, teamId) &&
              JoinRequestRepository.Matches(old(db.joinRequests), requestId, teamId) &&
              old(db.joinRequests)[requestId].status == Pending &&
              Write(1) !in refused && Commit !in refused
    ensures Begin !in refused && teamId in old(db.teams) && !RequestIdOwnsTeam(old(db.teams), requestId, teamId) ==>
              r == Err(AppError("you dont have permission to accept the team join requests"))
    ensures Begin !in refused && RequestIdOwnsTeam(old(db.teams), requestId, teamId) &&
            JoinRequestRepository.Matches(old(db.joinRequests), requestId, teamId) &&
            old(db.joinRequests)[requestId].status != Pending ==>
              r == Err(AppError("request already accepted or rejected"))
    ensures r.Err? ==> db.Snapshot() == old(db.Snapshot())
    ensures r.Ok? ==> r.value == 1 && db.Snapshot() == old(db.Snapshot()).(joinRequests :=
              JoinRequestRepository.Decided(old(db.joinRequests), requestId, Accepted, requestUserId))
  {
    if Begin in refused {
      return Err(Refused);
    }
    var tx := db.Snapshot();
    var ok := Validators.CanSee(db.teams, requestId, teamId);
    if ok.Err? {
      db.Rollback(tx);
      return Err(ok.error);
    }
    if !ok.value {
      db.Rollback(tx);
      return Err(AppError("you dont have permission to accept the team join requests"));
    }
    var request := JoinRequestRepository.GetByID(db.joinRequests, requestId, teamId);
    if request.Err? {
      db.Rollback(tx);
      return Err(request.error);
    }
    if request.value.status != Pending {
      db.Rollback(tx);
      return Err(AppError("request already accepted or rejected"));
    }
    var affected := JoinRequestRepository.Accept(db, requestUserId, teamId, requestId, Write(1) !in refused);
    if affected.Err? {
      db.Rollback(tx);
      return Err(affected.error);
    }
    if Commit in refused {
      db.Rollback(tx);
      return Err(Refused);
    }
    r := affected;
  }

  /** Rejects a pending request, recording the caller as the decider. */
  method Reject(db: Database, requestUserId: nat, teamId: nat, requestId: nat, refused: set<DbCall>) returns (r: Result<nat>)
    requires db.Valid()
    modifies db
    ensures db.Valid()
    ensures StatusRespected(old(db.joinRequests), db.joinRequests)
    ensures r.Ok? <==>
              Begin !in refused && RequestIdOwnsTeam(old(db.teams), requestId, teamId) &&
              JoinRequestRepository.Matches(old(db.joinRequests), requestId, teamId) &&
              old(db.joinRequests)[requestId].status == Pending &&
              Write(1) !in refused && Commit !in refused
    ensures Begin !in refused && teamId in old(db.teams) && !RequestIdOwnsTeam(old(db.teams), requestId, teamId) ==>
              r == Err(AppError("you dont have permission to reject the requests"))
    ensures Begin !in refused && RequestIdOwnsTeam(old(db.teams), requestId, teamId) &&
            JoinRequestRepository.Matches(old(db.joinRequests), requestId, teamId) &&
            old(db.joinRequests)[requestId].status != Pending ==>
              r == Err(AppError("request already accepted or rejected"))
    ensures r.Err? ==> db.Snapshot() == old(db.Snapshot())
    ensures r.Ok? ==> r.value == 1 && db.Snapshot() == old(db.Snapshot()).(joinRequests :=
              JoinRequestRepository.Decided(old(db.joinRequests), requestId, Rejected, requestUserId))
  {
    if Begin in refused {
      return Err(Refused);
    }
    var tx := db.Snapshot();
    var ok := Validators.CanSee(db.teams, requestId, teamId);
    if ok.Err? {
      db.Rollback(tx);
      return Err(ok.error);
    }
    if !ok.value {
      db.Rollback(tx);
      return Err(AppError("you dont have permission to reject the requests"));
    }
    var request := JoinRequestRepository.GetByID(db.joinRequests, requestId, teamId);
    if request.Err? {
      db.Rollback(tx);
      return Err(request.error);
    }
    if request.value.status != Pending {
      db.Rollback(tx);
      return Err(AppError("request already accepted or rejected"));
    }
    var affected := JoinRequestRepository.Reject(db, requestUserId, teamId, requestId, Write(1) !in refused);
    if affected.Err? {
      db.Rollback(tx);
      return Err(affected.error);
    }
    if Commit in refused {
      db.Rollback(tx);
      return Err(Refused);
    }
    r := affected;
  }
}
