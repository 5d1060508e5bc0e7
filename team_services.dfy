/** Team use cases (internal/services/teams.go). */
module TeamServices {
  import opened Common
  import opened Models
  import opened Store
  import TeamModel
  import TeamRepository
  import TeamMemberRepository

  /** Creates a team owned by the caller and, in the same transaction, the
      caller's membership with the owner role. The second value returned is
      an empty member, not the membership just stored. */
  method CreateTeam(db: Database, requestUserId: nat, team: Team, refused: set<DbCall>)
    returns (r: Result<(Team, TeamMember)>)
    requires db.Valid()
    modifies db
    ensures db.Valid()
    ensures r.Ok? <==>
              Begin !in refused && team.name != "" && team.domain != "" &&
              Write(1) !in refused && Write(2) !in refused && Commit !in refused
    ensures Begin !in refused && team.name == "" ==> r == Err(AppError("name is required"))
    ensures Begin !in refused && team.name != "" && team.domain == "" ==> r == Err(AppError("domain is required"))
    ensures r.Err? ==> db.Snapshot() == old(db.Snapshot())
    ensures r.Ok? ==>
      var (created, member) := r.value;
      && created == Team(created.id, team.name, team.domain, requestUserId)
      && member == EmptyMember
      && created.id !in old(db.teams)
      && old(db.nextMemberId) !in old(db.members)
      && db.Snapshot() == old(db.Snapshot()).(
           teams := old(db.teams)[created.id := created],
           members := old(db.members)[old(db.nextMemberId) :=
                        TeamMember(old(db.nextMemberId), created.id, requestUserId, Owner, "", "")])
  {
    if Begin in refused {
      return Err(Refused);
    }
    var tx := db.Snapshot();
    var owned := team.(ownerId := requestUserId);
    var valid := TeamModel.ValidadeTeam(owned, "creation");
    if valid.Fail? {
      db.Rollback(tx);
      return Err(valid.error);
    }
    var created := TeamRepository.Create(db, owned, Write(1) !in refused);
    if created.Err? {
      db.Rollback(tx);
      return Err(created.error);
    }
    var member := TeamMember(0, created.value.id, created.value.ownerId, Owner, "", "");
    var stored := TeamMemberRepository.Create(db, member, Write(2) !in refused);
    if stored.Err? {
      db.Rollback(tx);
      return Err(stored.error);
    }
    if Commit in refused {
      db.Rollback(tx);
      return Err(Refused);
    }
    r := Ok((created.value, EmptyMember));
  }

  /** Lists every team; no team at all is an error. */
  method GetAll(teams: map<nat, Team>, refused: set<DbCall>) returns (r: Result<seq<Team>>)
    requires TeamRepository.Keyed(teams)
    ensures Begin in refused ==> r == Err(Refused)
    ensures Begin !in refused && teams == map[] ==> r == Err(AppError("no team found"))
    ensures r.Ok? <==> Begin !in refused && teams != map[]
    ensures r.Ok? ==>
      && |r.value| == |teams.Keys|
      && (forall k :: k in teams ==> teams[k] in r.value)
      && (forall x :: x in r.value ==> x.id in teams && teams[x.id] == x)
      && (forall i, j :: 0 <= i < j < |r.value| ==> r.value[i] != r.value[j])
  {
    if Begin in refused {
      return Err(Refused);
    }
    var rows := TeamRepository.GetAll(teams);
    if |rows| < 1 {
      assert teams.Keys == {};
      return Err(AppError("no team found"));
    }
    r := Ok(rows);
  }

  /** Reads one team (a transaction is opened and left unused). */
  function GetByID(teams: map<nat, Team>, teamId: nat, refused: set<DbCall>): (r: Result<Team>)
    ensures Begin in refused ==> r == Err(Refused)
    ensures r.Ok? <==> Begin !in refused && teamId in teams
    ensures r.Ok? ==> r.value == teams[teamId]
    ensures Begin !in refused && teamId !in teams ==> r == Err(AppError("team not found"))
  {
    if Begin in refused then Err(Refused) else TeamRepository.GetTeamByID(teams, teamId)
  }

  /** Renames a team and changes its domain. The caller is not checked
      against the owner. */
  method UpdateTeam(db: Database, requestUserId: nat, teamId: nat, team: Team, refused: set<DbCall>)
    returns (r: Result<nat>)
    requires db.Valid()
    modifies db
    ensures db.Valid()
    ensures r.Ok? <==>
              Begin !in refused && team.name != "" && team.domain != "" &&
              teamId in old(db.teams) && Commit !in refused
    ensures Begin !in refused && team.name == "" ==> r == Err(AppError("name is required"))
    ensures Begin !in refused && team.name != "" && team.domain == "" ==> r == Err(AppError("domain is required"))
    ensures Begin !in refused && team.name != "" && team.domain != "" && teamId !in old(db.teams) ==>
              r == Err(AppError("no team updated"))
    ensures r.Err? ==> db.Snapshot() == old(db.Snapshot())
    ensures r.Ok? ==>
      && r.value == 1
      && db.Snapshot() == old(db.Snapshot()).(teams :=
           old(db.teams)[teamId := old(db.teams)[teamId].(name := team.name, domain := team.domain)])
  {
    if Begin in refused {
      return Err(Refused);
    }
    var tx := db.Snapshot();
    var valid := TeamModel.ValidadeTeam(team, "update");
    if valid.Fail? {
      db.Rollback(tx);
      return Err(valid.error);
    }
    var affected := TeamRepository.Update(db, teamId, team);
    if affected.Err? {
      db.Rollback(tx);
      return Err(affected.error);
    }
    if Commit in refused {
      db.Rollback(tx);
      return Err(Refused);
    }
    r := affected;
  }

  /** The owner check DeleteTeam makes: the team must exist and belong to the user. */
  function CompareUserIDWithTeamOwnerID(teams: map<nat, Team>, userId: nat, teamId: nat): (r: Outcome)
    ensures r == Pass <==> teamId in teams && teams[teamId].ownerId == userId
    ensures teamId !in teams ==> r == Fail(AppError("team not found"))
    ensures teamId in teams && teams[teamId].ownerId != userId ==> r == Fail(AppError("only the owner can delete the team"))
  {
    match TeamRepository.GetTeamByID(teams, teamId)
      case Err(e) => Fail(e)
      case Ok(t) => if t.ownerId != userId then Fail(AppError("only the owner can delete the team")) else Pass
  }

  /** Deletes a team, for its owner only. When the transaction cannot be
      opened, the result is zero rows and no error. */
  method DeleteTeam(db: Database, requestUserId: nat, teamId: nat, refused: set<DbCall>) returns (r: Result<nat>)
    requires db.Valid()
    modifies db
    ensures db.Valid()
    ensures Begin in refused ==> r == Ok(0) && db.Snapshot() == old(db.Snapshot())
    ensures Begin !in refused ==>
              (r.Ok? <==> teamId in old(db.teams) && old(db.teams)[teamId].ownerId == requestUserId && Commit !in refused)
    ensures Begin !in refused && teamId !in old(db.teams) ==> r == Err(AppError("team not found"))
    ensures Begin !in refused && teamId in old(db.teams) && old(db.teams)[teamId].ownerId != requestUserId ==>
              r == Err(AppError("only the owner can delete the team"))
    ensures r.Err? ==> db.Snapshot() == old(db.Snapshot())
    ensures r.Ok? && Begin !in refused ==>
              r.value == 1 && db.Snapshot() == old(db.Snapshot()).(teams := old(db.teams) - {teamId})
  {
    if Begin in refused {
      return Ok(0);
    }
    var tx := db.Snapshot();
    var owner := CompareUserIDWithTeamOwnerID(db.teams, requestUserId, teamId);
    if owner.Fail? {
      db.Rollback(tx);
      return Err(owner.error);
    }
    var affected := TeamRepository.Delete(db, teamId);
    if affected.Err? {
      // The owner check has just found the team, so the delete finds its row.
      assert false;
    }
    if Commit in refused {
      db.Rollback(tx);
      return Err(Refused);
    }
    r := affected;
  }

  /** The owner's id of a team. */
  function GetTeamOwnerID(teams: map<nat, Team>, teamId: nat, refused: set<DbCall>): (r: Result<nat>)
    ensures Begin in refused ==> r == Err(Refused)
    ensures r.Ok? <==> Begin !in refused && teamId in teams
    ensures r.Ok? ==> r.value == teams[teamId].ownerId
    ensures Begin !in refused && teamId !in teams ==> r == Err(AppError("team not found"))
  {
    if Begin in refused then Err(Refused)
    else match TeamRepository.GetTeamByID(teams, teamId)
      case Err(e) => Err(e)
      case Ok(t) => Ok(t.ownerId)
  }

  /** The owner check passes exactly for the id GetTeamOwnerID reports. */
  lemma OwnerCheckAgreesWithOwnerID(teams: map<nat, Team>, userId: nat, teamId: nat, refused: set<DbCall>)
    requires Begin !in refused
    ensures CompareUserIDWithTeamOwnerID(teams, userId, teamId) == Pass <==> GetTeamOwnerID(teams, teamId, refused) == Ok(userId)
  {
  }
}
