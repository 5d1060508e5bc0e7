/** Team-membership use cases (internal/services/TeamMember.go). */
module TeamMemberServices {
  import opened Common
  import opened Models
  import opened Store
  import TeamMemberRepository

  /** Adds a user to a team with a role, in one transaction. No check is made
      that the team or the user exists, or that the user is not a member yet. */
  method CreateTeamMember(db: Database, role: TeamRole, teamId: nat, userId: nat, refused: set<DbCall>)
    returns (r: Result<TeamMember>)
    requires db.Valid()
    modifies db
    ensures db.Valid()
    ensures r.Ok? <==> Begin !in refused && Write(1) !in refused && Commit !in refused
    ensures r.Err? ==> db.Snapshot() == old(db.Snapshot())
    ensures r.Ok? ==>
      && r.value == TeamMember(r.value.id, teamId, userId, role, "", "")
      && r.value.id !in old(db.members)
      && db.Snapshot() == old(db.Snapshot()).(members := old(db.members)[r.value.id := r.value])
  {
    if Begin in refused {
      return Err(Refused);
    }
    var tx := db.Snapshot();
    var member := TeamMember(0, teamId, userId, role, "", "");
    var created := TeamMemberRepository.Create(db, member, Write(1) !in refused);
    if created.Err? {
      db.Rollback(tx);
      return Err(created.error);
    }
    if Commit in refused {
      db.Rollback(tx);
      return Err(Refused);
    }
    r := created;
  }

  /** Lists the team's members that still have a user and a team row, each with
      the user's name. */
  method GetAll(members: map<nat, TeamMember>, users: map<nat, User>, teams: map<nat, Team>, teamId: nat)
    returns (r: Result<seq<TeamMember>>)
    requires TeamMemberRepository.Keyed(members)
    ensures r.Ok?
    ensures |r.value| == |TeamMemberRepository.OfTeam(members, users, teams, teamId)|
    ensures forall k :: k in TeamMemberRepository.OfTeam(members, users, teams, teamId) ==>
              members[k].userId in users && TeamMemberRepository.ListedRow(members[k], users) in r.value
    ensures forall x :: x in r.value ==>
              && x.id in TeamMemberRepository.OfTeam(members, users, teams, teamId)
              && x == TeamMemberRepository.ListedRow(members[x.id], users)
              && x.userId in users && x.name == users[x.userId].name
    ensures forall i, j :: 0 <= i < j < |r.value| ==> r.value[i] != r.value[j]
  {
    var rows := TeamMemberRepository.GetAll(members, users, teams, teamId);
    r := Ok(rows);
  }

  /** One membership of the user, with the user's and the team's names. */
  method GetByUserID(members: map<nat, TeamMember>, users: map<nat, User>, teams: map<nat, Team>, userId: nat)
    returns (r: Result<TeamMember>)
    ensures r.Err? <==> !exists k :: k in members && members[k].userId == userId && TeamMemberRepository.Joined(members[k], users, teams)
    ensures r.Err? ==> r.error == AppError("team member not found")
    ensures r.Ok? ==> exists k :: k in members && members[k].userId == userId && TeamMemberRepository.Joined(members[k], users, teams) &&
                         r.value == TeamMember(members[k].id, 0, userId, members[k].role,
                                               users[userId].name, teams[members[k].teamId].name)
  {
    r := TeamMemberRepository.GetByUserID(members, users, teams, userId);
  }
}
