/** Table operations on `teammembers` (internal/repository/TeamMember.go). The
    reads join `users` and `teams`, so a member whose user or team row is gone
    is not returned. */
module TeamMemberRepository {
  import opened Common
  import opened Models
  import opened Store

  /** The member row survives the inner joins with `users` and `teams`. */
  predicate Joined(m: TeamMember, users: map<nat, User>, teams: map<nat, Team>) {
    m.userId in users && m.teamId in teams
  }

  /** The keys of the members of `teamId` that survive the joins. */
  function OfTeam(members: map<nat, TeamMember>, users: map<nat, User>, teams: map<nat, Team>, teamId: nat): set<nat> {
    set k | k in members && members[k].teamId == teamId && Joined(members[k], users, teams)
  }

  /** The columns GetAll scans: id, role, user id and the user's name; the
      team id is not selected and keeps its zero value. */
  function ListedRow(m: TeamMember, users: map<nat, User>): TeamMember
    requires m.userId in users
  {
    TeamMember(m.id, 0, m.userId, m.role, users[m.userId].name, "")
  }

  /** INSERT of role, team and user; the new id comes from the sequence. */
  method Create(db: Database, member: TeamMember, accepted: bool) returns (r: Result<TeamMember>)
    requires db.Valid()
    modifies db`members, db`nextMemberId
    ensures db.Valid()
    ensures !accepted ==> r == Err(Refused) && unchanged(db)
    ensures accepted ==>
      && r == Ok(member.(id := old(db.nextMemberId)))
      && r.value.id !in old(db.members)
      && db.members == old(db.members)[r.value.id := TeamMember(r.value.id, member.teamId, member.userId, member.role, "", "")]
      && db.nextMemberId == old(db.nextMemberId) + 1
  {
    if !accepted {
      return Err(Refused);
    }
    var id := db.nextMemberId;
    db.nextMemberId := id + 1;
    db.members := db.members[id := TeamMember(id, member.teamId, member.userId, member.role, "", "")];
    r := Ok(member.(id := id));
  }

  /** Every row is stored under its own id, as in the table. */
  predicate Keyed(members: map<nat, TeamMember>) {
    forall k :: k in members ==> members[k].id == k
  }

  /** `rows` holds, once each and under their own ids, the listed rows of the
      members stored under the keys in `done`. */
  ghost predicate Listing(members: map<nat, TeamMember>, users: map<nat, User>, rows: seq<TeamMember>, done: set<nat>) {
    && (forall k :: k in done ==> k in members && members[k].userId in users && ListedRow(members[k], users) in rows)
    && (forall i :: 0 <= i < |rows| ==>
          && rows[i].id in done && rows[i].id in members && members[rows[i].id].userId in users
          && rows[i] == ListedRow(members[rows[i].id], users))
    && (forall i, j :: 0 <= i < j < |rows| ==> rows[i].id != rows[j].id)
  }

  /** Appending the listed row of a key not yet listed keeps the listing. */
  lemma AppendKeepsListing(members: map<nat, TeamMember>, users: map<nat, User>, rows: seq<TeamMember>, done: set<nat>, k: nat)
    requires Keyed(members) && k in members && members[k].userId in users && k !in done
    requires Listing(members, users, rows, done)
    ensures Listing(members, users, rows + [ListedRow(members[k], users)], done + {k})
  {
  }

  /** SELECT ... INNER JOIN users, teams WHERE team_id = $1, appending each row. */
  method GetAll(members: map<nat, TeamMember>, users: map<nat, User>, teams: map<nat, Team>, teamId: nat)
    returns (rows: seq<TeamMember>)
    requires Keyed(members)
    ensures |rows| == |OfTeam(members, users, teams, teamId)|
    ensures forall k :: k in OfTeam(members, users, teams, teamId) ==> ListedRow(members[k], users) in rows
    ensures forall x :: x in rows ==> x.id in OfTeam(members, users, teams, teamId) && x == ListedRow(members[x.id], users)
    ensures forall i, j :: 0 <= i < j < |rows| ==> rows[i] != rows[j]
  {
    var todo := OfTeam(members, users, teams, teamId);
    ghost var done: set<nat> := {};
    rows := [];
    while todo != {}
      invariant forall k :: k in done ==> k in OfTeam(members, users, teams, teamId)
      invariant forall k :: k in todo <==> k in OfTeam(members, users, teams, teamId) && k !in done
      invariant |rows| == |done|
      invariant Listing(members, users, rows, done)
      decreases |todo|
    {
      var k :| k in todo;
      AppendKeepsListing(members, users, rows, done, k);
      rows := rows + [ListedRow(members[k], users)];
      todo, done := todo - {k}, done + {k};
    }
    assert done == OfTeam(members, users, teams, teamId);
  }

  /** SELECT ... INNER JOIN users, teams WHERE user_id = $1: the first row, which
      the query leaves unspecified, with the user's and the team's name. */
  method GetByUserID(members: map<nat, TeamMember>, users: map<nat, User>, teams: map<nat, Team>, userId: nat)
    returns (r: Result<TeamMember>)
    ensures r.Err? <==> !exists k :: k in members && members[k].userId == userId && Joined(members[k], users, teams)
    ensures r.Err? ==> r.error == AppError("team member not found")
    ensures r.Ok? ==> exists k :: k in members && members[k].userId == userId && Joined(members[k], users, teams) &&
                         r.value == TeamMember(members[k].id, 0, userId, members[k].role,
                                               users[userId].name, teams[members[k].teamId].name)
  {
    if k :| k in members && members[k].userId == userId && Joined(members[k], users, teams) {
      var m := members[k];
      r := Ok(TeamMember(m.id, 0, userId, m.role, users[userId].name, teams[m.teamId].name));
    } else {
      r := Err(AppError("team member not found"));
    }
  }
}
