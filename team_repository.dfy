/** Table operations on `teams` (internal/repository/team.go). */
module TeamRepository {
  import opened Common
  import opened Models
  import opened Store

  /** INSERT of name, domain and owner; the new id comes from the sequence. */
  method Create(db: Database, team: Team, accepted: bool) returns (r: Result<Team>)
    requires db.Valid()
    modifies db`teams, db`nextTeamId
    ensures db.Valid()
    ensures !accepted ==> r == Err(Refused) && unchanged(db)
    ensures accepted ==>
      && r == Ok(team.(id := old(db.nextTeamId)))
      && r.value.id !in old(db.teams)
      && db.teams == old(db.teams)[r.value.id := r.value]
      && db.nextTeamId == old(db.nextTeamId) + 1
  {
    if !accepted {
      return Err(Refused);
    }
    var id := db.nextTeamId;
    db.nextTeamId := id + 1;
    var created := Team(id, team.name, team.domain, team.ownerId);
    db.teams := db.teams[id := created];
    r := Ok(created);
  }

  /** Every row is stored under its own id, as in the table. */
  predicate Keyed(teams: map<nat, Team>) {
    forall k :: k in teams ==> teams[k].id == k
  }

  /** `rows` holds, once each and under their own ids, the rows stored under the keys in `done`. */
  ghost predicate Listing(teams: map<nat, Team>, rows: seq<Team>, done: set<nat>) {
    && (forall k :: k in done ==> k in teams && teams[k] in rows)
    && (forall i :: 0 <= i < |rows| ==> rows[i].id in done && rows[i].id in teams && rows[i] == teams[rows[i].id])
    && (forall i, j :: 0 <= i < j < |rows| ==> rows[i].id != rows[j].id)
  }

  /** Appending the row of a key not yet listed keeps the listing. */
  lemma AppendKeepsListing(teams: map<nat, Team>, rows: seq<Team>, done: set<nat>, k: nat)
    requires Keyed(teams) && k in teams && k !in done
    requires Listing(teams, rows, done)
    ensures Listing(teams, rows + [teams[k]], done + {k})
  {
  }

  /** SELECT of every team, appending each row. */
  method GetAll(teams: map<nat, Team>) returns (rows: seq<Team>)
    requires Keyed(teams)
    ensures |rows| == |teams.Keys|
    ensures forall k :: k in teams ==> teams[k] in rows
    ensures forall x :: x in rows ==> x.id in teams && teams[x.id] == x
    ensures forall i, j :: 0 <= i < j < |rows| ==> rows[i] != rows[j]
  {
    var todo := teams.Keys;
    ghost var done: set<nat> := {};
    rows := [];
    while todo != {}
      invariant forall k :: k in todo <==> k in teams && k !in done
      invariant |rows| == |done|
      invariant Listing(teams, rows, done)
      decreases |todo|
    {
      var k :| k in todo;
      AppendKeepsListing(teams, rows, done, k);
      rows := rows + [teams[k]];
      todo, done := todo - {k}, done + {k};
    }
    assert done == teams.Keys;
  }

  /** GetTeamByID as the evidently intended query: SELECT ... WHERE id = $1,
      every selected column scanned into its field. */
  function GetTeamByID(teams: map<nat, Team>, id: nat): (r: Result<Team>)
    ensures r.Ok? <==> id in teams
    ensures r.Ok? ==> r.value == teams[id]
    ensures r.Err? ==> r.error == AppError("team not found")
  {
    if id in teams then Ok(teams[id]) else Err(AppError("team not found"))
  }

  /** GetTeamByID as written: six columns are selected and scanned into five
      destinations (domain is missing), which the driver refuses whenever a
      row is found. */
  function GetTeamByIDAsWritten(teams: map<nat, Team>, id: nat): (r: Result<Team>)
    ensures r.Err?
  {
    if id !in teams then Err(AppError("team not found"))
    else match ScanRow(6, 5)
      case Fail(e) => Err(e)
      case Pass => GetTeamByID(teams, id)
  }

  /** For every stored team, the query as written fails where the intended one
      finds the team. */
  lemma GetTeamByIDAsWrittenMissesStoredTeams(teams: map<nat, Team>, id: nat)
    requires id in teams
    ensures GetTeamByIDAsWritten(teams, id) == Err(DbError("number of field descriptions must equal number of destinations"))
    ensures GetTeamByID(teams, id) == Ok(teams[id])
  {
  }

  /** SearchByOwnerID filters on the `id` column, not on `owner_id`, and does
      not select `domain`. */
  function SearchByOwnerID(teams: map<nat, Team>, userId: nat): (r: Result<Team>)
    ensures r.Ok? <==> userId in teams
    ensures r.Ok? ==> r.value == teams[userId].(domain := "")
    ensures r.Err? ==> r.error == AppError("team not found")
  {
    if userId in teams then Ok(teams[userId].(domain := "")) else Err(AppError("team not found"))
  }

  /** UPDATE teams SET name = $1, domain = $2 WHERE id = $3; owner and id stay. */
  method Update(db: Database, id: nat, team: Team) returns (r: Result<nat>)
    requires db.Valid()
    modifies db`teams
    ensures db.Valid()
    ensures id !in old(db.teams) ==> r == Err(AppError("no team updated")) && unchanged(db)
    ensures id in old(db.teams) ==>
      && r == Ok(1)
      && db.teams == old(db.teams)[id := old(db.teams)[id].(name := team.name, domain := team.domain)]
  {
    if id !in db.teams {
      return Err(AppError("no team updated"));
    }
    db.teams := db.teams[id := db.teams[id].(name := team.name, domain := team.domain)];
    r := Ok(1);
  }

  /** DELETE FROM teams WHERE id = $1; no row deleted is an error. */
  method Delete(db: Database, id: nat) returns (r: Result<nat>)
    requires db.Valid()
    modifies db`teams
    ensures db.Valid()
    ensures id !in old(db.teams) ==> r == Err(AppError("no team deleted")) && unchanged(db)
    ensures id in old(db.teams) ==> r == Ok(1) && db.teams == old(db.teams) - {id}
  {
    if id !in db.teams {
      return Err(AppError("no team deleted"));
    }
    db.teams := db.teams - {id};
    r := Ok(1);
  }
}
