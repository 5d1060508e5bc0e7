/** Authorization predicates (internal/validators). They read only the teams
    table, through the team lookup, and change nothing. */
module Validators {
  import opened Common
  import opened Models
  import TeamRepository

  /** JoinRequestValidations.CanSee: whether `userId` owns team `teamId`; a failed
      team lookup is returned as it is. */
  function CanSee(teams: map<nat, Team>, userId: nat, teamId: nat): (r: Result<bool>)
    ensures r.Err? <==> teamId !in teams
    ensures r.Err? ==> r == Err(AppError("team not found"))
    ensures r.Ok? ==> (r.value <==> userId == teams[teamId].ownerId)
  {
    match TeamRepository.GetTeamByID(teams, teamId)
      case Err(e) => Err(e)
      case Ok(team) => Ok(userId == team.ownerId)
  }

  /** TeamValidations.IsTeamOwner: whether `userId` owns team `teamId`; a failed
      team lookup is returned as it is. */
  function IsTeamOwner(teams: map<nat, Team>, userId: nat, teamId: nat): (r: Result<bool>)
    ensures r.Err? <==> teamId !in teams
    ensures r.Err? ==> r == Err(AppError("team not found"))
    ensures r.Ok? ==> (r.value <==> userId == teams[teamId].ownerId)
  {
    match TeamRepository.GetTeamByID(teams, teamId)
      case Err(e) => Err(e)
      case Ok(team) => Ok(userId == team.ownerId)
  }

  /** The two ownership checks give the same answer on every input. */
  lemma IsTeamOwnerAgreesWithCanSee(teams: map<nat, Team>, userId: nat, teamId: nat)
    ensures IsTeamOwner(teams, userId, teamId) == CanSee(teams, userId, teamId)
  {
  }

  /** For a stored team, CanSee looks at nothing but that team's owner. */
  lemma CanSeeDependsOnlyOnOwner(teams: map<nat, Team>, teams': map<nat, Team>, userId: nat, teamId: nat)
    requires teamId in teams && teamId in teams'
    requires teams[teamId].ownerId == teams'[teamId].ownerId
    ensures CanSee(teams, userId, teamId) == CanSee(teams', userId, teamId)
  {
  }

  /** UserValidations.CanModify: a user may modify only itself. */
  function CanModify(requestUserId: nat, userId: nat): (r: bool)
    ensures r <==> requestUserId == userId
  {
    requestUserId == userId
  }

  lemma CanModifyIsSymmetric(requestUserId: nat, userId: nat)
    ensures CanModify(requestUserId, userId) == CanModify(userId, requestUserId)
  {
  }

  lemma CanModifyIsReflexive(userId: nat)
    ensures CanModify(userId, userId)
  {
  }
}
