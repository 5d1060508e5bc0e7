/** The team entity's validation (internal/models/team.go). */
module TeamModel {
  import opened Common
  import opened Models

  /** Team.ValidateData: a name, then a domain, must be present; `step` is unused. */
  function ValidateData(t: Team, step: string): (r: Outcome)
    ensures t.name == "" ==> r == Fail(AppError("name is required"))
    ensures t.name != "" && t.domain == "" ==> r == Fail(AppError("domain is required"))
    ensures r == Pass <==> t.name != "" && t.domain != ""
  {
    if t.name == "" then Fail(AppError("name is required"))
    else if t.domain == "" then Fail(AppError("domain is required"))
    else Pass
  }

  /** Team.ValidadeTeam (spelled as in the model; the service calls it ValidateTeam). */
  function ValidadeTeam(t: Team, step: string): (r: Outcome)
    ensures r == ValidateData(t, step)
    ensures r == Pass <==> t.name != "" && t.domain != ""
  {
    ValidateData(t, step)
  }

  lemma ValidationIgnoresStep(t: Team, step1: string, step2: string)
    ensures ValidateData(t, step1) == ValidateData(t, step2)
  {
  }
}
