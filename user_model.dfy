/** The user entity's own logic (internal/models/user.go): field validation per
    step and whitespace trimming of the free-text fields. */
module UserModel {
  import opened Common
  import opened Models

  /** The ASCII white-space characters that strings.TrimSpace removes. */
  predicate IsSpace(c: char) {
    c == ' ' || c == '\t' || c == '\n' || c == '\U{000B}' || c == '\U{000C}' || c == '\r'
  }

  ghost predicate AllSpace(s: string) {
    forall i :: 0 <= i < |s| ==> IsSpace(s[i])
  }

  /** Neither the first nor the last character of `s` is white space. */
  predicate NoOuterSpace(s: string) {
    s == [] || (!IsSpace(s[0]) && !IsSpace(s[|s| - 1]))
  }

  /** `t` is `s` with a white-space prefix and a white-space suffix cut off. */
  ghost predicate TrimmedFrom(s: string, t: string) {
    exists i :: 0 <= i <= |s| - |t| && t == s[i..i + |t|] && AllSpace(s[..i]) && AllSpace(s[i + |t|..])
  }

  /** Drops the leading white space. */
  function TrimLeft(s: string): (t: string)
    ensures |t| <= |s| && t == s[|s| - |t|..]
    ensures AllSpace(s[..|s| - |t|])
    ensures t != [] ==> !IsSpace(t[0])
  {
    if s != [] && IsSpace(s[0]) then TrimLeft(s[1..]) else s
  }

  /** Drops the trailing white space. */
  function TrimRight(s: string): (t: string)
    ensures |t| <= |s| && t == s[..|t|]
    ensures AllSpace(s[|t|..])
    ensures t != [] ==> !IsSpace(t[|t| - 1])
  {
    if s != [] && IsSpace(s[|s| - 1]) then TrimRight(s[..|s| - 1]) else s
  }

  /** strings.TrimSpace restricted to ASCII white space. */
  function TrimSpace(s: string): (t: string)
    ensures NoOuterSpace(t)
    ensures TrimmedFrom(s, t)
    ensures NoOuterSpace(s) ==> t == s
  {
    var l := TrimLeft(s);
    var t := TrimRight(l);
    assert t == s[|s| - |l|..][..|t|];
    assert s[|s| - |l|..][|t|..] == s[|s| - |l| + |t|..];
    assert t == s[|s| - |l|..|s| - |l| + |t|];
    t
  }

  lemma TrimSpaceIdempotent(s: string)
    ensures TrimSpace(TrimSpace(s)) == TrimSpace(s)
  {
  }

  /** User.Format: trims `name` and `cpfCnpj` and leaves every other field alone. */
  function Format(u: User): (f: User)
    ensures NoOuterSpace(f.name) && NoOuterSpace(f.cpfCnpj)
    ensures TrimmedFrom(u.name, f.name) && TrimmedFrom(u.cpfCnpj, f.cpfCnpj)
    ensures f.(name := u.name, cpfCnpj := u.cpfCnpj) == u
  {
    u.(name := TrimSpace(u.name), cpfCnpj := TrimSpace(u.cpfCnpj))
  }

  lemma FormatIdempotent(u: User)
    ensures Format(Format(u)) == Format(u)
  {
    TrimSpaceIdempotent(u.name);
    TrimSpaceIdempotent(u.cpfCnpj);
  }

  /** User.ValidateData. Step "update" checks nothing; every other step demands a
      Google subject, a name and an auth provider of 0 or 1, reporting the first
      one missing; step "login" also demands accepted terms. */
  function ValidateData(u: User, step: string): (r: Outcome)
    ensures step == "update" ==> r == Pass
    ensures step != "update" && u.googleSub == "" ==> r == Fail(AppError("google_sub is required"))
    ensures step != "update" && u.googleSub != "" && u.name == "" ==> r == Fail(AppError("name is required"))
    ensures step != "update" && u.googleSub != "" && u.name != "" && u.authProvider !in {0, 1} ==>
              r == Fail(AppError("auth_provider is required"))
    ensures step == "login" && u.googleSub != "" && u.name != "" && u.authProvider in {0, 1} && !u.consentTerms ==>
              r == Fail(AppError("consent_terms is required and cannot be refused"))
    ensures r == Pass <==>
              step == "update" ||
              (u.googleSub != "" && u.name != "" && u.authProvider in {0, 1} && (step == "login" ==> u.consentTerms))
  {
    if step != "update" && u.googleSub == "" then Fail(AppError("google_sub is required"))
    else if step != "update" && u.name == "" then Fail(AppError("name is required"))
    else if step != "update" && u.authProvider != 0 && u.authProvider != 1 then Fail(AppError("auth_provider is required"))
    else if step == "login" && !u.consentTerms then Fail(AppError("consent_terms is required and cannot be refused"))
    else Pass
  }

  /** User.ValidateUser: forwards to ValidateData. */
  function ValidateUser(u: User, step: string): (r: Outcome)
    ensures r == ValidateData(u, step)
    ensures step == "update" ==> r == Pass
  {
    ValidateData(u, step)
  }

  /** Passing the login checks implies passing the creation checks. */
  lemma LoginIsStricterThanCreate(u: User)
    ensures ValidateData(u, "login") == Pass ==> ValidateData(u, "create") == Pass
  {
  }

  /** Any step other than "update" and "login" checks exactly what "create" checks. */
  lemma OtherStepsActAsCreate(u: User, step: string)
    requires step != "update" && step != "login"
    ensures ValidateData(u, step) == ValidateData(u, "create")
  {
  }
}
