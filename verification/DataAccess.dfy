/** The clearance rule and the reasons of the policy on inputs of any kind, not only on those that the bridge builds. */
module DataAccess {
  import opened Basics
  import opened Json
  import opened Rego
  import opened Policy

  // ---- clearance ----

  /** The clearance of a role, if it has one */
  function RoleLevel(role: Option<Json>): Option<real> {
    match role
    case Some(Str(s)) =>
      if s == "admin" then Some(3.0) else if s == "devops" then Some(2.0)
      else if s == "user" then Some(1.0) else if s == "anonymous" then Some(0.0) else None
    case _ => None
  }

  /** The clearance that a classification needs, if it is a known one */
  function NeededLevel(classification: Option<Json>): Option<real> {
    match classification
    case Some(Str(s)) =>
      if s == "critical" then Some(3.0) else if s == "restricted" then Some(2.0)
      else if s == "internal" then Some(1.0) else if s == "public" then Some(0.0) else None
    case _ => None
  }

  lemma {:induction false} RowOfOther(rows: seq<(string, real)>, v: Val)
    requires !v.VStr?
    ensures Row(rows, v) == Undefined
  {
    if rows != [] { RowOfOther(rows[1..], v); }
  }

  lemma RoleRow(s: string)
    ensures Row(CLEARANCE.rows, VStr(s)) == OutNum(RoleLevel(Some(Str(s))))
  {
    FourRows("admin", 3.0, "devops", 2.0, "user", 1.0, "anonymous", 0.0, s);
  }

  lemma NeededRow(s: string)
    ensures Row(REQUIRED.rows, VStr(s)) == OutNum(NeededLevel(Some(Str(s))))
  {
    FourRows("critical", 3.0, "restricted", 2.0, "internal", 1.0, "public", 0.0, s);
  }

  lemma FourRows(a: string, x: real, b: string, y: real, c: string, z: real, d: string, u: real, s: string)
    ensures Row([(a, x), (b, y), (c, z), (d, u)], VStr(s)) ==
      if s == a then Defined(VNum(x)) else if s == b then Defined(VNum(y))
      else if s == c then Defined(VNum(z)) else if s == d then Defined(VNum(u)) else Undefined
  {
    var rows := [(a, x), (b, y), (c, z), (d, u)];
    assert rows[1..] == [(b, y), (c, z), (d, u)] && rows[1..][1..] == [(c, z), (d, u)];
    assert rows[1..][1..][1..] == [(d, u)] && rows[1..][1..][1..][1..] == [];
    assert Row([(d, u)], VStr(s)) == if s == d then Defined(VNum(u)) else Undefined;
    assert Row(rows[1..][1..], VStr(s)) == if s == c then Defined(VNum(z)) else Row([(d, u)], VStr(s));
  }

  lemma TablesMean(p: Program, env: Env, rank: nat)
    ensures EvalExpr(p, CLEARANCE, env, rank) == OutNum(RoleLevel(Lookup(env.input, ["user", "role"])))
    ensures EvalExpr(p, REQUIRED, env, rank) == OutNum(NeededLevel(Lookup(env.input, ["data", "classification"])))
  {
    RoleTable(p, env, rank);
    NeededTable(p, env, rank);
  }

  lemma RoleTable(p: Program, env: Env, rank: nat)
    ensures EvalExpr(p, CLEARANCE, env, rank) == OutNum(RoleLevel(Lookup(env.input, ["user", "role"])))
  {
    var role := Lookup(env.input, ["user", "role"]);
    assert EvalExpr(p, ROLE, env, rank) == Doc(env.input, ["user", "role"]);
    if role.Some? && role.value.Str? {
      RoleRow(role.value.s);
    } else if role.Some? {
      RowOfOther(CLEARANCE.rows, FromJson(role.value));
    }
  }

  lemma NeededTable(p: Program, env: Env, rank: nat)
    ensures EvalExpr(p, REQUIRED, env, rank) == OutNum(NeededLevel(Lookup(env.input, ["data", "classification"])))
  {
    var needed := Lookup(env.input, ["data", "classification"]);
    assert EvalExpr(p, CLASSIFICATION, env, rank) == Doc(env.input, ["data", "classification"]);
    if needed.Some? && needed.value.Str? {
      NeededRow(needed.value.s);
    } else if needed.Some? {
      RowOfOther(REQUIRED.rows, FromJson(needed.value));
    }
  }

  /** The input has no classification, or one that counts as false. */
  predicate Unclassified(env: Env) { Lookup(env.input, ["data", "classification"]) in {None, Some(Bool(false))} }

  /** The role has a clearance, the classification needs one, and the first is at least the second. */
  predicate Cleared(env: Env) {
    var role := RoleLevel(Lookup(env.input, ["user", "role"]));
    var needed := NeededLevel(Lookup(env.input, ["data", "classification"]));
    role.Some? && needed.Some? && role.value >= needed.value
  }

  lemma ClassificationStatements(p: Program, env: Env, rank: nat)
    ensures EvalStmt(p, Not(CLASSIFICATION), env, rank) == Yes(Unclassified(env))
    ensures EvalStmt(p, Holds(CLASSIFICATION), env, rank) == Yes(!Unclassified(env))
    ensures EvalStmt(p, Holds(Call(Ge, CLEARANCE, REQUIRED)), env, rank) == Yes(Cleared(env))
  {
    TablesMean(p, env, rank);
    assert EvalExpr(p, CLASSIFICATION, env, rank) == Doc(env.input, ["data", "classification"]);
  }

  /**
   * The clearance rule on every input: it holds exactly without a classification, or with a known one that the role
   * of the user covers. An unknown role or classification does not pass.
   */
  lemma ClearanceRuleMeans(a: seq<Clause>, env: Env)
    ensures EvalRule(With(a), DataAccessOk, env) == Yes(Unclassified(env) || Cleared(env))
  {
    var p, t := With(a), VBool(true);
    var c, d := When([Not(CLASSIFICATION)]), When([Holds(CLASSIFICATION), Holds(Call(Ge, CLEARANCE, REQUIRED))]);
    ClassificationStatements(p, env, 7);
    OneStatement(p, t, Not(CLASSIFICATION), Unclassified(env), env, 7);
    TwoStatements(p, t, Holds(CLASSIFICATION), !Unclassified(env),
                  Holds(Call(Ge, CLEARANCE, REQUIRED)), Cleared(env), env, 7);
    UnclassifiedIsNotCleared(env);
    EitherBody(p, c, Unclassified(env), d, Cleared(env), env, 7);
  }

  lemma UnclassifiedIsNotCleared(env: Env)
    ensures Unclassified(env) ==> !Cleared(env)
  {}

  lemma EitherBody(p: Program, c: Clause, b: bool, d: Clause, e: bool, env: Env, rank: nat)
    requires EvalClause(p, c, env, rank) == Yes(b) && EvalClause(p, d, env, rank) == Yes(e)
    ensures EvalClauses(p, [c, d], env, rank) == Yes(b || e)
  {
    assert [c, d][1..] == [d];
    OneBody(p, d, env, rank);
  }

  // ---- reasons that are never told ----

  /** Some body of the rule for the reason gives this text. */
  ghost predicate Given(env: Env, text: string) { SomeClause(POLICY, REASONS, env, 9, Defined(VStr(text))) }

  lemma GivenBy(env: Env, c: Clause, text: string)
    requires c in REASONS && EvalClause(POLICY, c, env, 9) == Defined(VStr(text))
    ensures Given(env, text)
  {}

  /** What the conflicting reasons of an ordinary user on a classified path are, although none is told */
  lemma ConflictingTexts(env: Env, q: Facts)
    requires Built(env, q) && Base(env) && !q.admin && q.level != "public"
    ensures EvalRule(POLICY, Reason, env) == Conflict
    ensures Given(env, "denied: " + ("insufficient clearance " + "for data classification"))
    ensures "/admin" <= q.path ==> Given(env, "denied: " + "admin access requires admin role")
    ensures "/api/peers" <= q.path ==> Given(env, "denied: " + "peer API requires admin role")
  {
    ReasonMeans(env, q);
    ReasonsMean(env, q);
    var t := TestsOf(env, q);
    ReasonBodies(LOW_BODY);
    GivenBy(env, LOW_BODY, "denied: " + ("insufficient clearance " + "for data classification"));
    ReasonBodies(NotAdminBody(NOT_ADMIN, "/admin"));
    ReasonBodies(NotAdminBody(NOT_PEER_ADMIN, "/api/peers"));
    if "/admin" <= q.path {
      GivenBy(env, NotAdminBody(NOT_ADMIN, "/admin"), "denied: " + "admin access requires admin role");
    }
    if "/api/peers" <= q.path {
      GivenBy(env, NotAdminBody(NOT_PEER_ADMIN, "/api/peers"), "denied: " + "peer API requires admin role");
    }
  }

  lemma NothingWithoutBase(c: Clause, env: Env)
    requires !Base(env) && c.body != [] && c.body[0] == BASE
    ensures EvalClause(POLICY, c, env, 9) == Undefined
  {
    BaseStatementsMean(ALL_BODIES, env, 9);
  }

  /** An input without posture, for a user who is logged in with MFA: no body of the rule applies. */
  predicate PostureMissing(env: Env) {
    && Lookup(env.input, ["user", "authenticated"]) == Some(Bool(true))
    && Lookup(env.input, ["user", "mfa_verified"]) == Some(Bool(true))
    && Lookup(env.input, ["device", "posture"]) == None
  }

  lemma UserBodiesFail(env: Env)
    requires PostureMissing(env)
    ensures !Base(env)
    ensures EvalClause(POLICY, ANONYMOUS_BODY, env, 9) == Undefined && EvalClause(POLICY, MFA_BODY, env, 9) == Undefined
    ensures EvalClause(POLICY, UNHEALTHY_BODY, env, 9) == Undefined
  {
    DocStatement(POLICY, AUTHENTICATED.path, true, env, 9);
    DocStatement(POLICY, MFA_VERIFIED.path, true, env, 9);
    var unhealthy := Holds(Call(Ne, POSTURE, Lit(VStr("healthy"))));
    assert EvalExpr(POLICY, POSTURE, env, 9) == Undefined;
    assert EvalStmt(POLICY, unhealthy, env, 9) == Undefined;
    OneStatement(POLICY, VStr(ANONYMOUS), Not(AUTHENTICATED), false, env, 9);
    TwoStatements(POLICY, VStr(NO_MFA), Holds(AUTHENTICATED), true, Not(MFA_VERIFIED), false, env, 9);
    ThreeStatements(POLICY, VStr(UNHEALTHY), Holds(AUTHENTICATED), true, Holds(MFA_VERIFIED), true,
                    unhealthy, false, env, 9);
  }

  lemma AllowedBodyFails(env: Env)
    requires !Base(env)
    ensures EvalClause(POLICY, ALLOWED_BODY, env, 9) == Undefined
  {
    AllowMeans(env);
    assert EvalExpr(POLICY, Rule(Allow), env, 9) == Defined(VBool(false));
    OneStatement(POLICY, VStr(ALLOWED), Holds(Rule(Allow)), false, env, 9);
  }

  /** The default reason is told where no body applies. */
  lemma DefaultReason(env: Env)
    requires PostureMissing(env)
    ensures EvalRule(POLICY, Reason, env) == Defined(VStr("denied: " + "no matching allow rule"))
  {
    UserBodiesFail(env);
    AllowedBodyFails(env);
    forall c | c in REASONS ensures EvalClause(POLICY, c, env, 9) == Undefined {
      ReasonBodies(c);
      if c != ANONYMOUS_BODY && c != MFA_BODY && c != UNHEALTHY_BODY && c != ALLOWED_BODY { NothingWithoutBase(c, env); }
    }
    ClausesAgree(POLICY, REASONS, env, 9);
    ReasonRule();
  }
}
