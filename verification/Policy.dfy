/** The access policy, rule by rule, and what its rules mean. */
module Policy {
  import opened Basics
  import opened Rego

  // ---- the program ----

  const AUTHENTICATED := In(["user", "authenticated"])
  const MFA_VERIFIED := In(["user", "mfa_verified"])
  const AUTH_TIME := In(["user", "auth_time"])
  const IS_ADMIN := In(["user", "is_admin"])
  const ROLE := In(["user", "role"])
  const POSTURE := In(["device", "posture"])
  const CLASSIFICATION := In(["data", "classification"])
  const PATH := In(["path"])

  const TRUE := Lit(VBool(true))
  const SECONDS := Call(Div, NowNs, Lit(VNum(1000000000.0)))
  const CLEARANCE := Table([("admin", 3.0), ("devops", 2.0), ("user", 1.0), ("anonymous", 0.0)], ROLE)
  const REQUIRED :=
    Table([("critical", 3.0), ("restricted", 2.0), ("internal", 1.0), ("public", 0.0)], CLASSIFICATION)

  function Is(e: Expr, v: Val): Stmt { Holds(Call(Eq, e, Lit(v))) }

  function Starting(prefix: string): Expr { Call(StartsWith, PATH, Lit(VStr(prefix))) }

  const BASE := Holds(Rule(BaseOk))
  const NOT_VERY_STALE := Not(Rule(VeryStaleSession))
  const DATA_OK := Holds(Rule(DataAccessOk))
  const ADMIN := Is(IS_ADMIN, VBool(true))
  const FRESH := Holds(Rule(FreshAuth))

  function When(body: seq<Stmt>): Clause { Clause(TRUE, body) }

  function Because(text: string, body: seq<Stmt>): Clause { Clause(Lit(VStr(text)), body) }

  function AdminBody(prefix: string): Clause { When([BASE, Holds(Starting(prefix)), ADMIN, NOT_VERY_STALE]) }

  function AdminDataBody(prefix: string): Clause {
    When([BASE, Holds(Starting(prefix)), ADMIN, NOT_VERY_STALE, DATA_OK])
  }

  const GENERAL_BODY :=
    When([BASE, Not(Starting("/sensitive")), Not(Starting("/admin")), Not(Starting("/api/peers")), NOT_VERY_STALE])
  const SENSITIVE_BODY := When([BASE, Holds(Starting("/sensitive")), FRESH])
  const SENSITIVE_DATA_BODY := When([BASE, Holds(Starting("/sensitive")), FRESH, DATA_OK])
  const PUBLIC_BODY := When([BASE, Holds(Starting("/public")), NOT_VERY_STALE, DATA_OK])

  /** The four bodies of `allow` that come first, and the four added with data classification */
  const BASE_ALLOW := [AdminBody("/admin"), AdminBody("/api/peers"), GENERAL_BODY, SENSITIVE_BODY]
  const ADDED_ALLOW := [PUBLIC_BODY, SENSITIVE_DATA_BODY, AdminDataBody("/admin"), AdminDataBody("/api/peers")]
  const ALL_BODIES := BASE_ALLOW + ADDED_ALLOW

  const ALLOWED := "allowed"
  const DENIED := "denied: "
  const CLEARANCE_LOW := DENIED + ("insufficient clearance " + "for data classification")
  const TOO_OLD := DENIED + ("session too old (>24h), " + "full re-authentication required")
  const STALE := DENIED + ("session stale (>8h), " + "step-up re-auth required for sensitive")
  const ANONYMOUS := DENIED + "user not authenticated"
  const NO_MFA := DENIED + "mfa not verified"
  const UNHEALTHY := DENIED + "device posture unhealthy"
  const REAUTH := DENIED + ("sensitive path " + "requires re-auth within 5 minutes")
  const NOT_ADMIN := DENIED + "admin access requires admin role"
  const NOT_PEER_ADMIN := DENIED + "peer API requires admin role"
  const NO_RULE := DENIED + "no matching allow rule"

  const LOW_BODY := Because(CLEARANCE_LOW, [BASE, Holds(CLASSIFICATION), Holds(Call(Lt, CLEARANCE, REQUIRED))])
  const OLD_BODY := Because(TOO_OLD, [BASE, Holds(Rule(VeryStaleSession))])
  const STALE_BODY := Because(STALE,
    [BASE, Holds(Rule(StaleSession)), NOT_VERY_STALE, Not(Rule(FreshAuth)), Holds(Starting("/sensitive"))])
  const ANONYMOUS_BODY := Because(ANONYMOUS, [Not(AUTHENTICATED)])
  const MFA_BODY := Because(NO_MFA, [Holds(AUTHENTICATED), Not(MFA_VERIFIED)])
  const UNHEALTHY_BODY := Because(UNHEALTHY,
    [Holds(AUTHENTICATED), Holds(MFA_VERIFIED), Holds(Call(Ne, POSTURE, Lit(VStr("healthy"))))])
  const REAUTH_BODY := Because(REAUTH,
    [BASE, Holds(Starting("/sensitive")), Not(Rule(FreshAuth)), Not(Rule(StaleSession))])
  const ALLOWED_BODY := Because(ALLOWED, [Holds(Rule(Allow))])

  function NotAdminBody(text: string, prefix: string): Clause {
    Because(text, [BASE, Holds(Starting(prefix)), Is(IS_ADMIN, VBool(false))])
  }

  const REASONS := [
    LOW_BODY, OLD_BODY, STALE_BODY, ANONYMOUS_BODY, MFA_BODY, UNHEALTHY_BODY, REAUTH_BODY,
    NotAdminBody(NOT_ADMIN, "/admin"), NotAdminBody(NOT_PEER_ADMIN, "/api/peers"), ALLOWED_BODY]

  /** The policy with a given list of bodies for `allow` */
  function Rules(n: Name, allow: seq<Clause>): RuleDef {
    match n
    case ValidAuthTime => RuleDef(None, [When([Holds(Call(Gt, AUTH_TIME, Lit(VNum(0.0))))])])
    case SecondsSinceAuth => RuleDef(None, [Clause(Call(Minus, SECONDS, AUTH_TIME), [Holds(Rule(ValidAuthTime))])])
    case FreshAuth => RuleDef(None, [When([Holds(Call(Le, Rule(SecondsSinceAuth), Lit(VNum(300.0))))])])
    case SessionAgeHours =>
      RuleDef(None, [Clause(Call(Div, Call(Minus, SECONDS, AUTH_TIME), Lit(VNum(3600.0))), [Holds(Rule(ValidAuthTime))])])
    case StaleSession => RuleDef(None, [When([Holds(Call(Gt, Rule(SessionAgeHours), Lit(VNum(8.0))))])])
    case VeryStaleSession => RuleDef(None, [When([Holds(Call(Gt, Rule(SessionAgeHours), Lit(VNum(24.0))))])])
    case BaseOk =>
      RuleDef(None, [When([Is(AUTHENTICATED, VBool(true)), Is(MFA_VERIFIED, VBool(true)), Is(POSTURE, VStr("healthy"))])])
    case DataAccessOk =>
      RuleDef(None, [When([Not(CLASSIFICATION)]), When([Holds(CLASSIFICATION), Holds(Call(Ge, CLEARANCE, REQUIRED))])])
    case Allow => RuleDef(Some(VBool(false)), allow)
    case Reason => RuleDef(Some(VStr(NO_RULE)), REASONS)
  }

  function With(allow: seq<Clause>): Program { n => Rules(n, allow) }

  /** The policy as it is */
  const POLICY: Program := With(ALL_BODIES)

  // ---- the meaning of the auxiliary rules ----

  function Yes(b: bool): Out { if b then Defined(VBool(true)) else Undefined }

  /** Seconds since the last authentication, for a numeric `auth_time` above zero */
  function Age(env: Env): Option<real> {
    match Doc(env.input, AUTH_TIME.path)
    case Defined(VNum(t)) => if t > 0.0 then Some(env.nowNs as real / 1000000000.0 - t) else None
    case _ => None
  }

  predicate Fresh(env: Env) { Age(env).Some? && Age(env).value <= 300.0 }

  predicate OlderThan(env: Env, hours: real) { Age(env).Some? && Age(env).value > 3600.0 * hours }

  predicate Base(env: Env) {
    && Doc(env.input, AUTHENTICATED.path) == Defined(VBool(true))
    && Doc(env.input, MFA_VERIFIED.path) == Defined(VBool(true))
    && Doc(env.input, POSTURE.path) == Defined(VStr("healthy"))
  }

  predicate PathStarts(env: Env, prefix: string) {
    var path := Doc(env.input, PATH.path);
    path.Defined? && path.v.VStr? && prefix <= path.v.s
  }

  /** `not startswith(input.path, prefix)` */
  predicate PathAvoids(env: Env, prefix: string) {
    !PathStarts(env, prefix) && !(env.hoist && Doc(env.input, PATH.path).Undefined?)
  }

  predicate IsAdmin(env: Env) { Doc(env.input, IS_ADMIN.path) == Defined(VBool(true)) }

  /** A rule with one body of one statement and the value true */
  lemma SingleStatement(p: Program, s: Stmt, env: Env, rank: nat)
    requires !EvalStmt(p, s, env, rank).Conflict?
    ensures EvalClauses(p, [When([s])], env, rank) == Yes(EvalStmt(p, s, env, rank).Defined?)
  {
    OneBody(p, When([s]), env, rank);
    BodyMeans(p, [s], env, rank);
  }

  lemma ValidAuthTimeMeans(a: seq<Clause>, env: Env)
    ensures var v := Doc(env.input, AUTH_TIME.path);
      EvalRule(With(a), ValidAuthTime, env) == Yes(v.Defined? && Less(VNum(0.0), v.v))
  {
    SingleStatement(With(a), Holds(Call(Gt, AUTH_TIME, Lit(VNum(0.0)))), env, 0);
  }

  function OutNum(x: Option<real>): Out {
    match x
    case Some(r) => Defined(VNum(r))
    case None => Undefined
  }

  lemma SecondsMean(p: Program, env: Env, rank: nat)
    ensures EvalExpr(p, SECONDS, env, rank) == Defined(VNum(env.nowNs as real / 1000000000.0))
  {}

  lemma SecondsSinceAuthMeans(a: seq<Clause>, env: Env)
    ensures EvalRule(With(a), SecondsSinceAuth, env) == OutNum(Age(env))
  {
    var p := With(a);
    var s := Holds(Rule(ValidAuthTime));
    var c := Clause(Call(Minus, SECONDS, AUTH_TIME), [s]);
    ValidAuthTimeMeans(a, env);
    SecondsMean(p, env, 1);
    OneBody(p, c, env, 1);
    BodyMeans(p, [s], env, 1);
  }

  lemma SessionAgeMeans(a: seq<Clause>, env: Env)
    ensures EvalRule(With(a), SessionAgeHours, env) ==
      OutNum(if Age(env).Some? then Some(Age(env).value / 3600.0) else None)
  {
    var p := With(a);
    var s := Holds(Rule(ValidAuthTime));
    var diff := Call(Minus, SECONDS, AUTH_TIME);
    var c := Clause(Call(Div, diff, Lit(VNum(3600.0))), [s]);
    ValidAuthTimeMeans(a, env);
    SecondsMean(p, env, 3);
    OneBody(p, c, env, 3);
    BodyMeans(p, [s], env, 3);
    assert Age(env).Some? ==> EvalExpr(p, diff, env, 3) == Defined(VNum(Age(env).value));
  }

  lemma FreshMeans(a: seq<Clause>, env: Env)
    ensures EvalRule(With(a), FreshAuth, env) == Yes(Fresh(env))
  {
    var s := Holds(Call(Le, Rule(SecondsSinceAuth), Lit(VNum(300.0))));
    SecondsSinceAuthMeans(a, env);
    SingleStatement(With(a), s, env, 2);
  }

  lemma StaleMeans(a: seq<Clause>, env: Env)
    ensures EvalRule(With(a), StaleSession, env) == Yes(OlderThan(env, 8.0))
  {
    var s := Holds(Call(Gt, Rule(SessionAgeHours), Lit(VNum(8.0))));
    SessionAgeMeans(a, env);
    SingleStatement(With(a), s, env, 4);
  }

  lemma VeryStaleMeans(a: seq<Clause>, env: Env)
    ensures EvalRule(With(a), VeryStaleSession, env) == Yes(OlderThan(env, 24.0))
  {
    var s := Holds(Call(Gt, Rule(SessionAgeHours), Lit(VNum(24.0))));
    SessionAgeMeans(a, env);
    SingleStatement(With(a), s, env, 5);
  }

  lemma IsMeans(p: Program, path: seq<string>, v: Val, env: Env, rank: nat)
    ensures EvalStmt(p, Is(In(path), v), env, rank) == Yes(Doc(env.input, path) == Defined(v))
  {
    assert EvalExpr(p, In(path), env, rank) == Doc(env.input, path);
    assert EvalExpr(p, Lit(v), env, rank) == Defined(v);
  }

  /** A body all of whose statements have known outcomes */
  lemma ClauseMeans(p: Program, v: Val, body: seq<Stmt>, outcomes: seq<bool>, env: Env, rank: nat)
    requires |outcomes| == |body|
    requires forall i :: 0 <= i < |body| ==> EvalStmt(p, body[i], env, rank) == Yes(outcomes[i])
    ensures EvalClause(p, Clause(Lit(v), body), env, rank) == if false in outcomes then Undefined else Defined(v)
  {
    BodyMeans(p, body, env, rank);
  }

  lemma OneStatement(p: Program, v: Val, s: Stmt, b: bool, env: Env, rank: nat)
    requires EvalStmt(p, s, env, rank) == Yes(b)
    ensures EvalClause(p, Clause(Lit(v), [s]), env, rank) == if b then Defined(v) else Undefined
  {
    ClauseMeans(p, v, [s], [b], env, rank);
  }

  lemma TwoStatements(p: Program, v: Val, s: Stmt, b: bool, t: Stmt, c: bool, env: Env, rank: nat)
    requires EvalStmt(p, s, env, rank) == Yes(b) && EvalStmt(p, t, env, rank) == Yes(c)
    ensures EvalClause(p, Clause(Lit(v), [s, t]), env, rank) == if b && c then Defined(v) else Undefined
  {
    ClauseMeans(p, v, [s, t], [b, c], env, rank);
  }

  lemma ThreeStatements(p: Program, v: Val, s: Stmt, b: bool, t: Stmt, c: bool, u: Stmt, d: bool, env: Env, rank: nat)
    requires EvalStmt(p, s, env, rank) == Yes(b) && EvalStmt(p, t, env, rank) == Yes(c) && EvalStmt(p, u, env, rank) == Yes(d)
    ensures EvalClause(p, Clause(Lit(v), [s, t, u]), env, rank) == if b && c && d then Defined(v) else Undefined
  {
    ClauseMeans(p, v, [s, t, u], [b, c, d], env, rank);
  }

  lemma FourStatements(p: Program, v: Val, s: Stmt, b: bool, t: Stmt, c: bool, u: Stmt, d: bool, w: Stmt, e: bool,
                       env: Env, rank: nat)
    requires EvalStmt(p, s, env, rank) == Yes(b) && EvalStmt(p, t, env, rank) == Yes(c)
    requires EvalStmt(p, u, env, rank) == Yes(d) && EvalStmt(p, w, env, rank) == Yes(e)
    ensures EvalClause(p, Clause(Lit(v), [s, t, u, w]), env, rank) == if b && c && d && e then Defined(v) else Undefined
  {
    ClauseMeans(p, v, [s, t, u, w], [b, c, d, e], env, rank);
  }

  lemma FiveStatements(p: Program, v: Val, s: Stmt, b: bool, t: Stmt, c: bool, u: Stmt, d: bool, w: Stmt, e: bool,
                       x: Stmt, f: bool, env: Env, rank: nat)
    requires EvalStmt(p, s, env, rank) == Yes(b) && EvalStmt(p, t, env, rank) == Yes(c)
    requires EvalStmt(p, u, env, rank) == Yes(d) && EvalStmt(p, w, env, rank) == Yes(e)
    requires EvalStmt(p, x, env, rank) == Yes(f)
    ensures EvalClause(p, Clause(Lit(v), [s, t, u, w, x]), env, rank) ==
      if b && c && d && e && f then Defined(v) else Undefined
  {
    ClauseMeans(p, v, [s, t, u, w, x], [b, c, d, e, f], env, rank);
  }

  lemma BaseMeans(a: seq<Clause>, env: Env)
    ensures EvalRule(With(a), BaseOk, env) == Yes(Base(env))
  {
    var p := With(a);
    var t, h := VBool(true), VStr("healthy");
    IsMeans(p, AUTHENTICATED.path, t, env, 6);
    IsMeans(p, MFA_VERIFIED.path, t, env, 6);
    IsMeans(p, POSTURE.path, h, env, 6);
    ThreeStatements(p, t, Is(AUTHENTICATED, t), Doc(env.input, AUTHENTICATED.path) == Defined(t),
                    Is(MFA_VERIFIED, t), Doc(env.input, MFA_VERIFIED.path) == Defined(t),
                    Is(POSTURE, h), Doc(env.input, POSTURE.path) == Defined(h), env, 6);
    OneBody(p, When([Is(AUTHENTICATED, t), Is(MFA_VERIFIED, t), Is(POSTURE, h)]), env, 6);
  }

  lemma DataAccessMeans(a: seq<Clause>, env: Env)
    ensures EvalRule(With(a), DataAccessOk, env) in {Undefined, Defined(VBool(true))}
  {
    var p := With(a);
    var c, d := When([Not(CLASSIFICATION)]), When([Holds(CLASSIFICATION), Holds(Call(Ge, CLEARANCE, REQUIRED))]);
    BodyMeans(p, c.body, env, 7);
    TableMeans(p, env, 7);
    BodyMeans(p, d.body, env, 7);
    ClausesAgree(p, [c, d], env, 7);
  }

  lemma TableMeans(p: Program, env: Env, rank: nat)
    ensures !EvalExpr(p, CLEARANCE, env, rank).Conflict? && !EvalExpr(p, REQUIRED, env, rank).Conflict?
  {
    assert !EvalExpr(p, ROLE, env, rank).Conflict? && !EvalExpr(p, CLASSIFICATION, env, rank).Conflict?;
  }

  // ---- the meaning of `allow` ----

  /** The decision, from the four bodies that come first */
  predicate Allowed(env: Env) {
    && Base(env)
    && (|| (PathStarts(env, "/admin") && IsAdmin(env) && !OlderThan(env, 24.0))
        || (PathStarts(env, "/api/peers") && IsAdmin(env) && !OlderThan(env, 24.0))
        || (PathAvoids(env, "/sensitive") && PathAvoids(env, "/admin") && PathAvoids(env, "/api/peers")
            && !OlderThan(env, 24.0))
        || (PathStarts(env, "/sensitive") && Fresh(env)))
  }

  lemma StartingMeans(p: Program, prefix: string, env: Env, rank: nat)
    ensures EvalStmt(p, Holds(Starting(prefix)), env, rank) == Yes(PathStarts(env, prefix))
    ensures EvalStmt(p, Not(Starting(prefix)), env, rank) == Yes(PathAvoids(env, prefix))
  {
    assert EvalExpr(p, PATH, env, rank) == Doc(env.input, PATH.path);
    assert EvalExpr(p, Lit(VStr(prefix)), env, rank) == Defined(VStr(prefix));
  }

  predicate DataOk(a: seq<Clause>, env: Env) { EvalRule(With(a), DataAccessOk, env).Defined? }

  lemma RuleStatement(p: Program, n: Name, b: bool, env: Env, rank: nat)
    requires n.Rank() < rank && EvalRule(p, n, env) == Yes(b)
    ensures EvalStmt(p, Holds(Rule(n)), env, rank) == Yes(b)
    ensures EvalStmt(p, Not(Rule(n)), env, rank) == Yes(!b)
  {}

  /** The statements that the bodies of `allow` and `reason` are made of */
  lemma BaseStatementsMean(a: seq<Clause>, env: Env, rank: nat)
    requires rank >= 8
    ensures EvalStmt(With(a), BASE, env, rank) == Yes(Base(env))
    ensures EvalStmt(With(a), DATA_OK, env, rank) == Yes(DataOk(a, env))
    ensures EvalStmt(With(a), ADMIN, env, rank) == Yes(IsAdmin(env))
  {
    var p := With(a);
    BaseMeans(a, env);
    RuleStatement(p, BaseOk, Base(env), env, rank);
    DataAccessMeans(a, env);
    RuleStatement(p, DataAccessOk, DataOk(a, env), env, rank);
    IsMeans(p, IS_ADMIN.path, VBool(true), env, rank);
  }

  lemma SessionStatementsMean(a: seq<Clause>, env: Env, rank: nat)
    requires rank >= 8
    ensures EvalStmt(With(a), NOT_VERY_STALE, env, rank) == Yes(!OlderThan(env, 24.0))
    ensures EvalStmt(With(a), Holds(Rule(VeryStaleSession)), env, rank) == Yes(OlderThan(env, 24.0))
    ensures EvalStmt(With(a), Holds(Rule(StaleSession)), env, rank) == Yes(OlderThan(env, 8.0))
    ensures EvalStmt(With(a), Not(Rule(StaleSession)), env, rank) == Yes(!OlderThan(env, 8.0))
    ensures EvalStmt(With(a), FRESH, env, rank) == Yes(Fresh(env))
    ensures EvalStmt(With(a), Not(Rule(FreshAuth)), env, rank) == Yes(!Fresh(env))
  {
    var p := With(a);
    FreshMeans(a, env);
    RuleStatement(p, FreshAuth, Fresh(env), env, rank);
    StaleMeans(a, env);
    RuleStatement(p, StaleSession, OlderThan(env, 8.0), env, rank);
    VeryStaleMeans(a, env);
    RuleStatement(p, VeryStaleSession, OlderThan(env, 24.0), env, rank);
  }

  /** The outcomes of the four first and the four added bodies of `allow` */
  function BaseOutcomes(env: Env): seq<bool> {
    var young := !OlderThan(env, 24.0);
    [ Base(env) && PathStarts(env, "/admin") && IsAdmin(env) && young,
      Base(env) && PathStarts(env, "/api/peers") && IsAdmin(env) && young,
      Base(env) && PathAvoids(env, "/sensitive") && PathAvoids(env, "/admin") && PathAvoids(env, "/api/peers") && young,
      Base(env) && PathStarts(env, "/sensitive") && Fresh(env) ]
  }

  function AddedOutcomes(env: Env, dataOk: bool): seq<bool> {
    var young := !OlderThan(env, 24.0);
    [ Base(env) && PathStarts(env, "/public") && young && dataOk,
      Base(env) && PathStarts(env, "/sensitive") && Fresh(env) && dataOk,
      Base(env) && PathStarts(env, "/admin") && IsAdmin(env) && young && dataOk,
      Base(env) && PathStarts(env, "/api/peers") && IsAdmin(env) && young && dataOk ]
  }

  predicate Decides(p: Program, cs: seq<Clause>, outcomes: seq<bool>, env: Env, rank: nat) {
    |outcomes| == |cs| && forall i :: 0 <= i < |cs| ==> EvalClause(p, cs[i], env, rank) == Yes(outcomes[i])
  }

  lemma AdminBodiesMean(a: seq<Clause>, prefix: string, env: Env)
    ensures var yes := Base(env) && PathStarts(env, prefix) && IsAdmin(env) && !OlderThan(env, 24.0);
      && EvalClause(With(a), AdminBody(prefix), env, 8) == Yes(yes)
      && EvalClause(With(a), AdminDataBody(prefix), env, 8) == Yes(yes && DataOk(a, env))
  {
    var p, t, path := With(a), VBool(true), Holds(Starting(prefix));
    BaseStatementsMean(a, env, 8);
    SessionStatementsMean(a, env, 8);
    StartingMeans(p, prefix, env, 8);
    FourStatements(p, t, BASE, Base(env), path, PathStarts(env, prefix), ADMIN, IsAdmin(env),
                   NOT_VERY_STALE, !OlderThan(env, 24.0), env, 8);
    FiveStatements(p, t, BASE, Base(env), path, PathStarts(env, prefix), ADMIN, IsAdmin(env),
                   NOT_VERY_STALE, !OlderThan(env, 24.0), DATA_OK, DataOk(a, env), env, 8);
  }

  lemma GeneralBodyMeans(a: seq<Clause>, env: Env)
    ensures EvalClause(With(a), GENERAL_BODY, env, 8) == Yes(BaseOutcomes(env)[2])
  {
    var p := With(a);
    BaseStatementsMean(a, env, 8);
    SessionStatementsMean(a, env, 8);
    StartingMeans(p, "/sensitive", env, 8);
    StartingMeans(p, "/admin", env, 8);
    StartingMeans(p, "/api/peers", env, 8);
    FiveStatements(p, VBool(true), BASE, Base(env), Not(Starting("/sensitive")), PathAvoids(env, "/sensitive"),
                   Not(Starting("/admin")), PathAvoids(env, "/admin"),
                   Not(Starting("/api/peers")), PathAvoids(env, "/api/peers"),
                   NOT_VERY_STALE, !OlderThan(env, 24.0), env, 8);
  }

  lemma SensitiveBodiesMean(a: seq<Clause>, env: Env)
    ensures var yes := Base(env) && PathStarts(env, "/sensitive") && Fresh(env);
      && EvalClause(With(a), SENSITIVE_BODY, env, 8) == Yes(yes)
      && EvalClause(With(a), SENSITIVE_DATA_BODY, env, 8) == Yes(yes && DataOk(a, env))
  {
    var p, t, path := With(a), VBool(true), Holds(Starting("/sensitive"));
    BaseStatementsMean(a, env, 8);
    SessionStatementsMean(a, env, 8);
    StartingMeans(p, "/sensitive", env, 8);
    ThreeStatements(p, t, BASE, Base(env), path, PathStarts(env, "/sensitive"), FRESH, Fresh(env), env, 8);
    FourStatements(p, t, BASE, Base(env), path, PathStarts(env, "/sensitive"), FRESH, Fresh(env),
                   DATA_OK, DataOk(a, env), env, 8);
  }

  lemma PublicBodyMeans(a: seq<Clause>, env: Env)
    ensures EvalClause(With(a), PUBLIC_BODY, env, 8) == Yes(AddedOutcomes(env, DataOk(a, env))[0])
  {
    var p := With(a);
    BaseStatementsMean(a, env, 8);
    SessionStatementsMean(a, env, 8);
    StartingMeans(p, "/public", env, 8);
    FourStatements(p, VBool(true), BASE, Base(env), Holds(Starting("/public")), PathStarts(env, "/public"),
                   NOT_VERY_STALE, !OlderThan(env, 24.0), DATA_OK, DataOk(a, env), env, 8);
  }

  lemma BodiesMean(a: seq<Clause>, env: Env)
    ensures Decides(With(a), BASE_ALLOW, BaseOutcomes(env), env, 8)
    ensures Decides(With(a), ADDED_ALLOW, AddedOutcomes(env, DataOk(a, env)), env, 8)
  {
    AdminBodiesMean(a, "/admin", env);
    AdminBodiesMean(a, "/api/peers", env);
    GeneralBodyMeans(a, env);
    SensitiveBodiesMean(a, env);
    PublicBodyMeans(a, env);
    var p, base, added := With(a), BaseOutcomes(env), AddedOutcomes(env, DataOk(a, env));
    FourDecide(p, AdminBody("/admin"), base[0], AdminBody("/api/peers"), base[1], GENERAL_BODY, base[2],
               SENSITIVE_BODY, base[3], env, 8);
    FourDecide(p, PUBLIC_BODY, added[0], SENSITIVE_DATA_BODY, added[1], AdminDataBody("/admin"), added[2],
               AdminDataBody("/api/peers"), added[3], env, 8);
  }

  lemma FourDecide(p: Program, c0: Clause, b0: bool, c1: Clause, b1: bool, c2: Clause, b2: bool, c3: Clause, b3: bool,
                   env: Env, rank: nat)
    requires EvalClause(p, c0, env, rank) == Yes(b0) && EvalClause(p, c1, env, rank) == Yes(b1)
    requires EvalClause(p, c2, env, rank) == Yes(b2) && EvalClause(p, c3, env, rank) == Yes(b3)
    ensures Decides(p, [c0, c1, c2, c3], [b0, b1, b2, b3], env, rank)
  {}

  /** The prefixes that the rules test exclude one another. */
  lemma PrefixesAreDisjoint(env: Env)
    ensures PathStarts(env, "/public") ==>
      PathAvoids(env, "/sensitive") && PathAvoids(env, "/admin") && PathAvoids(env, "/api/peers")
  {
    if PathStarts(env, "/public") {
      var s := Doc(env.input, PATH.path).v.s;
      assert s[1] == 'p';
    }
  }

  /**
   * `allow` is the plain decision on every input, for any list of bodies, in any order and with any repetition,
   * that contains the four first ones and none besides the eight.
   */
  lemma AllowMeansFor(cs: seq<Clause>, env: Env)
    requires forall c :: c in BASE_ALLOW ==> c in cs
    requires forall c :: c in cs ==> c in BASE_ALLOW || c in ADDED_ALLOW
    ensures EvalRule(With(cs), Allow, env) == Defined(VBool(Allowed(env)))
  {
    var p, added := With(cs), AddedOutcomes(env, DataOk(cs, env));
    BodiesMean(cs, env);
    ClausesAgree(p, cs, env, 8);
    PrefixesAreDisjoint(env);
    assert true in added ==> Allowed(env);
    assert true in BaseOutcomes(env) <==> Allowed(env);
    assert Allowed(env) ==> exists i :: 0 <= i < 4 && BaseOutcomes(env)[i];
    forall c | c in cs
      ensures EvalClause(p, c, env, 8) in {Undefined, Defined(VBool(true))}
      ensures EvalClause(p, c, env, 8).Defined? ==> Allowed(env)
    {
      if c in BASE_ALLOW {
        var i :| 0 <= i < 4 && BASE_ALLOW[i] == c;
      } else {
        var i :| 0 <= i < 4 && ADDED_ALLOW[i] == c;
      }
    }
    if Allowed(env) {
      var i :| 0 <= i < 4 && BaseOutcomes(env)[i];
      assert BASE_ALLOW[i] in cs;
    }
  }

  /** With the four first bodies alone, and with all eight, `allow` is the plain decision on every input. */
  lemma AllowMeans(env: Env)
    ensures EvalRule(With(BASE_ALLOW), Allow, env) == Defined(VBool(Allowed(env)))
    ensures EvalRule(POLICY, Allow, env) == Defined(VBool(Allowed(env)))
  {
    AllowMeansFor(BASE_ALLOW, env);
    AllowMeansFor(ALL_BODIES, env);
  }

  /** The bodies added for data classification change no decision, whatever the input. */
  lemma AddedBodiesAreIdle(env: Env)
    ensures EvalRule(POLICY, Allow, env) == EvalRule(With(BASE_ALLOW), Allow, env)
  {
    AllowMeans(env);
  }

  // ---- the meaning of `reason` ----

  /** What the authorization bridge knows of a request when it builds the input */
  datatype Facts = Facts(user: bool, mfa: bool, admin: bool, path: string, level: string)

  /**
   * The inputs that the bridge builds: booleans for the identity, a role derived from the admin flag, any
   * posture, and a classification level derived from the path.
   */
  ghost predicate Built(env: Env, q: Facts) {
    && Doc(env.input, AUTHENTICATED.path) == Defined(VBool(q.user))
    && Doc(env.input, MFA_VERIFIED.path) == Defined(VBool(q.mfa))
    && Doc(env.input, IS_ADMIN.path) == Defined(VBool(q.admin))
    && Doc(env.input, ROLE.path) == Defined(VStr(if q.admin then "admin" else "user"))
    && Doc(env.input, POSTURE.path).Defined?
    && Doc(env.input, PATH.path) == Defined(VStr(q.path))
    && Doc(env.input, CLASSIFICATION.path) == Defined(VStr(q.level))
    && q.level in {"critical", "restricted", "public"}
    && (q.level == "public" ==> !("/admin" <= q.path) && !("/api/peers" <= q.path) && !("/sensitive" <= q.path))
  }

  function If(b: bool, text: string): Out { if b then Defined(VStr(text)) else Undefined }

  lemma DocStatement(p: Program, path: seq<string>, b: bool, env: Env, rank: nat)
    requires Doc(env.input, path) == Defined(VBool(b))
    ensures EvalStmt(p, Holds(In(path)), env, rank) == Yes(b) && EvalStmt(p, Not(In(path)), env, rank) == Yes(!b)
  {}

  lemma ClearanceMeans(env: Env, q: Facts, rank: nat)
    requires Built(env, q)
    ensures EvalExpr(POLICY, CLEARANCE, env, rank) == Defined(VNum(if q.admin then 3.0 else 1.0))
  {
    assert EvalExpr(POLICY, ROLE, env, rank) == Doc(env.input, ROLE.path);
    RoleRows(q.admin);
  }

  lemma RoleRows(admin: bool)
    ensures Row(CLEARANCE.rows, VStr(if admin then "admin" else "user")) == Defined(VNum(if admin then 3.0 else 1.0))
  {
    assert CLEARANCE.rows[1..] == [("devops", 2.0), ("user", 1.0), ("anonymous", 0.0)];
    assert CLEARANCE.rows[1..][1..] == [("user", 1.0), ("anonymous", 0.0)];
    assert Row(CLEARANCE.rows[1..][1..], VStr("user")) == Defined(VNum(1.0));
  }

  lemma RequiredMeans(env: Env, q: Facts, rank: nat)
    requires Built(env, q)
    ensures EvalExpr(POLICY, REQUIRED, env, rank) ==
      Defined(VNum(LevelOf(q.level)))
  {
    assert EvalExpr(POLICY, CLASSIFICATION, env, rank) == Doc(env.input, CLASSIFICATION.path);
    LevelRows(q.level);
  }

  lemma LevelRows(level: string)
    requires level in {"critical", "restricted", "public"}
    ensures Row(REQUIRED.rows, VStr(level)) ==
      Defined(VNum(LevelOf(level)))
  {
    var rows := REQUIRED.rows;
    assert rows[1..] == [("restricted", 2.0), ("internal", 1.0), ("public", 0.0)];
    assert rows[1..][1..] == [("internal", 1.0), ("public", 0.0)];
    assert rows[1..][1..][1..] == [("public", 0.0)];
    assert Row(rows[1..][1..], VStr("public")) == Row(rows[1..][1..][1..], VStr("public")) == Defined(VNum(0.0));
  }

  lemma LowBodyMeans(env: Env, q: Facts)
    requires Built(env, q)
    ensures EvalClause(POLICY, LOW_BODY, env, 9) == If(Base(env) && !q.admin && q.level != "public", CLEARANCE_LOW)
  {
    var low := !q.admin && q.level != "public";
    BaseStatementsMean(ALL_BODIES, env, 9);
    LowStatementMeans(env, q);
    ThreeStatements(POLICY, VStr(CLEARANCE_LOW), BASE, Base(env), Holds(CLASSIFICATION), true,
                    Holds(Call(Lt, CLEARANCE, REQUIRED)), low, env, 9);
  }

  lemma LowStatementMeans(env: Env, q: Facts)
    requires Built(env, q)
    ensures EvalStmt(POLICY, Holds(CLASSIFICATION), env, 9) == Yes(true)
    ensures EvalStmt(POLICY, Holds(Call(Lt, CLEARANCE, REQUIRED)), env, 9) == Yes(!q.admin && q.level != "public")
  {
    ClearanceMeans(env, q, 9);
    RequiredMeans(env, q, 9);
    CompareMeans(POLICY, CLEARANCE, REQUIRED, if q.admin then 3.0 else 1.0, LevelOf(q.level), env, 9);
  }

  /**
   * Clearance is not enforced. The clearance rule holds exactly for admins and on public paths, but `allow` does
   * not need it: it goes without exactly for the ordinary users that it allows to a path that is not public, such
   * as all those with a good device and a recent session on the data paths.
   */
  lemma ClearanceIsNotEnforced(env: Env, q: Facts)
    requires Built(env, q)
    ensures EvalRule(POLICY, DataAccessOk, env) == Yes(q.admin || q.level == "public")
    ensures EvalRule(POLICY, Allow, env) == Defined(VBool(true)) && EvalRule(POLICY, DataAccessOk, env) == Undefined
      <==> Allowed(env) && !q.admin && q.level != "public"
    ensures Base(env) && !q.admin && "/api/data" <= q.path && q.level == "restricted" && !OlderThan(env, 24.0)
      ==> EvalRule(POLICY, Allow, env) == Defined(VBool(true)) && EvalRule(POLICY, DataAccessOk, env) == Undefined
  {
    DataAccessIs(env, q);
    AllowMeans(env);
    DataPathIsGeneral(q.path);
  }

  lemma DataAccessIs(env: Env, q: Facts)
    requires Built(env, q)
    ensures EvalRule(POLICY, DataAccessOk, env) == Yes(q.admin || q.level == "public")
  {
    var ok, t := q.admin || q.level == "public", VBool(true);
    ClearanceStatementsMean(env, q);
    OneStatement(POLICY, t, Not(CLASSIFICATION), false, env, 7);
    TwoStatements(POLICY, t, Holds(CLASSIFICATION), true, Holds(Call(Ge, CLEARANCE, REQUIRED)), ok, env, 7);
    SecondBody(POLICY, When([Not(CLASSIFICATION)]), When([Holds(CLASSIFICATION), Holds(Call(Ge, CLEARANCE, REQUIRED))]),
               ok, env, 7);
  }

  lemma SecondBody(p: Program, c: Clause, d: Clause, b: bool, env: Env, rank: nat)
    requires EvalClause(p, c, env, rank) == Undefined && EvalClause(p, d, env, rank) == Yes(b)
    ensures EvalClauses(p, [c, d], env, rank) == Yes(b)
  {
    assert [c, d][1..] == [d];
    OneBody(p, d, env, rank);
  }

  lemma ClearanceStatementsMean(env: Env, q: Facts)
    requires Built(env, q)
    ensures EvalStmt(POLICY, Holds(CLASSIFICATION), env, 7) == Yes(true)
    ensures EvalStmt(POLICY, Not(CLASSIFICATION), env, 7) == Yes(false)
    ensures EvalStmt(POLICY, Holds(Call(Ge, CLEARANCE, REQUIRED)), env, 7) == Yes(q.admin || q.level == "public")
  {
    ClearanceMeans(env, q, 7);
    RequiredMeans(env, q, 7);
    CompareMeans(POLICY, CLEARANCE, REQUIRED, if q.admin then 3.0 else 1.0, LevelOf(q.level), env, 7);
  }

  function LevelOf(level: string): real {
    if level == "critical" then 3.0 else if level == "restricted" then 2.0 else 0.0
  }

  lemma CompareMeans(p: Program, x: Expr, y: Expr, a: real, b: real, env: Env, rank: nat)
    requires EvalExpr(p, x, env, rank) == Defined(VNum(a)) && EvalExpr(p, y, env, rank) == Defined(VNum(b))
    ensures EvalStmt(p, Holds(Call(Lt, x, y)), env, rank) == Yes(a < b)
    ensures EvalStmt(p, Holds(Call(Ge, x, y)), env, rank) == Yes(a >= b)
  {}

  lemma DataPathIsGeneral(s: string)
    ensures "/api/data" <= s ==> !("/sensitive" <= s) && !("/admin" <= s) && !("/api/peers" <= s)
  {
    assert "/sensitive" <= s ==> s[1] == 's';
    assert "/admin" <= s ==> s[2] == 'd';
    assert "/api/peers" <= s ==> s[5] == 'p';
    assert "/api/data" <= s ==> s[1] == 'a' && s[2] == 'p' && s[5] == 'd';
  }

  lemma OldBodyMeans(env: Env)
    ensures EvalClause(POLICY, OLD_BODY, env, 9) == If(Base(env) && OlderThan(env, 24.0), TOO_OLD)
  {
    BaseStatementsMean(ALL_BODIES, env, 9);
    SessionStatementsMean(ALL_BODIES, env, 9);
    TwoStatements(POLICY, VStr(TOO_OLD), BASE, Base(env), Holds(Rule(VeryStaleSession)), OlderThan(env, 24.0), env, 9);
  }

  lemma StaleBodyMeans(env: Env)
    ensures EvalClause(POLICY, STALE_BODY, env, 9) ==
      If(Base(env) && OlderThan(env, 8.0) && !OlderThan(env, 24.0) && !Fresh(env) && PathStarts(env, "/sensitive"), STALE)
  {
    BaseStatementsMean(ALL_BODIES, env, 9);
    SessionStatementsMean(ALL_BODIES, env, 9);
    StartingMeans(POLICY, "/sensitive", env, 9);
    FiveStatements(POLICY, VStr(STALE), BASE, Base(env), Holds(Rule(StaleSession)), OlderThan(env, 8.0),
                   NOT_VERY_STALE, !OlderThan(env, 24.0), Not(Rule(FreshAuth)), !Fresh(env),
                   Holds(Starting("/sensitive")), PathStarts(env, "/sensitive"), env, 9);
  }

  lemma ReauthBodyMeans(env: Env)
    ensures EvalClause(POLICY, REAUTH_BODY, env, 9) ==
      If(Base(env) && PathStarts(env, "/sensitive") && !Fresh(env) && !OlderThan(env, 8.0), REAUTH)
  {
    BaseStatementsMean(ALL_BODIES, env, 9);
    SessionStatementsMean(ALL_BODIES, env, 9);
    StartingMeans(POLICY, "/sensitive", env, 9);
    FourStatements(POLICY, VStr(REAUTH), BASE, Base(env), Holds(Starting("/sensitive")), PathStarts(env, "/sensitive"),
                   Not(Rule(FreshAuth)), !Fresh(env), Not(Rule(StaleSession)), !OlderThan(env, 8.0), env, 9);
  }

  lemma IdentityBodiesMean(env: Env, q: Facts)
    requires Built(env, q)
    ensures EvalClause(POLICY, ANONYMOUS_BODY, env, 9) == If(!q.user, ANONYMOUS)
    ensures EvalClause(POLICY, MFA_BODY, env, 9) == If(q.user && !q.mfa, NO_MFA)
  {
    DocStatement(POLICY, AUTHENTICATED.path, q.user, env, 9);
    DocStatement(POLICY, MFA_VERIFIED.path, q.mfa, env, 9);
    OneStatement(POLICY, VStr(ANONYMOUS), Not(AUTHENTICATED), !q.user, env, 9);
    TwoStatements(POLICY, VStr(NO_MFA), Holds(AUTHENTICATED), q.user, Not(MFA_VERIFIED), !q.mfa, env, 9);
  }

  lemma SickStatementMeans(env: Env)
    requires Doc(env.input, POSTURE.path).Defined?
    ensures EvalStmt(POLICY, Holds(Call(Ne, POSTURE, Lit(VStr("healthy")))), env, 9)
         == Yes(Doc(env.input, POSTURE.path) != Defined(VStr("healthy")))
  {
    assert EvalExpr(POLICY, POSTURE, env, 9) == Doc(env.input, POSTURE.path);
    assert EvalExpr(POLICY, Lit(VStr("healthy")), env, 9) == Defined(VStr("healthy"));
  }

  lemma UnhealthyBodyMeans(env: Env, q: Facts)
    requires Built(env, q)
    ensures EvalClause(POLICY, UNHEALTHY_BODY, env, 9) == If(q.user && q.mfa && !Base(env), UNHEALTHY)
  {
    DocStatement(POLICY, AUTHENTICATED.path, q.user, env, 9);
    DocStatement(POLICY, MFA_VERIFIED.path, q.mfa, env, 9);
    SickStatementMeans(env);
    var sick := Doc(env.input, POSTURE.path) != Defined(VStr("healthy"));
    ThreeStatements(POLICY, VStr(UNHEALTHY), Holds(AUTHENTICATED), q.user, Holds(MFA_VERIFIED), q.mfa,
                    Holds(Call(Ne, POSTURE, Lit(VStr("healthy")))), sick, env, 9);
  }

  lemma NotAdminBodyMeans(env: Env, q: Facts, text: string, prefix: string)
    requires Built(env, q)
    ensures EvalClause(POLICY, NotAdminBody(text, prefix), env, 9) ==
      If(Base(env) && PathStarts(env, prefix) && !q.admin, text)
  {
    BaseStatementsMean(ALL_BODIES, env, 9);
    StartingMeans(POLICY, prefix, env, 9);
    IsMeans(POLICY, IS_ADMIN.path, VBool(false), env, 9);
    ThreeStatements(POLICY, VStr(text), BASE, Base(env), Holds(Starting(prefix)), PathStarts(env, prefix),
                    Is(IS_ADMIN, VBool(false)), !q.admin, env, 9);
  }

  lemma AllowedBodyMeans(env: Env)
    ensures EvalClause(POLICY, ALLOWED_BODY, env, 9) == If(Allowed(env), ALLOWED)
  {
    AllowMeans(env);
    var s := Holds(Rule(Allow));
    assert EvalStmt(POLICY, s, env, 9) == Yes(Allowed(env));
    OneStatement(POLICY, VStr(ALLOWED), s, Allowed(env), env, 9);
  }

  lemma ReasonBodies(c: Clause)
    ensures c in REASONS <==>
      || c == LOW_BODY || c == OLD_BODY || c == STALE_BODY || c == ANONYMOUS_BODY || c == MFA_BODY
      || c == UNHEALTHY_BODY || c == REAUTH_BODY || c == NotAdminBody(NOT_ADMIN, "/admin")
      || c == NotAdminBody(NOT_PEER_ADMIN, "/api/peers") || c == ALLOWED_BODY
  {}

  /** The tests that the reasons are made of */
  datatype Tests = Tests(user: bool, mfa: bool, base: bool, admin: bool, open: bool,
                         old8: bool, old24: bool, recent: bool,
                         sensitive: bool, adminPath: bool, peerPath: bool, allowed: bool)

  function TestsOf(env: Env, q: Facts): Tests {
    Tests(q.user, q.mfa, Base(env), q.admin, q.level == "public", OlderThan(env, 8.0), OlderThan(env, 24.0), Fresh(env),
          PathStarts(env, "/sensitive"), PathStarts(env, "/admin"), PathStarts(env, "/api/peers"), Allowed(env))
  }

  /** How the tests of one input depend on one another */
  ghost predicate Consistent(t: Tests) {
    && (t.base ==> t.user && t.mfa)
    && (t.old24 ==> t.old8) && (t.old8 ==> !t.recent)
    && (t.open ==> !t.sensitive && !t.adminPath && !t.peerPath)
    && !(t.sensitive && t.adminPath) && !(t.sensitive && t.peerPath) && !(t.adminPath && t.peerPath)
    && (t.allowed <==> t.base && (if t.sensitive then t.recent else (t.adminPath || t.peerPath ==> t.admin) && !t.old24))
  }

  lemma TestsAreConsistent(env: Env, q: Facts)
    requires Built(env, q)
    ensures Consistent(TestsOf(env, q))
  {
    PathsExclude(q.path);
  }

  lemma PathsExclude(s: string)
    ensures !("/sensitive" <= s && "/admin" <= s) && !("/sensitive" <= s && "/api/peers" <= s)
    ensures !("/admin" <= s && "/api/peers" <= s)
  {
    assert "/sensitive" <= s ==> s[1] == 's';
    assert "/admin" <= s ==> s[1] == 'a' && s[2] == 'd';
    assert "/api/peers" <= s ==> s[1] == 'a' && s[2] == 'p';
  }

  /** The one reason there is, for the inputs that have one, and the body that gives it */
  function TheReason(t: Tests): string {
    if !t.user then ANONYMOUS
    else if !t.mfa then NO_MFA
    else if !t.base then UNHEALTHY
    else if t.allowed then ALLOWED
    else if t.old24 then TOO_OLD
    else if t.old8 then STALE
    else REAUTH
  }

  function OneReason(t: Tests): Out {
    if !t.base || t.admin || t.open then Defined(VStr(TheReason(t))) else Conflict
  }

  function TheBody(t: Tests): Clause {
    if !t.user then ANONYMOUS_BODY
    else if !t.mfa then MFA_BODY
    else if !t.base then UNHEALTHY_BODY
    else if t.allowed then ALLOWED_BODY
    else if t.old24 then OLD_BODY
    else if t.old8 then STALE_BODY
    else REAUTH_BODY
  }

  /** A second reason besides the clearance, for a user without clearance */
  function OtherBody(t: Tests): Clause {
    if t.allowed then ALLOWED_BODY
    else if t.old24 then OLD_BODY
    else if t.adminPath then NotAdminBody(NOT_ADMIN, "/admin")
    else if t.peerPath then NotAdminBody(NOT_PEER_ADMIN, "/api/peers")
    else if t.old8 then STALE_BODY
    else REAUTH_BODY
  }

  function ReasonValue(env: Env): Clause -> Out { c => EvalClause(POLICY, c, env, 9) }

  /** When each of the ten reasons applies, as facts about the values of the bodies */
  ghost predicate ReasonsApply(value: Clause -> Out, t: Tests) {
    && value(LOW_BODY) == If(t.base && !t.admin && !t.open, CLEARANCE_LOW)
    && value(OLD_BODY) == If(t.base && t.old24, TOO_OLD)
    && value(STALE_BODY) == If(t.base && t.old8 && !t.old24 && !t.recent && t.sensitive, STALE)
    && value(ANONYMOUS_BODY) == If(!t.user, ANONYMOUS)
    && value(MFA_BODY) == If(t.user && !t.mfa, NO_MFA)
    && value(UNHEALTHY_BODY) == If(t.user && t.mfa && !t.base, UNHEALTHY)
    && value(REAUTH_BODY) == If(t.base && t.sensitive && !t.recent && !t.old8, REAUTH)
    && value(NotAdminBody(NOT_ADMIN, "/admin")) == If(t.base && t.adminPath && !t.admin, NOT_ADMIN)
    && value(NotAdminBody(NOT_PEER_ADMIN, "/api/peers")) == If(t.base && t.peerPath && !t.admin, NOT_PEER_ADMIN)
    && value(ALLOWED_BODY) == If(t.allowed, ALLOWED)
  }

  lemma ReasonsMean(env: Env, q: Facts)
    requires Built(env, q)
    ensures ReasonsApply(ReasonValue(env), TestsOf(env, q))
  {
    LowBodyMeans(env, q);
    OldBodyMeans(env);
    StaleBodyMeans(env);
    ReauthBodyMeans(env);
    IdentityBodiesMean(env, q);
    UnhealthyBodyMeans(env, q);
    NotAdminBodyMeans(env, q, NOT_ADMIN, "/admin");
    NotAdminBodyMeans(env, q, NOT_PEER_ADMIN, "/api/peers");
    AllowedBodyMeans(env);
  }

  lemma LoneReason(value: Clause -> Out, t: Tests)
    requires Consistent(t) && ReasonsApply(value, t) && (!t.base || t.admin || t.open)
    ensures TheBody(t) in REASONS && value(TheBody(t)) == Defined(VStr(TheReason(t)))
    ensures forall c :: c in REASONS ==> c == TheBody(t) || value(c) == Undefined
  {
    ReasonBodies(TheBody(t));
    forall c | c in REASONS ensures c == TheBody(t) || value(c) == Undefined { ReasonBodies(c); }
  }

  lemma SecondReason(value: Clause -> Out, t: Tests)
    requires Consistent(t) && ReasonsApply(value, t) && t.base && !t.admin && !t.open
    ensures LOW_BODY in REASONS && value(LOW_BODY) == Defined(VStr(CLEARANCE_LOW))
    ensures OtherBody(t) in REASONS && value(OtherBody(t)).Defined? && value(OtherBody(t)) != value(LOW_BODY)
  {
    ReasonBodies(LOW_BODY);
    ReasonBodies(OtherBody(t));
  }

  lemma ReasonClauses(value: Clause -> Out, t: Tests, env: Env)
    requires Consistent(t) && ReasonsApply(value, t) && value == ReasonValue(env)
    ensures EvalClauses(POLICY, REASONS, env, 9) == OneReason(t)
  {
    if !t.base || t.admin || t.open {
      LoneReason(value, t);
      OneDefined(POLICY, REASONS, TheBody(t), env, 9);
    } else {
      SecondReason(value, t);
      TwoDefined(POLICY, REASONS, LOW_BODY, OtherBody(t), env, 9);
    }
  }

  /** The first letters tell the reasons apart. */
  lemma TheReasonTells(t: Tests)
    requires Consistent(t)
    ensures TheReason(t) == ALLOWED <==> t.allowed
    ensures TheReason(t) != NO_RULE
  {
    assert ALLOWED[0] == 'a' && DENIED[0] == 'd';
    assert NO_RULE[8] == 'n' && TOO_OLD[8] == 's' && STALE[8] == 's' && ANONYMOUS[8] == 'u';
    assert NO_MFA[8] == 'm' && UNHEALTHY[8] == 'd' && REAUTH[8] == 's';
  }

  /**
   * On the inputs that the bridge builds, `reason` has exactly one value if the base check fails, the user is an
   * admin or the path is public, and conflicting values otherwise. Where it has one value, that is "allowed"
   * exactly when `allow` holds. The default is never used.
   */
  lemma ReasonMeans(env: Env, q: Facts)
    requires Built(env, q)
    ensures EvalRule(POLICY, Reason, env).Defined? <==> !Base(env) || q.admin || q.level == "public"
    ensures EvalRule(POLICY, Reason, env) == OneReason(TestsOf(env, q))
    ensures TheReason(TestsOf(env, q)) == ALLOWED <==> Allowed(env)
    ensures TheReason(TestsOf(env, q)) != NO_RULE
  {
    ReasonTells(env, q);
    ReasonClausesMean(env, q);
    ReasonRuleMeans(OneReason(TestsOf(env, q)), env);
  }

  lemma ReasonRuleMeans(o: Out, env: Env)
    requires EvalClauses(POLICY, REASONS, env, 9) == o && !o.Undefined?
    ensures EvalRule(POLICY, Reason, env) == o
  {
    ReasonRule();
    RuleMeans(POLICY, Reason, REASONS, VStr(NO_RULE), o, env);
  }

  lemma ReasonTells(env: Env, q: Facts)
    requires Built(env, q)
    ensures TheReason(TestsOf(env, q)) == ALLOWED <==> Allowed(env)
    ensures TheReason(TestsOf(env, q)) != NO_RULE
  {
    TestsAreConsistent(env, q);
    TheReasonTells(TestsOf(env, q));
  }

  lemma ReasonRule()
    ensures POLICY(Reason) == RuleDef(Some(VStr(NO_RULE)), REASONS)
  {}

  lemma ReasonClausesMean(env: Env, q: Facts)
    requires Built(env, q)
    ensures EvalClauses(POLICY, REASONS, env, 9) == OneReason(TestsOf(env, q))
  {
    TestsAreConsistent(env, q);
    ReasonsMean(env, q);
    ReasonClauses(ReasonValue(env), TestsOf(env, q), env);
  }
}
