/** The authorization bridge: `validate`, from the proxy's answer, the posture store and the policy engine. */
module Bridge {
  import opened Basics
  import opened Json
  import opened Rego
  import opened Policy
  import P = Posture
  import opened Identity

  // ---- the input of the policy ----

  function Level(path: string): string {
    var low := Lower(path);
    if "/admin" <= low || "/api/peers" <= low then "critical"
    else if "/sensitive" <= low || "/api/data" <= low then "restricted"
    else "public"
  }

  /** In lower case the path starts with one of the four prefixes that are classified. */
  predicate Classified(path: string) {
    || "/admin" <= Lower(path) || "/api/peers" <= Lower(path)
    || "/sensitive" <= Lower(path) || "/api/data" <= Lower(path)
  }

  /** The classification that the bridge puts into the input, by the prefixes of the lower-cased path */
  lemma LevelMeans(path: string)
    ensures Level(path) == "critical" <==> "/admin" <= Lower(path) || "/api/peers" <= Lower(path)
    ensures Level(path) == "restricted" <==> "/sensitive" <= Lower(path) || "/api/data" <= Lower(path)
    ensures Level(path) == "public" <==> !Classified(path)
  {
    var low := Lower(path);
    assert "/sensitive" <= low ==> low[1] == 's';
    assert "/admin" <= low ==> low[1] == 'a' && low[2] == 'd';
    assert "/api/peers" <= low ==> low[1] == 'a' && low[2] == 'p' && low[5] == 'p';
    assert "/api/data" <= low ==> low[1] == 'a' && low[2] == 'p' && low[5] == 'd';
    assert "critical"[0] == 'c' && "restricted"[0] == 'r' && "public"[0] == 'p';
  }

  predicate Admin(id: Identity) { id.User? && id.isAdmin }

  function UserFields(id: Identity): Fields {
    Field("authenticated", Bool(id.User?),
      Field("mfa_verified", Bool(id.User? && id.mfa),
        Field("auth_time", Int(if id.User? then id.authTime else 0),
          Field("email", if id.User? then id.email else Str(""),
            Field("is_admin", Bool(Admin(id)),
              Field("role", Str(if Admin(id) then "admin" else "user"), Empty))))))
  }

  function DeviceFields(ip: string, posture: Fields): Fields {
    Field("ip", Str(ip), Field("posture", GetOr(posture, "posture", Str("unhealthy")), Empty))
  }

  function Input(id: Identity, ip: string, posture: Fields, path: string): Json {
    Obj(Field("user", Obj(UserFields(id)),
      Field("device", Obj(DeviceFields(ip, posture)),
        Field("data", Obj(Field("classification", Str(Level(path)), Empty)),
          Field("path", Str(path), Empty)))))
  }

  /** The input that the policy reads, key by key */
  lemma InputSays(id: Identity, ip: string, posture: Fields, path: string)
    requires !id.Failed?
    ensures var f := Input(id, ip, posture, path).fields;
      && Get(f, "path") == Some(Str(path))
      && Get(f, "data") == Some(Obj(Field("classification", Str(Level(path)), Empty)))
      && Get(f, "user").value.Obj? && Get(f, "device").value.Obj?
      && var (u, d) := (Get(f, "user").value.fields, Get(f, "device").value.fields);
      && (forall k :: k in {"authenticated", "mfa_verified", "auth_time", "email", "is_admin"} ==>
            Get(u, k) == Some(GetOr(Dict(id), k, NotToldAs(k))))
      && Get(u, "role") == Some(Str(if GetOr(Dict(id), "is_admin", Bool(false)) == Bool(true) then "admin" else "user"))
      && Get(d, "ip") == Some(Str(ip)) && Get(d, "posture") == Some(GetOr(posture, "posture", Str("unhealthy")))
  {
    InputDocs(id, ip, posture, path);
    UserDocs(id);
    DictSays(id);
    EmailIsTold(id);
  }

  /** The default of a key that the identity does not have */
  function NotToldAs(key: string): Json {
    if key == "auth_time" then Int(0) else if key == "email" then Str("") else Bool(false)
  }

  lemma EmailIsTold(id: Identity)
    ensures Get(UserFields(id), "email") == Some(if id.User? then id.email else Str(""))
  {
    var r1 := Field("role", Str(if Admin(id) then "admin" else "user"), Empty);
    var r2 := Field("is_admin", Bool(Admin(id)), r1);
    var r3 := Field("email", if id.User? then id.email else Str(""), r2);
    var r4 := Field("auth_time", Int(if id.User? then id.authTime else 0), r3);
    assert Get(r4, "email") == Get(r3, "email") == Some(r3.value);
    assert Get(Field("mfa_verified", Bool(id.User? && id.mfa), r4), "email") == Get(r4, "email");
  }

  // ---- the policy engine ----

  /** How a query went: no answer, an answer whose body is not JSON, or an answer. */
  datatype Wire = Down | Garbled | Up

  /** A query that reaches the engine: the clock it reads, and how it treats negated calls */
  datatype Query = Query(wire: Wire, nowNs: int, hoist: bool)

  /** `answer.get("result", default)`: an undefined rule and a conflict both leave no result. */
  function Result(o: Out, default: Val): Val { if o.Defined? then o.v else default }

  function ResultText(v: Val): string { if v.VStr? then v.s else "" }

  function Ask(q: Query, n: Name, input: Json): Out { EvalRule(POLICY, n, Env(input, q.nowNs, q.hoist)) }

  const UNREACHABLE := DENIED + "policy engine unreachable"

  /** The decision and the reason, as the two queries leave them */
  function Decide(allow: Query, why: Query, input: Json): (bool, string) {
    if allow.wire.Down? || why.wire.Down? || allow.wire.Garbled? then (false, UNREACHABLE)
    else
      var allowed := Result(Ask(allow, Allow, input), VBool(false)) == VBool(true);
      if why.wire.Garbled? then (allowed, UNREACHABLE)
      else (allowed, ResultText(Result(Ask(why, Reason, input), VStr("unknown"))))
  }

  // ---- validate ----

  /** `ServerError` is the answer to an exception that nothing catches. */
  datatype Response =
    | ServerError
    | Response(status: int, reason: string, clearance: Option<string>, location: Option<string>)

  /** `clearance={identity.get('role', 'user')}` for a role that is a text */
  function ClearanceHeader(id: Identity): string
    requires !id.Failed?
  {
    match GetOr(Dict(id), "role", Str("user"))
    case Str(role) => "clearance=" + role
    case _ => "clearance="
  }

  function Respond(id: Identity, allowed: bool, reason: string): Response
    requires !id.Failed?
  {
    if allowed then Response(200, reason, Some(ClearanceHeader(id)), None)
    else if !id.User? then Response(401, reason, None, Some("/oauth2/sign_in"))
    else Response(403, reason, None, None)
  }

  function Validate(id: Identity, posture: P.Reply, ip: string, path: string, allow: Query, why: Query): Response {
    if id.Failed? || posture.Crash? then ServerError
    else
      var (allowed, reason) := Decide(allow, why, Input(id, ip, posture.record, path));
      Respond(id, allowed, reason)
  }

  // ---- what a decision means ----

  function Seconds(nowNs: int): real { nowNs as real / 1000000000.0 }

  /** The conditions under which a user with a given posture record may use a path */
  predicate Permits(id: Identity, posture: Fields, path: string, now: real) {
    && id.User? && id.mfa && Get(posture, "posture") == Some(Str("healthy"))
    && if "/sensitive" <= path then id.authTime > 0 && now - id.authTime as real <= 300.0
       else && ("/admin" <= path || "/api/peers" <= path ==> id.isAdmin)
            && (id.authTime > 0 ==> now - id.authTime as real <= 86400.0)
  }

  function FactsOf(id: Identity, path: string): Facts {
    Facts(id.User?, id.User? && id.mfa, Admin(id), path, Level(path))
  }

  lemma DocTwo(j: Json, outer: string, inner: string, f: Fields)
    requires j.Obj? && Get(j.fields, outer) == Some(Obj(f)) && Get(f, inner).Some?
    ensures Doc(j, [outer, inner]) == Defined(FromJson(Get(f, inner).value))
  {
    assert [outer, inner][1..] == [inner];
    assert Lookup(Obj(f), [inner]) == Some(Get(f, inner).value);
  }

  lemma UserDocs(id: Identity)
    ensures var f := UserFields(id);
      && Get(f, "authenticated") == Some(Bool(id.User?)) && Get(f, "mfa_verified") == Some(Bool(id.User? && id.mfa))
      && Get(f, "auth_time") == Some(Int(if id.User? then id.authTime else 0))
      && Get(f, "is_admin") == Some(Bool(Admin(id)))
      && Get(f, "role") == Some(Str(if Admin(id) then "admin" else "user"))
  {
    var r1 := Field("role", Str(if Admin(id) then "admin" else "user"), Empty);
    var r2 := Field("is_admin", Bool(Admin(id)), r1);
    var r3 := Field("email", if id.User? then id.email else Str(""), r2);
    var r4 := Field("auth_time", Int(if id.User? then id.authTime else 0), r3);
    assert Get(r2, "role") == Get(r1, "role") == Some(r1.value);
    assert Get(r3, "role") == Some(r1.value) && Get(r3, "is_admin") == Some(r2.value);
    assert Get(r4, "role") == Some(r1.value) && Get(r4, "is_admin") == Some(r2.value);
    var r5 := Field("mfa_verified", Bool(id.User? && id.mfa), r4);
    assert Get(r5, "role") == Some(r1.value) && Get(r5, "is_admin") == Some(r2.value);
    assert Get(r5, "auth_time") == Some(r4.value);
  }

  lemma InputDocs(id: Identity, ip: string, posture: Fields, path: string)
    ensures var f := Input(id, ip, posture, path).fields;
      && Get(f, "user") == Some(Obj(UserFields(id))) && Get(f, "device") == Some(Obj(DeviceFields(ip, posture)))
      && Get(f, "data") == Some(Obj(Field("classification", Str(Level(path)), Empty)))
      && Get(f, "path") == Some(Str(path))
  {
    var r1 := Field("path", Str(path), Empty);
    var r2 := Field("data", Obj(Field("classification", Str(Level(path)), Empty)), r1);
    var r3 := Field("device", Obj(DeviceFields(ip, posture)), r2);
    assert Get(r2, "path") == Get(r1, "path") == Some(Str(path));
    assert Get(r3, "path") == Some(Str(path)) && Get(r3, "data") == Some(r2.value);
  }

  lemma LevelCoversPaths(path: string)
    ensures Level(path) in {"critical", "restricted", "public"}
    ensures Level(path) == "public" ==> !("/admin" <= path) && !("/api/peers" <= path) && !("/sensitive" <= path)
  {
    LowerKeepsPrefix("/admin", path);
    LowerKeepsPrefix("/api/peers", path);
    LowerKeepsPrefix("/sensitive", path);
  }

  lemma LowerKeepsPrefix(p: string, s: string)
    requires forall i :: 0 <= i < |p| ==> LowerChar(p[i]) == p[i]
    ensures p <= s ==> p <= Lower(s)
  {}

  /** Every input that the bridge builds is of the kind that the reasons were analysed for. */
  lemma InputIsBuilt(id: Identity, ip: string, posture: Fields, path: string, nowNs: int, hoist: bool)
    ensures var env := Env(Input(id, ip, posture, path), nowNs, hoist);
      && Built(env, FactsOf(id, path))
      && Doc(env.input, AUTH_TIME.path) == Defined(VNum((if id.User? then id.authTime else 0) as real))
      && Doc(env.input, POSTURE.path) == Defined(FromJson(GetOr(posture, "posture", Str("unhealthy"))))
  {
    var j := Input(id, ip, posture, path);
    InputDocs(id, ip, posture, path);
    LevelCoversPaths(path);
    UserDocsIn(j, id);
    DocTwo(j, "device", "posture", DeviceFields(ip, posture));
    DocTwo(j, "data", "classification", Field("classification", Str(Level(path)), Empty));
    assert Lookup(j, ["path"]) == Lookup(Str(path), ["path"][1..]) == Some(Str(path));
  }

  lemma UserDocsIn(j: Json, id: Identity)
    requires j.Obj? && Get(j.fields, "user") == Some(Obj(UserFields(id)))
    ensures Doc(j, AUTHENTICATED.path) == Defined(VBool(id.User?))
    ensures Doc(j, MFA_VERIFIED.path) == Defined(VBool(id.User? && id.mfa))
    ensures Doc(j, AUTH_TIME.path) == Defined(VNum((if id.User? then id.authTime else 0) as real))
    ensures Doc(j, IS_ADMIN.path) == Defined(VBool(Admin(id)))
    ensures Doc(j, ROLE.path) == Defined(VStr(if Admin(id) then "admin" else "user"))
  {
    UserDocs(id);
    DocTwo(j, "user", "authenticated", UserFields(id));
    DocTwo(j, "user", "mfa_verified", UserFields(id));
    DocTwo(j, "user", "auth_time", UserFields(id));
    DocTwo(j, "user", "is_admin", UserFields(id));
    DocTwo(j, "user", "role", UserFields(id));
  }

  lemma BaseMeans(env: Env, id: Identity, posture: Fields, path: string)
    requires Built(env, FactsOf(id, path))
    requires Doc(env.input, POSTURE.path) == Defined(FromJson(GetOr(posture, "posture", Str("unhealthy"))))
    ensures Base(env) <==> id.User? && id.mfa && Get(posture, "posture") == Some(Str("healthy"))
  {}

  /** On the bridge's inputs the policy permits exactly what `Permits` says. */
  lemma AllowedMeansPermits(id: Identity, ip: string, posture: Fields, path: string, nowNs: int, hoist: bool)
    ensures Allowed(Env(Input(id, ip, posture, path), nowNs, hoist)) <==> Permits(id, posture, path, Seconds(nowNs))
  {
    var env := Env(Input(id, ip, posture, path), nowNs, hoist);
    InputIsBuilt(id, ip, posture, path, nowNs, hoist);
    BaseMeans(env, id, posture, path);
    TestsAreConsistent(env, FactsOf(id, path));
  }

  // ---- clearance ----

  /** The clearance rule of the policy on the bridge's input */
  function Clearance(id: Identity, ip: string, posture: Fields, path: string, q: Query): Out {
    Ask(q, DataAccessOk, Input(id, ip, posture, path))
  }

  lemma ClearanceIs(id: Identity, ip: string, posture: Fields, path: string, q: Query)
    ensures Clearance(id, ip, posture, path, q) == Yes(Admin(id) || Level(path) == "public")
  {
    InputIsBuilt(id, ip, posture, path, q.nowNs, q.hoist);
    DataAccessIs(Env(Input(id, ip, posture, path), q.nowNs, q.hoist), FactsOf(id, path));
  }

  /** A request is allowed without clearance exactly if it is a permitted one of an ordinary user on a classified path. */
  lemma AllowedWithoutClearance(id: Identity, ip: string, posture: Fields, path: string, q: Query)
    ensures Ask(q, Allow, Input(id, ip, posture, path)) == Defined(VBool(true))
      && Clearance(id, ip, posture, path, q) == Undefined
      <==> Permits(id, posture, path, Seconds(q.nowNs)) && !Admin(id) && Classified(path)
  {
    LevelMeans(path);
    ClearanceIs(id, ip, posture, path, q);
    AllowMeans(Env(Input(id, ip, posture, path), q.nowNs, q.hoist));
    AllowedMeansPermits(id, ip, posture, path, q.nowNs, q.hoist);
  }

  /** Every request that is permitted on the path has clearance. */
  ghost predicate ClearanceGates(path: string) {
    forall id, ip, posture, q: Query ::
      Permits(id, posture, path, Seconds(q.nowNs)) ==> Clearance(id, ip, posture, path, q).Defined?
  }

  /** The paths that ask for an admin anyway, as they are written */
  predicate AdminPath(path: string) { "/admin" <= path || "/api/peers" <= path }

  const USER := User(Str("user"), true, 1000, Arr(Nil), false)
  const HEALTHY := Field("posture", Str("healthy"), Empty)
  const AT_LOGIN := Query(Up, 1000000000000, false)

  /**
   * Where clearance gates access: exactly on the paths that are not classified or that the policy keeps for admins. On
   * every other path an ordinary user who has just logged in is permitted without it.
   */
  lemma ClearanceGatesMeans(path: string)
    ensures ClearanceGates(path) <==> !Classified(path) || AdminPath(path)
  {
    LevelMeans(path);
    AdminIsNotSensitive(path);
    forall id, ip, posture, q: Query
      ensures Clearance(id, ip, posture, path, q) == Yes(Admin(id) || Level(path) == "public")
    {
      ClearanceIs(id, ip, posture, path, q);
    }
    if Level(path) != "public" && !AdminPath(path) { NewcomerIsPermitted(path); }
  }

  lemma AdminIsNotSensitive(path: string)
    ensures AdminPath(path) ==> !("/sensitive" <= path)
  {
    assert "/sensitive" <= path ==> path[1] == 's';
    assert AdminPath(path) ==> path[1] == 'a';
  }

  lemma NewcomerIsPermitted(path: string)
    requires Level(path) != "public" && !AdminPath(path)
    ensures Permits(USER, HEALTHY, path, Seconds(AT_LOGIN.nowNs))
    ensures Clearance(USER, "", HEALTHY, path, AT_LOGIN) == Undefined
  {
    ClearanceIs(USER, "", HEALTHY, path, AT_LOGIN);
    assert Seconds(AT_LOGIN.nowNs) == 1000.0;
  }

  /** One path of each kind on which clearance does not gate, the last one by its capital letter alone */
  lemma UngatedPaths()
    ensures !ClearanceGates("/api/data") && !ClearanceGates("/sensitive") && !ClearanceGates("/Admin/users")
    ensures Level("/Admin/users") == Level("/admin/users") == "critical" && ClearanceGates("/admin/users")
  {
    CapitalPath();
    ClearanceGatesMeans("/api/data");
    ClearanceGatesMeans("/sensitive");
    ClearanceGatesMeans("/Admin/users");
    ClearanceGatesMeans("/admin/users");
  }

  lemma CapitalPath()
    ensures Level("/Admin/users") == Level("/admin/users") == "critical"
    ensures Level("/api/data") == Level("/sensitive") == "restricted"
    ensures !AdminPath("/Admin/users") && !AdminPath("/api/data") && !AdminPath("/sensitive") && AdminPath("/admin/users")
  {
    assert "/admin/users"[..6] == "/admin";
    assert Lower("/Admin/users") == "/admin/users" == Lower("/admin/users");
    assert Lower("/api/data") == "/api/data" && Lower("/sensitive") == "/sensitive";
    assert "/sensitive"[1] == 's' && "/api/data"[2] == 'p' && "/api/data"[5] == 'd';
    assert "/admin"[1] == 'a' && "/admin"[2] == 'd' && "/Admin/users"[1] == 'A';
    assert "/api/peers"[1] == 'a' && "/api/peers"[5] == 'p';
  }

  // ---- what the bridge answers ----

  /** Whether the decision of the policy engine reaches the bridge */
  predicate Reaches(allow: Query, why: Query) { allow.wire.Up? && !why.wire.Down? }

  lemma DecideMeans(id: Identity, ip: string, posture: Fields, path: string, allow: Query, why: Query)
    ensures Decide(allow, why, Input(id, ip, posture, path)).0 <==>
      Reaches(allow, why) && Permits(id, posture, path, Seconds(allow.nowNs))
  {
    AllowMeans(Env(Input(id, ip, posture, path), allow.nowNs, allow.hoist));
    AllowedMeansPermits(id, ip, posture, path, allow.nowNs, allow.hoist);
  }

  /**
   * The status of every answer: 200 exactly when the engine's decision arrives and the request is permitted,
   * whatever becomes of the reason; otherwise 401 for a user who is not logged in and 403 for one who is.
   * Every 200 carries the clearance of an ordinary user, for admins too.
   */
  lemma ValidateMeans(id: Identity, posture: P.Reply, ip: string, path: string, allow: Query, why: Query)
    ensures var r := Validate(id, posture, ip, path, allow, why);
      && (r.ServerError? <==> id.Failed? || posture.Crash?)
      && (r.Response? ==>
            && (r.status == 200 <==> Reaches(allow, why) && Permits(id, posture.record, path, Seconds(allow.nowNs)))
            && (r.status != 200 ==> r.status == if id.User? then 403 else 401)
            && (r.clearance == if r.status == 200 then Some("clearance=user") else None)
            && (r.location == if r.status == 401 then Some("/oauth2/sign_in") else None))
  {
    if !id.Failed? && !posture.Crash? {
      HeaderIsUser(id);
      DecideMeans(id, ip, posture.record, path, allow, why);
    }
  }

  /** A query that gets no decision denies, and one that gets no reason keeps the decision; both say so. */
  lemma NoAnswerIsTold(id: Identity, posture: P.Reply, ip: string, path: string, allow: Query, why: Query)
    requires !id.Failed? && !posture.Crash?
    requires allow.wire.Down? || why.wire.Down? || allow.wire.Garbled? || why.wire.Garbled?
    ensures var r := Validate(id, posture, ip, path, allow, why);
      && r.reason == "denied: " + "policy engine unreachable"
      && (r.status == 200 ==> allow.wire.Up? && why.wire.Garbled?)
  {
    DecideMeans(id, ip, posture.record, path, allow, why);
  }

  /** Whoever the proxy does not vouch for is sent to the login, on every path and with every device that can be judged. */
  lemma StrangersAreSentToLogin(reply: ProxyReply, printable: Printable, posture: P.Reply, ip: string, path: string,
                                allow: Query, why: Query)
    requires reply.Unreachable? || reply.status != 202
    ensures var r := Validate(CheckIdentity(reply, printable), posture, ip, path, allow, why);
      if posture.Crash? then r == ServerError
      else
        && r.Response? && r.status == 401 && r.location == Some("/oauth2/sign_in") && r.clearance == None
        && (allow.wire.Up? && why.wire.Up? ==> r.reason == "denied: " + "user not authenticated")
  {
    var id := CheckIdentity(reply, printable);
    ValidateMeans(id, posture, ip, path, allow, why);
    if !posture.Crash? && allow.wire.Up? && why.wire.Up? { ReasonSays(id, posture, ip, path, allow, why); }
  }

  lemma HeaderIsUser(id: Identity)
    requires !id.Failed?
    ensures ClearanceHeader(id) == "clearance=user"
  {
    DictHasNoRole(id);
    assert "clearance=" + "user" == "clearance=user";
  }

  /** The request is past the identity and posture checks, by a user without admin rights, on a classified path. */
  predicate Conflicted(id: Identity, posture: Fields, path: string) {
    && id.User? && id.mfa && Get(posture, "posture") == Some(Str("healthy"))
    && !id.isAdmin && Classified(path)
  }

  /**
   * The reason that goes with an answer when both queries are answered: "unknown" exactly when the reasons conflict,
   * and otherwise "allowed" exactly if the request is permitted at the second query's clock reading. If that clock
   * did not go back, "allowed" comes with a 200 only, and if it stands still with every other 200.
   */
  lemma ReasonHeader(id: Identity, posture: P.Reply, ip: string, path: string, allow: Query, why: Query)
    requires !id.Failed? && !posture.Crash?
    requires allow.wire.Up? && why.wire.Up?
    ensures var r := Validate(id, posture, ip, path, allow, why);
      && (r.reason == "unknown" <==> Conflicted(id, posture.record, path))
      && (r.reason == "allowed" <==>
            Permits(id, posture.record, path, Seconds(why.nowNs)) && !Conflicted(id, posture.record, path))
      && (allow.nowNs <= why.nowNs ==> (r.reason == "allowed" ==> r.status == 200))
      && (allow.nowNs == why.nowNs ==>
            (r.reason == "allowed" <==> r.status == 200 && !Conflicted(id, posture.record, path)))
  {
    DecideMeans(id, ip, posture.record, path, allow, why);
    ReasonAnswer(id, ip, posture.record, path, why);
  }

  /** The engine's answer to the question for the reason */
  lemma ReasonAnswer(id: Identity, ip: string, posture: Fields, path: string, q: Query)
    ensures var o := Ask(q, Reason, Input(id, ip, posture, path));
      && (o.Conflict? <==> Conflicted(id, posture, path))
      && (!o.Conflict? ==>
            && o.Defined? && o.v.VStr? && o.v.s != "unknown"
            && (o.v.s == "allowed" <==> Permits(id, posture, path, Seconds(q.nowNs))))
  {
    var env, facts := Env(Input(id, ip, posture, path), q.nowNs, q.hoist), FactsOf(id, path);
    var t := TestsOf(env, facts);
    assert Ask(q, Reason, env.input) == OneReason(t) && (TheReason(t) == ALLOWED <==> Allowed(env)) by {
      InputIsBuilt(id, ip, posture, path, q.nowNs, q.hoist);
      ReasonMeans(env, facts);
    }
    assert Allowed(env) <==> Permits(id, posture, path, Seconds(q.nowNs)) by {
      AllowedMeansPermits(id, ip, posture, path, q.nowNs, q.hoist);
    }
    assert !t.base || t.admin || t.open <==> !Conflicted(id, posture, path) by {
      ConflictTests(id, ip, posture, path, q);
    }
    ReasonIsKnown(t);
  }

  /** The session is older than so many seconds; one without a login time is not. */
  predicate SessionOlder(id: Identity, seconds: real, now: real) {
    id.User? && id.authTime > 0 && now - id.authTime as real > seconds
  }

  /** The reason of an answer, by the first check that fails, in the words that the user gets */
  function ReasonText(id: Identity, posture: Fields, path: string, now: real): string {
    if !id.User? then "denied: " + "user not authenticated"
    else if !id.mfa then "denied: " + "mfa not verified"
    else if Get(posture, "posture") != Some(Str("healthy")) then "denied: " + "device posture unhealthy"
    else if Conflicted(id, posture, path) then "unknown"
    else if Permits(id, posture, path, now) then "allowed"
    else if SessionOlder(id, 86400.0, now) then "denied: " + ("session too old (>24h), " + "full re-authentication required")
    else if SessionOlder(id, 28800.0, now) then
      "denied: " + ("session stale (>8h), " + "step-up re-auth required for sensitive")
    else "denied: " + ("sensitive path " + "requires re-auth within 5 minutes")
  }

  /** Which reason every answer carries when both queries are answered */
  lemma ReasonSays(id: Identity, posture: P.Reply, ip: string, path: string, allow: Query, why: Query)
    requires !id.Failed? && !posture.Crash?
    requires allow.wire.Up? && why.wire.Up?
    ensures Validate(id, posture, ip, path, allow, why).reason
      == ReasonText(id, posture.record, path, Seconds(why.nowNs))
  {
    var env, facts := Env(Input(id, ip, posture.record, path), why.nowNs, why.hoist), FactsOf(id, path);
    var t := TestsOf(env, facts);
    assert Ask(why, Reason, env.input) == OneReason(t) by {
      InputIsBuilt(id, ip, posture.record, path, why.nowNs, why.hoist);
      ReasonMeans(env, facts);
    }
    AgeTests(id, ip, posture.record, path, why);
    ConflictTests(id, ip, posture.record, path, why);
    assert t.allowed <==> Permits(id, posture.record, path, Seconds(why.nowNs)) by {
      AllowedMeansPermits(id, ip, posture.record, path, why.nowNs, why.hoist);
    }
  }

  lemma AgeTests(id: Identity, ip: string, posture: Fields, path: string, q: Query)
    ensures var t := TestsOf(Env(Input(id, ip, posture, path), q.nowNs, q.hoist), FactsOf(id, path));
      && (t.base <==> id.User? && id.mfa && Get(posture, "posture") == Some(Str("healthy")))
      && (t.old24 <==> SessionOlder(id, 86400.0, Seconds(q.nowNs)))
      && (t.old8 <==> SessionOlder(id, 28800.0, Seconds(q.nowNs)))
  {
    var env := Env(Input(id, ip, posture, path), q.nowNs, q.hoist);
    InputIsBuilt(id, ip, posture, path, q.nowNs, q.hoist);
    BaseMeans(env, id, posture, path);
    OlderMeans(env, id);
  }

  lemma OlderMeans(env: Env, id: Identity)
    requires Doc(env.input, AUTH_TIME.path) == Defined(VNum((if id.User? then id.authTime else 0) as real))
    ensures OlderThan(env, 24.0) <==> SessionOlder(id, 86400.0, Seconds(env.nowNs))
    ensures OlderThan(env, 8.0) <==> SessionOlder(id, 28800.0, Seconds(env.nowNs))
  {}

  lemma ConflictTests(id: Identity, ip: string, posture: Fields, path: string, q: Query)
    ensures var t := TestsOf(Env(Input(id, ip, posture, path), q.nowNs, q.hoist), FactsOf(id, path));
      !t.base || t.admin || t.open <==> !Conflicted(id, posture, path)
  {
    var env := Env(Input(id, ip, posture, path), q.nowNs, q.hoist);
    LevelMeans(path);
    assert Base(env) <==> id.User? && id.mfa && Get(posture, "posture") == Some(Str("healthy")) by {
      InputIsBuilt(id, ip, posture, path, q.nowNs, q.hoist);
      BaseMeans(env, id, posture, path);
    }
  }

  lemma ReasonIsKnown(t: Tests)
    ensures TheReason(t) != "unknown"
  {
    assert ALLOWED[0] == 'a' && DENIED[0] == 'd' && "unknown"[0] == 'u';
  }
}
