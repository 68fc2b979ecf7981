/**
 * The part of Rego that the policy uses: documents, undefined values, negation as failure, complete rules
 * with several bodies and a default, and the conflict of a complete rule with two values.
 */
module Rego {
  import opened Basics
  import opened Json
  import opened Canonical

  /** Arrays and objects are only ever compared with scalars here, so they stay documents. */
  datatype Val = VNull | VBool(b: bool) | VNum(x: real) | VStr(s: string) | VDoc(doc: Json)

  datatype Out = Undefined | Defined(v: Val) | Conflict

  datatype Op = Eq | Ne | Lt | Le | Gt | Ge | Minus | Div | StartsWith

  /** The complete rules of the policy, each of which refers to earlier ones only */
  datatype Name =
    | ValidAuthTime | SecondsSinceAuth | FreshAuth | SessionAgeHours | StaleSession | VeryStaleSession
    | BaseOk | DataAccessOk | Allow | Reason
  {
    function Rank(): nat {
      match this
      case ValidAuthTime => 0
      case SecondsSinceAuth => 1
      case FreshAuth => 2
      case SessionAgeHours => 3
      case StaleSession => 4
      case VeryStaleSession => 5
      case BaseOk => 6
      case DataAccessOk => 7
      case Allow => 8
      case Reason => 9
    }
  }

  /** `Table` is a function with one clause for each literal argument, applied to an argument. */
  datatype Expr =
    | Lit(v: Val)
    | In(path: seq<string>)
    | NowNs
    | Rule(name: Name)
    | Call(op: Op, l: Expr, r: Expr)
    | Table(rows: seq<(string, real)>, arg: Expr)

  datatype Stmt = Holds(e: Expr) | Not(e: Expr)

  datatype Clause = Clause(value: Expr, body: seq<Stmt>)

  datatype RuleDef = RuleDef(default: Option<Val>, clauses: seq<Clause>)

  type Program = Name -> RuleDef

  /**
   * The input document and the clock of one query. `hoist` tells whether the operands of a negated call are
   * evaluated before the negation: if so, an undefined operand makes `not f(x)` fail instead of succeed.
   */
  datatype Env = Env(input: Json, nowNs: int, hoist: bool)

  // ---- values ----

  function FromJson(j: Json): Val {
    match j
    case Null => VNull
    case Bool(b) => VBool(b)
    case Int(n) => VNum(n as real)
    case Str(s) => VStr(s)
    case _ => VDoc(j)
  }

  function Lookup(j: Json, path: seq<string>): Option<Json>
    decreases |path|
  {
    if path == [] then Some(j)
    else if j.Obj? && Get(j.fields, path[0]).Some? then Lookup(Get(j.fields, path[0]).value, path[1..])
    else None
  }

  function Doc(j: Json, path: seq<string>): Out {
    match Lookup(j, path)
    case Some(v) => Defined(FromJson(v))
    case None => Undefined
  }

  function TypeRank(v: Val): nat {
    match v
    case VNull => 0
    case VBool(_) => 1
    case VNum(_) => 2
    case VStr(_) => 3
    case VDoc(_) => 4
  }

  /** Rego's order on values: by type first */
  predicate Less(a: Val, b: Val) {
    if TypeRank(a) != TypeRank(b) then TypeRank(a) < TypeRank(b)
    else
      match a
      case VBool(x) => !x && b.b
      case VNum(x) => x < b.x
      case VStr(x) => Before(x, b.s)
      case _ => false
  }

  function Apply(op: Op, a: Val, b: Val): Out {
    match op
    case Eq => Defined(VBool(a == b))
    case Ne => Defined(VBool(a != b))
    case Lt => Defined(VBool(Less(a, b)))
    case Le => Defined(VBool(!Less(b, a)))
    case Gt => Defined(VBool(Less(b, a)))
    case Ge => Defined(VBool(!Less(a, b)))
    case Minus => if a.VNum? && b.VNum? then Defined(VNum(a.x - b.x)) else Undefined
    case Div => if a.VNum? && b.VNum? && b.x != 0.0 then Defined(VNum(a.x / b.x)) else Undefined
    case StartsWith => if a.VStr? && b.VStr? then Defined(VBool(b.s <= a.s)) else Undefined
  }

  function Row(rows: seq<(string, real)>, v: Val): (o: Out)
    ensures o.Undefined? || (o.Defined? && o.v.VNum?)
  {
    if rows == [] then Undefined
    else if v == VStr(rows[0].0) then Defined(VNum(rows[0].1))
    else Row(rows[1..], v)
  }

  // ---- evaluation ----

  /** Rules of rank `rank` and above are out of reach, as in any program without recursion. */
  function EvalExpr(p: Program, e: Expr, env: Env, rank: nat): Out
    decreases rank, 0, e
  {
    match e
    case Lit(v) => Defined(v)
    case In(path) => Doc(env.input, path)
    case NowNs => Defined(VNum(env.nowNs as real))
    case Rule(n) => if n.Rank() < rank then EvalRule(p, n, env) else Undefined
    case Call(op, l, r) =>
      (match (EvalExpr(p, l, env, rank), EvalExpr(p, r, env, rank))
       case (Conflict, _) => Conflict
       case (_, Conflict) => Conflict
       case (Defined(a), Defined(b)) => Apply(op, a, b)
       case _ => Undefined)
    case Table(rows, arg) =>
      match EvalExpr(p, arg, env, rank)
      case Defined(v) => Row(rows, v)
      case out => out
  }

  predicate IsTrue(o: Out) { o.Defined? && o.v != VBool(false) }

  function OperandMissing(p: Program, e: Expr, env: Env, rank: nat): bool
    decreases rank, 1
  {
    e.Call? && (EvalExpr(p, e.l, env, rank).Undefined? || EvalExpr(p, e.r, env, rank).Undefined?)
  }

  /** A statement as a value: defined if it succeeds, undefined if it fails */
  function EvalStmt(p: Program, s: Stmt, env: Env, rank: nat): Out
    decreases rank, 2
  {
    var o := EvalExpr(p, s.e, env, rank);
    if o.Conflict? then Conflict
    else if s.Holds? then if IsTrue(o) then Defined(VBool(true)) else Undefined
    else if env.hoist && OperandMissing(p, s.e, env, rank) then Undefined
    else if IsTrue(o) then Undefined else Defined(VBool(true))
  }

  function EvalBody(p: Program, body: seq<Stmt>, env: Env, rank: nat): Out
    decreases rank, 3, |body|
  {
    if body == [] then Defined(VBool(true))
    else
      var o := EvalStmt(p, body[0], env, rank);
      if o.Defined? then EvalBody(p, body[1..], env, rank) else o
  }

  function EvalClause(p: Program, c: Clause, env: Env, rank: nat): Out
    decreases rank, 4
  {
    var o := EvalBody(p, c.body, env, rank);
    if o.Defined? then EvalExpr(p, c.value, env, rank) else o
  }

  /** Two bodies of one complete rule: they must agree where both are defined. */
  function Agree(a: Out, b: Out): Out {
    match (a, b)
    case (Undefined, _) => b
    case (_, Undefined) => a
    case (Defined(v), Defined(w)) => if v == w then a else Conflict
    case _ => Conflict
  }

  function EvalClauses(p: Program, cs: seq<Clause>, env: Env, rank: nat): Out
    decreases rank, 5, |cs|
  {
    if cs == [] then Undefined else Agree(EvalClause(p, cs[0], env, rank), EvalClauses(p, cs[1..], env, rank))
  }

  function EvalRule(p: Program, n: Name, env: Env): Out
    decreases n.Rank(), 6
  {
    var o := EvalClauses(p, p(n).clauses, env, n.Rank());
    if o.Undefined? && p(n).default.Some? then Defined(p(n).default.value) else o
  }

  /** Without conflicts, a body holds exactly when all its statements succeed. */
  lemma {:induction false} BodyMeans(p: Program, body: seq<Stmt>, env: Env, rank: nat)
    requires forall i :: 0 <= i < |body| ==> !EvalStmt(p, body[i], env, rank).Conflict?
    ensures EvalBody(p, body, env, rank) ==
      if forall i :: 0 <= i < |body| ==> EvalStmt(p, body[i], env, rank).Defined? then Defined(VBool(true)) else Undefined
  {
    if body != [] {
      BodyMeans(p, body[1..], env, rank);
      assert EvalStmt(p, body[0], env, rank).Defined? ==>
        forall i :: 1 <= i < |body| ==> body[i] == body[1..][i - 1];
    }
  }

  lemma RuleMeans(p: Program, n: Name, cs: seq<Clause>, default: Val, o: Out, env: Env)
    requires p(n) == RuleDef(Some(default), cs) && EvalClauses(p, cs, env, n.Rank()) == o && !o.Undefined?
    ensures EvalRule(p, n, env) == o
  {}

  lemma OneBody(p: Program, c: Clause, env: Env, rank: nat)
    ensures EvalClauses(p, [c], env, rank) == EvalClause(p, c, env, rank)
  {
    assert [c][1..] == [];
  }

  // ---- the order of the bodies of a rule does not matter ----

  ghost predicate SomeClause(p: Program, cs: seq<Clause>, env: Env, rank: nat, o: Out) {
    exists c :: c in cs && EvalClause(p, c, env, rank) == o
  }

  lemma {:induction false} ClausesAgree(p: Program, cs: seq<Clause>, env: Env, rank: nat)
    ensures var o := EvalClauses(p, cs, env, rank);
      && (o.Undefined? <==> forall c :: c in cs ==> EvalClause(p, c, env, rank) == Undefined)
      && (o.Defined? ==> SomeClause(p, cs, env, rank, o))
      && (o.Defined? ==> forall c :: c in cs ==> EvalClause(p, c, env, rank) in {Undefined, o})
      && (o.Conflict? ==> forall v :: exists c :: c in cs && EvalClause(p, c, env, rank) !in {Undefined, Defined(v)})
  {
    if cs != [] {
      ClausesAgree(p, cs[1..], env, rank);
      var o, h, t := EvalClauses(p, cs, env, rank), EvalClause(p, cs[0], env, rank), EvalClauses(p, cs[1..], env, rank);
      assert cs == [cs[0]] + cs[1..];
      assert forall c :: c in cs <==> c == cs[0] || c in cs[1..];
      if o.Conflict? {
        forall v ensures exists c :: c in cs && EvalClause(p, c, env, rank) !in {Undefined, Defined(v)} {
          if t.Conflict? {
            var c :| c in cs[1..] && EvalClause(p, c, env, rank) !in {Undefined, Defined(v)};
          } else if h in {Undefined, Defined(v)} {
            var c :| c in cs[1..] && EvalClause(p, c, env, rank) == t;
          }
        }
        var c :| c in cs && EvalClause(p, c, env, rank) !in {Undefined, Defined(VNull)};
      } else if o.Defined? && t.Defined? {
        var c :| c in cs[1..] && EvalClause(p, c, env, rank) == t;
      }
    }
  }

  /** A rule has the same value whatever the order, and the repetition, of its bodies. */
  lemma ClauseOrderIsIrrelevant(p: Program, cs: seq<Clause>, ds: seq<Clause>, env: Env, rank: nat)
    requires forall c :: c in cs <==> c in ds
    ensures EvalClauses(p, cs, env, rank) == EvalClauses(p, ds, env, rank)
  {
    ClausesAgree(p, cs, env, rank);
    ClausesAgree(p, ds, env, rank);
    var a, b := EvalClauses(p, cs, env, rank), EvalClauses(p, ds, env, rank);
    if a.Defined? {
      var c :| c in cs && EvalClause(p, c, env, rank) == a;
    } else if a.Conflict? {
      var c :| c in cs && EvalClause(p, c, env, rank) !in {Undefined, if b.Defined? then b else Defined(VNull)};
    }
  }

  /** A rule of which one body alone is defined has that body's value. */
  lemma OneDefined(p: Program, cs: seq<Clause>, c: Clause, env: Env, rank: nat)
    requires c in cs && EvalClause(p, c, env, rank).Defined?
    requires forall d :: d in cs ==> d == c || EvalClause(p, d, env, rank) == Undefined
    ensures EvalClauses(p, cs, env, rank) == EvalClause(p, c, env, rank)
  {
    ClausesAgree(p, cs, env, rank);
  }

  /** A rule with two different values has none. */
  lemma TwoDefined(p: Program, cs: seq<Clause>, c: Clause, d: Clause, env: Env, rank: nat)
    requires c in cs && d in cs && EvalClause(p, c, env, rank).Defined? && EvalClause(p, d, env, rank).Defined?
    requires EvalClause(p, c, env, rank) != EvalClause(p, d, env, rank)
    ensures EvalClauses(p, cs, env, rank) == Conflict
  {
    ClausesAgree(p, cs, env, rank);
  }
}
