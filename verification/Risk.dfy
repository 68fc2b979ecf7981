/** The risk score of a request, and how it relates to time and to the policy. */
module Risk {
  import opened Basics
  import opened Json
  import opened Identity
  import P = Posture

  datatype Factor =
    | NotAuthenticated | SessionOver1h | SessionOver30m | NoMfa | UnhealthyPosture
    | DiskNotEncrypted | PatchesOutdated | BlocklistedProcess | StalePosture

  /** In the order in which they are reported */
  const FACTORS := [NotAuthenticated, SessionOver1h, SessionOver30m, NoMfa, UnhealthyPosture,
                    DiskNotEncrypted, PatchesOutdated, BlocklistedProcess, StalePosture]

  function Weight(f: Factor): nat {
    match f
    case NotAuthenticated => 100
    case SessionOver1h => 30
    case SessionOver30m => 15
    case NoMfa => 25
    case UnhealthyPosture => 40
    case DiskNotEncrypted => 15
    case PatchesOutdated => 10
    case BlocklistedProcess => 20
    case StalePosture => 15
  }

  function SecondsSince(id: Identity, now: int): int {
    if id.User? && id.authTime > 0 then now - id.authTime else 999999
  }

  function SignalsOf(posture: Fields): Json { GetOr(posture, "signals", Obj(Empty)) }

  predicate Passes(posture: Fields, signal: string) {
    SignalsOf(posture).Obj? ==> P.Truthy(GetOr(SignalsOf(posture).fields, signal, Bool(true)))
  }

  predicate Healthy(posture: Fields) { Get(posture, "posture") == Some(Str("healthy")) }

  predicate Stale(posture: Fields, now: int, maxAge: int) {
    P.CheckedAt(posture).Some? && now - P.CheckedAt(posture).value > maxAge
  }

  /** When each factor counts */
  predicate Applies(f: Factor, id: Identity, posture: Fields, now: int, maxAge: int) {
    match f
    case NotAuthenticated => !id.User?
    case SessionOver1h => id.User? && SecondsSince(id, now) > 3600
    case SessionOver30m => id.User? && 1800 < SecondsSince(id, now) <= 3600
    case NoMfa => !(id.User? && id.mfa)
    case UnhealthyPosture => !Healthy(posture)
    case DiskNotEncrypted => Healthy(posture) && !Passes(posture, "disk_encrypted")
    case PatchesOutdated => Healthy(posture) && !Passes(posture, "patch_within_window")
    case BlocklistedProcess => Healthy(posture) && !Passes(posture, "no_blocklisted_process")
    case StalePosture => Stale(posture, now, maxAge)
  }

  function Select(fs: seq<Factor>, id: Identity, posture: Fields, now: int, maxAge: int): seq<Factor> {
    if fs == [] then []
    else
      var rest := Select(fs[1..], id, posture, now, maxAge);
      if Applies(fs[0], id, posture, now, maxAge) then [fs[0]] + rest else rest
  }

  function Sum(fs: seq<Factor>): nat {
    if fs == [] then 0 else Weight(fs[0]) + Sum(fs[1..])
  }

  function Factors(id: Identity, posture: Fields, now: int, maxAge: int): seq<Factor> {
    Select(FACTORS, id, posture, now, maxAge)
  }

  function Min(a: nat, b: nat): nat { if a <= b then a else b }

  function Score(id: Identity, posture: Fields, now: int, maxAge: int): nat {
    Min(Sum(Factors(id, posture, now, maxAge)), 100)
  }

  /** The records on which the calculation raises no exception */
  predicate Scorable(posture: Fields) {
    P.CheckedAt(posture).Some? && (Healthy(posture) ==> SignalsOf(posture).Obj?)
  }

  lemma {:induction false} SelectAppend(fs: seq<Factor>, gs: seq<Factor>, id: Identity, posture: Fields, now: int,
                                        maxAge: int)
    ensures Select(fs + gs, id, posture, now, maxAge)
      == Select(fs, id, posture, now, maxAge) + Select(gs, id, posture, now, maxAge)
  {
    if fs == [] {
      assert fs + gs == gs;
    } else {
      SelectAppend(fs[1..], gs, id, posture, now, maxAge);
      assert (fs + gs)[1..] == fs[1..] + gs;
    }
  }

  lemma {:induction false} SumAppend(fs: seq<Factor>, gs: seq<Factor>)
    ensures Sum(fs + gs) == Sum(fs) + Sum(gs)
  {
    if fs == [] {
      assert fs + gs == gs;
    } else {
      SumAppend(fs[1..], gs);
      assert (fs + gs)[1..] == fs[1..] + gs;
    }
  }

  lemma {:induction false} SelectMeans(fs: seq<Factor>, f: Factor, id: Identity, posture: Fields, now: int, maxAge: int)
    ensures f in Select(fs, id, posture, now, maxAge) <==> f in fs && Applies(f, id, posture, now, maxAge)
  {
    if fs != [] {
      SelectMeans(fs[1..], f, id, posture, now, maxAge);
      assert f in fs <==> f == fs[0] || f in fs[1..];
    }
  }

  lemma AllFactors(f: Factor)
    ensures f in FACTORS
  {
    assert FACTORS[0] == NotAuthenticated && FACTORS[1] == SessionOver1h && FACTORS[2] == SessionOver30m;
    assert FACTORS[3] == NoMfa && FACTORS[4] == UnhealthyPosture && FACTORS[5] == DiskNotEncrypted;
    assert FACTORS[6] == PatchesOutdated && FACTORS[7] == BlocklistedProcess && FACTORS[8] == StalePosture;
  }

  lemma FactorMeans(f: Factor, id: Identity, posture: Fields, now: int, maxAge: int)
    ensures f in Factors(id, posture, now, maxAge) <==> Applies(f, id, posture, now, maxAge)
  {
    AllFactors(f);
    SelectMeans(FACTORS, f, id, posture, now, maxAge);
  }

  /** The factors of the session, from the fields of the identity: an undated session counts as older than an hour. */
  lemma SessionFactorsMean(id: Identity, posture: Fields, now: int, maxAge: int)
    ensures var fs := Factors(id, posture, now, maxAge);
      && (NotAuthenticated in fs <==> !id.User?)
      && (SessionOver1h in fs <==> id.User? && (id.authTime <= 0 || now > id.authTime + 3600))
      && (SessionOver30m in fs <==> id.User? && id.authTime > 0 && id.authTime + 1800 < now <= id.authTime + 3600)
      && (NoMfa in fs <==> id.Failed? || id.Anonymous? || !id.mfa)
  {
    FactorMeans(NotAuthenticated, id, posture, now, maxAge);
    FactorMeans(SessionOver1h, id, posture, now, maxAge);
    FactorMeans(SessionOver30m, id, posture, now, maxAge);
    FactorMeans(NoMfa, id, posture, now, maxAge);
  }

  /** The record has the signal, and with a value that counts as false. */
  predicate Off(posture: Fields, signal: string) {
    match Get(posture, "signals")
    case Some(Obj(s)) => signal in Keys(s) && !P.Truthy(Get(s, signal).value)
    case _ => false
  }

  /** The factors of the device, from the keys of its record; a record without date counts as checked at 0. */
  lemma PostureFactorsMean(id: Identity, posture: Fields, now: int, maxAge: int)
    ensures var fs := Factors(id, posture, now, maxAge);
      && (UnhealthyPosture in fs <==> Get(posture, "posture") != Some(Str("healthy")))
      && (DiskNotEncrypted in fs <==> Get(posture, "posture") == Some(Str("healthy")) && Off(posture, "disk_encrypted"))
      && (PatchesOutdated in fs <==> Get(posture, "posture") == Some(Str("healthy")) && Off(posture, "patch_within_window"))
      && (BlocklistedProcess in fs <==>
            Get(posture, "posture") == Some(Str("healthy")) && Off(posture, "no_blocklisted_process"))
      && ("checked_at" !in Keys(posture) ==> (StalePosture in fs <==> now > maxAge))
      && (forall n :: Get(posture, "checked_at") == Some(Int(n)) ==> (StalePosture in fs <==> now > n + maxAge))
  {
    FactorMeans(UnhealthyPosture, id, posture, now, maxAge);
    FactorMeans(DiskNotEncrypted, id, posture, now, maxAge);
    FactorMeans(PatchesOutdated, id, posture, now, maxAge);
    FactorMeans(BlocklistedProcess, id, posture, now, maxAge);
    FactorMeans(StalePosture, id, posture, now, maxAge);
    PassesMeans(posture, "disk_encrypted");
    PassesMeans(posture, "patch_within_window");
    PassesMeans(posture, "no_blocklisted_process");
  }

  lemma PassesMeans(posture: Fields, signal: string)
    ensures Passes(posture, signal) <==> !Off(posture, signal)
  {}

  /** An exception is raised on a date that is no number and, for a healthy device, on signals that are no dict. */
  lemma ScorableMeans(posture: Fields)
    ensures Scorable(posture) <==>
      && P.Dated(posture)
      && (Get(posture, "posture") == Some(Str("healthy")) && "signals" in Keys(posture) ==>
            Get(posture, "signals").value.Obj?)
  {}

  function Points(f: Factor, weight: nat, fs: seq<Factor>): nat { if f in fs then weight else 0 }

  /** The score is what the factors that count add up to, at most 100. */
  lemma ScoreMeans(id: Identity, posture: Fields, now: int, maxAge: int)
    ensures var fs := Factors(id, posture, now, maxAge);
      var sum := Points(NotAuthenticated, 100, fs) + Points(SessionOver1h, 30, fs) + Points(SessionOver30m, 15, fs)
        + Points(NoMfa, 25, fs) + Points(UnhealthyPosture, 40, fs) + Points(DiskNotEncrypted, 15, fs)
        + Points(PatchesOutdated, 10, fs) + Points(BlocklistedProcess, 20, fs) + Points(StalePosture, 15, fs);
      Score(id, posture, now, maxAge) == if sum > 100 then 100 else sum
  {
    SessionPart(id, posture, now, maxAge);
    DevicePart(id, posture, now, maxAge);
    assert FACTORS[..9] == FACTORS;
  }

  lemma SessionPart(id: Identity, posture: Fields, now: int, maxAge: int)
    ensures var fs := Factors(id, posture, now, maxAge);
      Sum(Upto(4, id, posture, now, maxAge))
        == Points(NotAuthenticated, 100, fs) + Points(SessionOver1h, 30, fs) + Points(SessionOver30m, 15, fs)
        + Points(NoMfa, 25, fs)
  {
    PointsNext(0, NotAuthenticated, id, posture, now, maxAge);
    PointsNext(1, SessionOver1h, id, posture, now, maxAge);
    PointsNext(2, SessionOver30m, id, posture, now, maxAge);
    PointsNext(3, NoMfa, id, posture, now, maxAge);
    assert FACTORS[..0] == [];
  }

  lemma DevicePart(id: Identity, posture: Fields, now: int, maxAge: int)
    ensures var fs := Factors(id, posture, now, maxAge);
      Sum(Upto(9, id, posture, now, maxAge))
        == Sum(Upto(4, id, posture, now, maxAge)) + Points(UnhealthyPosture, 40, fs) + Points(DiskNotEncrypted, 15, fs)
        + Points(PatchesOutdated, 10, fs) + Points(BlocklistedProcess, 20, fs) + Points(StalePosture, 15, fs)
  {
    PointsNext(4, UnhealthyPosture, id, posture, now, maxAge);
    PointsNext(5, DiskNotEncrypted, id, posture, now, maxAge);
    PointsNext(6, PatchesOutdated, id, posture, now, maxAge);
    PointsNext(7, BlocklistedProcess, id, posture, now, maxAge);
    PointsNext(8, StalePosture, id, posture, now, maxAge);
  }

  lemma PointsNext(n: nat, f: Factor, id: Identity, posture: Fields, now: int, maxAge: int)
    requires n < 9 && IsNth(n, f)
    ensures Sum(Upto(n + 1, id, posture, now, maxAge))
      == Sum(Upto(n, id, posture, now, maxAge)) + Points(f, Weight(f), Factors(id, posture, now, maxAge))
  {
    FactorMeans(f, id, posture, now, maxAge);
    UptoNext(n, f, Applies(f, id, posture, now, maxAge), id, posture, now, maxAge);
  }

  /** The factors among the first `n` that count, and what they add up to */
  function Upto(n: nat, id: Identity, posture: Fields, now: int, maxAge: int): seq<Factor>
    requires n <= 9
  {
    Select(FACTORS[..n], id, posture, now, maxAge)
  }

  predicate IsNth(n: nat, f: Factor) {
    match f
    case NotAuthenticated => n == 0
    case SessionOver1h => n == 1
    case SessionOver30m => n == 2
    case NoMfa => n == 3
    case UnhealthyPosture => n == 4
    case DiskNotEncrypted => n == 5
    case PatchesOutdated => n == 6
    case BlocklistedProcess => n == 7
    case StalePosture => n == 8
  }

  /** The next factor, which counts or not */
  lemma UptoNext(n: nat, f: Factor, on: bool, id: Identity, posture: Fields, now: int, maxAge: int)
    requires n < 9 && IsNth(n, f) && on == Applies(f, id, posture, now, maxAge)
    ensures var (fs, gs) := (Upto(n, id, posture, now, maxAge), Upto(n + 1, id, posture, now, maxAge));
      && gs == (if on then fs + [f] else fs)
      && Sum(gs) == (if on then Sum(fs) + Weight(f) else Sum(fs))
  {
    var fs := Upto(n, id, posture, now, maxAge);
    SelectAppend(FACTORS[..n], [f], id, posture, now, maxAge);
    assert FACTORS[..n + 1] == FACTORS[..n] + [f];
    assert [f][1..] == [];
    SumAppend(fs, [f]);
    assert fs + [] == fs;
  }

  lemma SignalsSkipped(id: Identity, posture: Fields, now: int, maxAge: int)
    requires !Healthy(posture)
    ensures Upto(8, id, posture, now, maxAge) == Upto(5, id, posture, now, maxAge)
  {
    UptoNext(5, DiskNotEncrypted, false, id, posture, now, maxAge);
    UptoNext(6, PatchesOutdated, false, id, posture, now, maxAge);
    UptoNext(7, BlocklistedProcess, false, id, posture, now, maxAge);
  }

  /** `_calculate_risk_score`; `crashed` stands for an exception that nothing catches. */
  method CalculateRiskScore(id: Identity, posture: Fields, now: int, maxAge: int, threshold: int)
    returns (crashed: bool, score: nat, factors: seq<Factor>, stepUp: bool)
    requires !id.Failed?
    ensures crashed <==> !Scorable(posture)
    ensures !crashed ==> factors == Factors(id, posture, now, maxAge)
    ensures !crashed ==> score == Score(id, posture, now, maxAge) && (stepUp <==> score >= threshold)
  {
    crashed, stepUp := false, false;
    score, factors := AddIdentity(id, posture, now, maxAge);
    if Get(posture, "posture") != Some(Str("healthy")) {
      score, factors := score + 40, factors + [UnhealthyPosture];
      UptoNext(4, UnhealthyPosture, true, id, posture, now, maxAge);
      SignalsSkipped(id, posture, now, maxAge);
    } else {
      var signals := GetOr(posture, "signals", Obj(Empty));
      if !signals.Obj? { return true, 0, [], false; }
      UptoNext(4, UnhealthyPosture, false, id, posture, now, maxAge);
      score, factors := AddSignals(score, factors, signals.fields, id, posture, now, maxAge);
    }
    var checkedAt := P.Number(GetOr(posture, "checked_at", Int(0)));
    if checkedAt.None? { return true, 0, [], false; }
    var stale := now - checkedAt.value > maxAge;
    if stale {
      score, factors := score + 15, factors + [StalePosture];
    }
    UptoNext(8, StalePosture, stale, id, posture, now, maxAge);
    assert FACTORS[..9] == FACTORS;
    score := Min(score, 100);
    stepUp := score >= threshold;
  }

  /** The first part of the calculation: the session and its authentication */
  method AddIdentity(id: Identity, ghost posture: Fields, now: int, ghost maxAge: int)
    returns (score: nat, factors: seq<Factor>)
    requires !id.Failed?
    ensures factors == Upto(4, id, posture, now, maxAge) && score == Sum(factors)
  {
    score, factors := 0, [];
    var since := if id.User? && id.authTime > 0 then now - id.authTime else 999999;
    if !id.User? {
      score, factors := score + 100, factors + [NotAuthenticated];
    } else if since > 3600 {
      score, factors := score + 30, factors + [SessionOver1h];
    } else if since > 1800 {
      score, factors := score + 15, factors + [SessionOver30m];
    }
    SessionFactors(id, posture, now, maxAge);
    var noMfa := !(id.User? && id.mfa);
    if noMfa {
      score, factors := score + 25, factors + [NoMfa];
    }
    UptoNext(3, NoMfa, noMfa, id, posture, now, maxAge);
  }

  lemma SessionFactors(id: Identity, posture: Fields, now: int, maxAge: int)
    ensures var since := SecondsSince(id, now);
      var fs := Upto(3, id, posture, now, maxAge);
      && fs == (if !id.User? then [NotAuthenticated] else if since > 3600 then [SessionOver1h]
                else if since > 1800 then [SessionOver30m] else [])
      && Sum(fs) == (if !id.User? then 100 else if since > 3600 then 30 else if since > 1800 then 15 else 0)
  {
    var since := SecondsSince(id, now);
    UptoNext(0, NotAuthenticated, !id.User?, id, posture, now, maxAge);
    UptoNext(1, SessionOver1h, id.User? && since > 3600, id, posture, now, maxAge);
    UptoNext(2, SessionOver30m, id.User? && 1800 < since <= 3600, id, posture, now, maxAge);
  }

  /** The part of the calculation for a healthy posture: one factor for each signal that is off */
  method AddSignals(score0: nat, factors0: seq<Factor>, signals: Fields,
                    ghost id: Identity, ghost posture: Fields, ghost now: int, ghost maxAge: int)
    returns (score: nat, factors: seq<Factor>)
    requires Healthy(posture) && SignalsOf(posture) == Obj(signals)
    requires factors0 == Upto(5, id, posture, now, maxAge) && score0 == Sum(factors0)
    ensures factors == Upto(8, id, posture, now, maxAge) && score == Sum(factors)
  {
    score, factors := score0, factors0;
    var disk := !P.Truthy(GetOr(signals, "disk_encrypted", Bool(true)));
    if disk {
      score, factors := score + 15, factors + [DiskNotEncrypted];
    }
    UptoNext(5, DiskNotEncrypted, disk, id, posture, now, maxAge);
    var patch := !P.Truthy(GetOr(signals, "patch_within_window", Bool(true)));
    if patch {
      score, factors := score + 10, factors + [PatchesOutdated];
    }
    UptoNext(6, PatchesOutdated, patch, id, posture, now, maxAge);
    var process := !P.Truthy(GetOr(signals, "no_blocklisted_process", Bool(true)));
    if process {
      score, factors := score + 20, factors + [BlocklistedProcess];
    }
    UptoNext(7, BlocklistedProcess, process, id, posture, now, maxAge);
  }
}
