/**
 * Properties of the bridge across components and over time: decisions only decay, risk only grows, and the
 * policy and the risk score agree.
 */
module Decisions {
  import opened Basics
  import opened Json
  import opened Identity
  import P = Posture
  import opened Bridge
  import opened Risk

  // ---- posture over time ----

  ghost predicate Fixed(r: P.Reply) {
    exists why :: r == P.Unhealthy(why)
  }

  /** A record fresh at `t` was checked within the allowed age. */
  ghost predicate FreshAt(r: P.Reply, t: real, maxAge: int) {
    r.Answer? && P.CheckedAt(r.record).Some? && t - P.CheckedAt(r.record).value as real <= maxAge as real
  }

  /** Over time, the bridge's view of a store either stays what it is or goes from fresh to stale. */
  lemma PostureOverTime(c: P.Config, mac: P.Mac, text: Option<string>, ip: string, t1: real, t2: real)
    requires t1 <= t2
    ensures var (r1, r2) := (P.GetPosture(c, mac, text, ip, t1), P.GetPosture(c, mac, text, ip, t2));
      && (r1.Crash? <==> r2.Crash?)
      && (r2 == r1 || (r2 == P.Unhealthy("stale posture data") && FreshAt(r1, t1, c.maxAge)))
      && (r1.Crash? || Fixed(r1) || FreshAt(r1, t1, c.maxAge))
  {}

  lemma FixedRecord(why: string)
    ensures var r := P.Unhealthy(why).record;
      !Healthy(r) && P.CheckedAt(r) == Some(0) && Scorable(r)
  {
    var f := Field("reason", Str(why), Empty);
    assert Get(f, "checked_at") == None;
  }

  // ---- decisions only decay ----

  /**
   * For a fixed identity, store and path, a request that is answered 200 would have been answered 200 at any
   * earlier time: no limit of the policy or of the posture check opens as time passes.
   */
  lemma DecisionsDecay(c: P.Config, mac: P.Mac, text: Option<string>, id: Identity, ip: string, path: string,
                       t1: real, t2: real, allow1: Query, allow2: Query, why1: Query, why2: Query)
    requires t1 <= t2 && allow1.nowNs <= allow2.nowNs && Reaches(allow1, why1)
    requires var r := Validate(id, P.GetPosture(c, mac, text, ip, t2), ip, path, allow2, why2);
      r.Response? && r.status == 200
    ensures var r := Validate(id, P.GetPosture(c, mac, text, ip, t1), ip, path, allow1, why1);
      r.Response? && r.status == 200
  {
    var r1, r2 := P.GetPosture(c, mac, text, ip, t1), P.GetPosture(c, mac, text, ip, t2);
    PostureOverTime(c, mac, text, ip, t1, t2);
    ValidateMeans(id, r1, ip, path, allow1, why1);
    ValidateMeans(id, r2, ip, path, allow2, why2);
    FixedRecord("stale posture data");
    assert Seconds(allow1.nowNs) <= Seconds(allow2.nowNs);
  }

  // ---- the parts of a score ----

  function SessionPoints(id: Identity, now: int): nat {
    if !id.User? then 100
    else if SecondsSince(id, now) > 3600 then 30
    else if SecondsSince(id, now) > 1800 then 15 else 0
  }

  function PosturePoints(posture: Fields): nat {
    if !Healthy(posture) then 40
    else (if Passes(posture, "disk_encrypted") then 0 else 15) +
         (if Passes(posture, "patch_within_window") then 0 else 10) +
         (if Passes(posture, "no_blocklisted_process") then 0 else 20)
  }

  lemma ScoreParts(id: Identity, posture: Fields, now: int, maxAge: int)
    ensures Sum(Factors(id, posture, now, maxAge)) ==
      SessionPoints(id, now) + (if id.User? && id.mfa then 0 else 25) + PosturePoints(posture)
        + if Stale(posture, now, maxAge) then 15 else 0
  {
    SessionFactors(id, posture, now, maxAge);
    UptoNext(3, NoMfa, !(id.User? && id.mfa), id, posture, now, maxAge);
    UptoNext(4, UnhealthyPosture, !Healthy(posture), id, posture, now, maxAge);
    SignalParts(id, posture, now, maxAge);
    UptoNext(8, StalePosture, Stale(posture, now, maxAge), id, posture, now, maxAge);
    assert FACTORS[..9] == FACTORS;
  }

  lemma SignalParts(id: Identity, posture: Fields, now: int, maxAge: int)
    ensures Sum(Upto(8, id, posture, now, maxAge)) ==
      Sum(Upto(5, id, posture, now, maxAge)) + if Healthy(posture) then PosturePoints(posture) else 0
  {
    var h := Healthy(posture);
    UptoNext(5, DiskNotEncrypted, h && !Passes(posture, "disk_encrypted"), id, posture, now, maxAge);
    UptoNext(6, PatchesOutdated, h && !Passes(posture, "patch_within_window"), id, posture, now, maxAge);
    UptoNext(7, BlocklistedProcess, h && !Passes(posture, "no_blocklisted_process"), id, posture, now, maxAge);
  }

  // ---- risk only grows ----

  /** The score of a request: `None` where an exception is raised instead */
  function RiskAt(c: P.Config, mac: P.Mac, text: Option<string>, id: Identity, ip: string, t: real): Option<nat> {
    match P.GetPosture(c, mac, text, ip, t)
    case Crash => None
    case Answer(r) => if Scorable(r) then Some(Score(id, r, t.Floor, c.maxAge)) else None
  }

  /**
   * For a fixed identity and store, the score never decreases once the clock is past the allowed posture age.
   * A record that turns stale costs 55 points, and no fresh record costs more than 45.
   */
  lemma RiskGrows(c: P.Config, mac: P.Mac, text: Option<string>, id: Identity, ip: string, t1: real, t2: real)
    requires t1 <= t2 && t1.Floor > c.maxAge
    requires RiskAt(c, mac, text, id, ip, t1).Some? && RiskAt(c, mac, text, id, ip, t2).Some?
    ensures RiskAt(c, mac, text, id, ip, t1).value <= RiskAt(c, mac, text, id, ip, t2).value
  {
    var r1, r2 := P.GetPosture(c, mac, text, ip, t1), P.GetPosture(c, mac, text, ip, t2);
    PostureOverTime(c, mac, text, ip, t1, t2);
    ScoreParts(id, r1.record, t1.Floor, c.maxAge);
    ScoreParts(id, r2.record, t2.Floor, c.maxAge);
    FixedRecord("stale posture data");
  }

  // ---- the policy and the score agree ----

  /**
   * At one clock reading, a request that is answered 200 has a score of at most 75. On a record written by an
   * agent, the age of the session alone decides between 30, 15 and 0, all below the default step-up threshold of 70,
   * and on a sensitive path it is 0.
   */
  lemma PolicyAgreesWithRisk(c: P.Config, mac: P.Mac, text: Option<string>, id: Identity, ip: string, path: string,
                             t: real, allow: Query, why: Query)
    requires t == Seconds(allow.nowNs)
    requires var r := Validate(id, P.GetPosture(c, mac, text, ip, t), ip, path, allow, why);
      r.Response? && r.status == 200
    ensures var posture := P.GetPosture(c, mac, text, ip, t).record;
      && Score(id, posture, t.Floor, c.maxAge) <= 75
      && (forall s, checkedAt :: posture == P.AgentEntry(s, checkedAt) ==>
            && Score(id, posture, t.Floor, c.maxAge)
                 == (if id.authTime <= 0 || t.Floor > id.authTime + 3600 then 30
                     else if t.Floor > id.authTime + 1800 then 15 else 0)
            && ("/sensitive" <= path ==> Score(id, posture, t.Floor, c.maxAge) == 0))
  {
    var reply := P.GetPosture(c, mac, text, ip, t);
    ValidateMeans(id, reply, ip, path, allow, why);
    PostureOverTime(c, mac, text, ip, t, t);
    ScoreParts(id, reply.record, t.Floor, c.maxAge);
    forall s, checkedAt | reply.record == P.AgentEntry(s, checkedAt) ensures PosturePoints(reply.record) == 0 {
      P.AgentEntrySays(s, checkedAt);
    }
  }
}
