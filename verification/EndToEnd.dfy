/**
 * The whole chain: agents and registration write the shared store in interleaved steps, the bridge reads it at
 * any moment, and the policy engine decides. What every 200 is backed by.
 */
module EndToEnd {
  import opened Basics
  import opened Json
  import opened Base64
  import opened JsonPrefix
  import opened Canonical
  import opened Jwt
  import opened Posture
  import opened Store
  import opened Schedules
  import I = Identity
  import B = Bridge

  // ---- the user's side ----

  /** The session limits on a path: five minutes on sensitive ones, otherwise a day if the login is dated at all */
  predicate SessionAllows(authTime: int, path: string, now: real) {
    if "/sensitive" <= path then authTime > 0 && now - authTime as real <= 300.0
    else authTime <= 0 || now - authTime as real <= 86400.0
  }

  /** The proxy vouches for a session whose token claims MFA, is recent enough, and is an admin's where needed. */
  predicate LoggedIn(proxy: I.ProxyReply, printable: I.Printable, path: string, now: real) {
    && proxy.ProxyReply? && proxy.status == 202
    && DecodeIdToken(proxy.authorization).Obj?
    && var claims := DecodeIdToken(proxy.authorization).fields;
    && I.MfaVerified(GetOr(claims, "amr", Arr(Nil)), printable) == Some(true)
    && I.AuthTime(GetOr(claims, "auth_time", Int(0))).Some?
    && SessionAllows(I.AuthTime(GetOr(claims, "auth_time", Int(0))).value, path, now)
    && ("/admin" <= path || "/api/peers" <= path ==>
          I.MemberOf("admins", GetOr(claims, "groups", Arr(Nil))) == Some(true))
  }

  lemma PermittedUserIsLoggedIn(proxy: I.ProxyReply, printable: I.Printable, posture: Fields, path: string, now: real)
    requires B.Permits(I.CheckIdentity(proxy, printable), posture, path, now)
    ensures LoggedIn(proxy, printable, path, now)
  {
    assert "/sensitive"[1] != "/admin"[1] && "/sensitive"[1] != "/api/peers"[1];
  }

  /** The identity that the bridge makes of a token of the mock provider is that of the token's claims. */
  lemma IssuedTokenIdentity(payload: Fields, iat: int, now: int, jti: string, email: string, printable: I.Printable)
    requires WfFields(payload)
    ensures I.CheckIdentity(I.ProxyReply(202, BEARER + MakeJwt(payload, iat, now, jti), email), printable)
      == I.FromClaims(Claims(payload, iat, now, jti), email, printable)
  {
    TokenDecodes(payload, iat, now, jti);
  }

  /** A token without authentication methods, such as every one that the mock provider issues, never gets a 200. */
  lemma TokensWithoutMethodsAreRefused(payload: Fields, iat: int, now: int, jti: string, email: string,
                                       printable: I.Printable, posture: Reply, ip: string, path: string,
                                       allow: B.Query, why: B.Query)
    requires WfFields(payload) && "amr" !in Keys(payload)
    ensures var reply := I.ProxyReply(202, BEARER + MakeJwt(payload, iat, now, jti), email);
      !Granted(B.Validate(I.CheckIdentity(reply, printable), posture, ip, path, allow, why))
  {
    var id := I.CheckIdentity(I.ProxyReply(202, BEARER + MakeJwt(payload, iat, now, jti), email), printable);
    IssuedTokenIdentity(payload, iat, now, jti, email, printable);
    ClaimsOverride(payload, iat, now, jti, "amr");
    NoRegisteredMethods(iat, now, jti);
    I.MfaMeans([], printable);
    assert I.Names([]) == Nil;
    B.ValidateMeans(id, posture, ip, path, allow, why);
  }

  lemma NoRegisteredMethods(iat: int, now: int, jti: string)
    ensures Get(Registered(iat, now, jti), "amr") == None
  {
    var f1 := Field("jti", Str(jti), Empty);
    var f2 := Field("exp", Int(now + 3600), f1);
    var f3 := Field("iat", Int(iat), f2);
    assert Get(f1, "amr") == None && Get(f2, "amr") == None && Get(f3, "amr") == None;
  }

  // ---- the device's side ----

  /** Step `i` is a run of the agent for `ip`, it leaves `run`, and its three checks are as the sources say. */
  ghost predicate RanAt(w: World, s: State, steps: seq<Step>, i: nat, run: Run) {
    && i < |steps| && steps[i].Check?
    && var before := Exec(w, s, steps[..i]);
    && steps[i].pid !in before.procs
    && run == Run(steps[i].ip, RunChecks(steps[i].src, before.clock), before.clock.Floor)
  }

  /** Every run on record is a step that happened, with the signals and the time of that step. */
  lemma {:induction false} RunsHappened(w: World, s: State, steps: seq<Step>, run: Run)
    requires s.runs == [] && run in Exec(w, s, steps).runs
    ensures exists i: nat :: RanAt(w, s, steps, i, run)
    decreases |steps|
  {
    if steps != [] {
      var front, last := steps[..|steps| - 1], steps[|steps| - 1];
      var before := Exec(w, s, front);
      if run in before.runs {
        RunsHappened(w, s, front, run);
        var i: nat :| RanAt(w, s, front, i, run);
        assert steps[..i] == front[..i] && steps[i] == front[i];
        assert RanAt(w, s, steps, i, run);
      } else {
        assert RanAt(w, s, steps, |steps| - 1, run);
      }
    }
  }

  /** And every such step is on record. */
  lemma {:induction false} RunsAreRecorded(w: World, s: State, steps: seq<Step>, i: nat, run: Run)
    requires RanAt(w, s, steps, i, run)
    ensures run in Exec(w, s, steps).runs
    decreases |steps|
  {
    var front := steps[..|steps| - 1];
    if i < |front| {
      assert steps[..i] == front[..i] && steps[i] == front[i];
      RunsAreRecorded(w, s, front, i, run);
    }
  }

  /** A run whose three checks succeeded, and that is within the allowed age at time `t` */
  predicate FreshRun(c: Config, run: Run, t: real) {
    run.signals.Healthy() && t - run.checkedAt as real <= c.maxAge as real
  }

  /** A healthy and fresh answer of the bridge */
  predicate FreshData(c: Config, data: Fields, t: real) {
    && Get(data, "posture") == Some(Str("healthy")) && CheckedAt(data).Some?
    && t - CheckedAt(data).value as real <= c.maxAge as real
  }

  /** An unhealthy record that the bridge makes up itself is never taken for a healthy one. */
  lemma HealthyReply(c: Config, mac: Mac, text: Option<string>, ip: string, t: real)
    requires IsHealthy(GetPosture(c, mac, text, ip, t))
    ensures text.Some? && Loads(text.value).Some? && Loads(text.value).value.Obj?
    ensures var f := Loads(text.value).value.fields;
      && ip in Keys(f) && DataOf(Get(f, ip).value).Obj?
      && Verify(mac, c.secret, DataOf(Get(f, ip).value), SigOf(Get(f, ip).value))
    ensures FreshData(c, DataOf(Get(Loads(text.value).value.fields, ip).value).fields, t)
  {
    assert Verdict(false) == "unhealthy" && "unhealthy"[0] != "healthy"[0];
  }

  /** A healthy agent entry is the entry of a run whose checks all succeeded. */
  lemma HealthyEntry(run: Run)
    requires Get(run.Entry().fields, "posture") == Some(Str("healthy"))
    ensures run.signals.Healthy() && CheckedAt(run.Entry().fields) == Some(run.checkedAt)
  {
    AgentEntrySays(run.signals, run.checkedAt);
    assert "unhealthy"[0] != "healthy"[0];
  }

  /** A healthy and fresh record that the bridge finds for an address while all writers are honest */
  lemma HonestRecord(w: World, c: Config, s: State, ip: string, record: Json, t: real)
    requires Written(w, s, ip, record) && DataOf(record).Obj? && FreshData(c, DataOf(record).fields, t)
    ensures Get(w.initial, ip) == Some(record) || exists run :: run in s.runs && run.ip == ip && FreshRun(c, run, t)
  {
    assert "unhealthy"[0] == 'u' && "healthy"[0] == 'h';
    if run :| run in s.runs && run.ip == ip && record == Envelope(w.mac, w.secret, run.Entry()) {
      assert DataOf(record) == run.Entry();
      HealthyEntry(run);
      assert FreshRun(c, run, t);
    } else if e :| e in s.enrolments && e.ip == ip && record == e.Record() {
      RegistrationIsPlain(e.name, e.email, e.now);
    }
  }

  /** A signed, healthy and fresh record that the bridge finds although anybody may write to the store */
  lemma SignedRecord(w: World, c: Config, s: State, who: Writers, ip: string, record: Json, t: real)
    requires Wf(record) && Signed(w, s, who, ip, record) && DataOf(record).Obj?
    requires Verify(w.mac, w.secret, DataOf(record), SigOf(record))
    requires FreshData(c, DataOf(record).fields, t)
    ensures exists run :: run in s.runs && (who.InPlace? ==> run.ip == ip) && FreshRun(c, run, t)
  {
    var run :| run in s.runs && (who.InPlace? ==> run.ip == ip) && SignedText(DataOf(record)) == SignedText(run.Entry());
    var data, entry := DataOf(record).fields, run.Entry().fields;
    if "data" in Keys(record.fields) { WfGet(record.fields, "data"); }
    AgentEntryIsWf(run.signals, run.checkedAt);
    AgentEntrySays(run.signals, run.checkedAt);
    SignedTextIdentifies(DataOf(record), run.Entry());
    assert "checked_at" in Keys(data) by {
      assert Keys(data) == Keys(entry) && Get(entry, "checked_at").Some?;
    }
    SameEntries(data, entry, "posture");
    SameEntries(data, entry, "checked_at");
    HealthyEntry(run);
    assert FreshRun(c, run, t);
  }

  // ---- the theorems ----

  /** The response to a request whose store read saw the first `seen` characters of the file of state `s` */
  function Answered(w: World, c: Config, s: State, seen: nat, proxy: I.ProxyReply, printable: I.Printable,
                    ip: string, path: string, allow: B.Query, why: B.Query): B.Response {
    var reply := GetPosture(c, w.mac, Seen(s.file, seen), ip, s.clock);
    B.Validate(I.CheckIdentity(proxy, printable), reply, ip, path, allow, why)
  }

  predicate Granted(r: B.Response) { r.Response? && r.status == 200 }

  /** What a 200 needs before any question of who wrote the store */
  lemma GrantedNeeds(w: World, c: Config, s: State, seen: nat, proxy: I.ProxyReply, printable: I.Printable,
                     ip: string, path: string, allow: B.Query, why: B.Query)
    requires Granted(Answered(w, c, s, seen, proxy, printable, ip, path, allow, why))
    ensures LoggedIn(proxy, printable, path, B.Seconds(allow.nowNs))
    ensures IsHealthy(GetPosture(c, w.mac, Seen(s.file, seen), ip, s.clock))
  {
    var id, reply := I.CheckIdentity(proxy, printable), GetPosture(c, w.mac, Seen(s.file, seen), ip, s.clock);
    B.ValidateMeans(id, reply, ip, path, allow, why);
    PermittedUserIsLoggedIn(proxy, printable, reply.record, path, B.Seconds(allow.nowNs));
  }

  /** The store held a healthy and fresh record for the address before the first step. */
  ghost predicate HealthyBefore(w: World, c: Config, ip: string, t: real) {
    && ip in Keys(w.initial) && DataOf(Get(w.initial, ip).value).Obj?
    && FreshData(c, DataOf(Get(w.initial, ip).value).fields, t)
  }

  lemma HonestGrant(w: World, c: Config, s: State, seen: nat, ip: string)
    requires Inv(w, s, Honest) && IsHealthy(GetPosture(c, w.mac, Seen(s.file, seen), ip, s.clock))
    ensures HealthyBefore(w, c, ip, s.clock) || exists run :: run in s.runs && run.ip == ip && FreshRun(c, run, s.clock)
  {
    var text := Seen(s.file, seen);
    HealthyReply(c, w.mac, text, ip, s.clock);
    assert text.value == s.file.value[..|text.value|];
    assert FindOk(w, s, Honest, Loads(text.value));
    var record := Get(Loads(text.value).value.fields, ip).value;
    assert RecordOk(w, s, Honest, ip, record);
    HonestRecord(w, c, s, ip, record, s.clock);
  }

  lemma SignedGrant(w: World, c: Config, s: State, who: Writers, seen: nat, ip: string)
    requires !who.Honest? && Inv(w, s, who) && c.secret == w.secret
    requires IsHealthy(GetPosture(c, w.mac, Seen(s.file, seen), ip, s.clock))
    ensures exists run :: run in s.runs && (who.InPlace? ==> run.ip == ip) && FreshRun(c, run, s.clock)
  {
    var text := Seen(s.file, seen);
    HealthyReply(c, w.mac, text, ip, s.clock);
    assert text.value == s.file.value[..|text.value|];
    assert FindOk(w, s, who, Loads(text.value));
    var f := Loads(text.value).value.fields;
    assert RecordOk(w, s, who, ip, Get(f, ip).value);
    WfGet(f, ip);
    SignedRecord(w, c, s, who, ip, Get(f, ip).value, s.clock);
  }

  /** Some step was a run of the agent for `ip` with three good signals, fresh at the end of all the steps. */
  ghost predicate BackedByRun(w: World, c: Config, s: State, steps: seq<Step>, ip: string) {
    exists i: nat, run :: RanAt(w, s, steps, i, run) && run.ip == ip && FreshRun(c, run, Exec(w, s, steps).clock)
  }

  /**
   * End-to-end safety. In every interleaved run of agents and registrations that splices no chunks, with lost
   * updates, resurrected records, torn reads and crashes, every 200 is backed by a 202 of the proxy, an MFA claim, a
   * session within its limits and a run of the agent for that very address with all three checks true and no older than the
   * allowed posture age, unless the store held such a record for the address from the start.
   */
  lemma EveryGrantIsBacked(w: World, c: Config, s: State, steps: seq<Step>, seen: nat, proxy: I.ProxyReply,
                           printable: I.Printable, ip: string, path: string, allow: B.Query, why: B.Query)
    requires Init(w, s) && Fair(w, s, steps, Honest)
    requires Granted(Answered(w, c, Exec(w, s, steps), seen, proxy, printable, ip, path, allow, why))
    ensures LoggedIn(proxy, printable, path, B.Seconds(allow.nowNs))
    ensures BackedByRun(w, c, s, steps, ip) || HealthyBefore(w, c, ip, Exec(w, s, steps).clock)
  {
    var s2 := Exec(w, s, steps);
    GrantedNeeds(w, c, s2, seen, proxy, printable, ip, path, allow, why);
    StoreIntegrity(w, s, steps, Honest);
    HonestGrant(w, c, s2, seen, ip);
    if run :| run in s2.runs && run.ip == ip && FreshRun(c, run, s2.clock) {
      RunsHappened(w, s, steps, run);
    }
  }

  /** No record that was in the store before the first step carries a date. */
  ghost predicate Undated(initial: Fields) {
    forall ip :: ip in Keys(initial) && DataOf(Get(initial, ip).value).Obj? ==>
      "checked_at" !in Keys(DataOf(Get(initial, ip).value).fields)
  }

  /** An undated record counts as checked at time 0, so past the allowed age every 200 is backed by a run. */
  lemma EveryGrantHasARun(w: World, c: Config, s: State, steps: seq<Step>, seen: nat, proxy: I.ProxyReply,
                          printable: I.Printable, ip: string, path: string, allow: B.Query, why: B.Query)
    requires Init(w, s) && Fair(w, s, steps, Honest) && Undated(w.initial)
    requires Exec(w, s, steps).clock > c.maxAge as real
    requires Granted(Answered(w, c, Exec(w, s, steps), seen, proxy, printable, ip, path, allow, why))
    ensures LoggedIn(proxy, printable, path, B.Seconds(allow.nowNs)) && BackedByRun(w, c, s, steps, ip)
  {
    EveryGrantIsBacked(w, c, s, steps, seen, proxy, printable, ip, path, allow, why);
  }

  /**
   * With a secret that the bridge shares with the agents, the same holds although anybody may overwrite the
   * store, as long as signatures cannot be forged. A signature does not cover the address, so where signed entries
   * may be put anywhere the run is that of some device; where they stay in place it is one for the address itself.
   */
  lemma EveryGrantIsSigned(w: World, c: Config, s: State, steps: seq<Step>, who: Writers, seen: nat,
                           proxy: I.ProxyReply, printable: I.Printable, ip: string, path: string,
                           allow: B.Query, why: B.Query)
    requires !who.Honest? && Init(w, s) && InitialOk(w, who) && Fair(w, s, steps, who) && c.secret == w.secret
    requires Granted(Answered(w, c, Exec(w, s, steps), seen, proxy, printable, ip, path, allow, why))
    ensures LoggedIn(proxy, printable, path, B.Seconds(allow.nowNs))
    ensures exists i: nat, run :: RanAt(w, s, steps, i, run) && FreshRun(c, run, Exec(w, s, steps).clock)
    ensures who.InPlace? ==> BackedByRun(w, c, s, steps, ip)
  {
    var s2 := Exec(w, s, steps);
    GrantedNeeds(w, c, s2, seen, proxy, printable, ip, path, allow, why);
    StoreIntegrity(w, s, steps, who);
    SignedGrant(w, c, s2, who, seen, ip);
    var run :| run in s2.runs && (who.InPlace? ==> run.ip == ip) && FreshRun(c, run, s2.clock);
    RunsHappened(w, s, steps, run);
  }

  // ---- signed entries that are moved ----

  /** A store in which the signed entry of a run stands under its own address and under another one */
  function MovedStore(w: World, run: Run, to: string): Fields {
    Put(Field(run.ip, Envelope(w.mac, w.secret, run.Entry()), Empty), to, Envelope(w.mac, w.secret, run.Entry()))
  }

  function MovedText(w: World, run: Run, to: string): string { Dumps(Obj(MovedStore(w, run, to)), Indented) }

  /** Digests tell texts apart and are never empty, as those of a keyed hash. */
  ghost predicate GoodMac(w: World) {
    w.secret != "" && CollisionFree(w.mac, w.secret) && forall text :: w.mac(w.secret, text) != []
  }

  lemma MovedStoreReads(w: World, run: Run, to: string, n: nat)
    requires to != run.ip && n <= |MovedText(w, run, to)|
    ensures WfFields(MovedStore(w, run, to))
    ensures Loads(MovedText(w, run, to)[..n])
      == if n == |MovedText(w, run, to)| then Some(Obj(MovedStore(w, run, to))) else None
  {
    var env, text := Envelope(w.mac, w.secret, run.Entry()), MovedText(w, run, to);
    AgentEntryIsWf(run.signals, run.checkedAt);
    EnvelopeIsWf(w.mac, w.secret, run.Entry());
    assert WfFields(Empty);
    assert WfFields(Field(run.ip, env, Empty));
    StoreReadsBack(Field(run.ip, env, Empty), to, env, "");
    assert text[..|text|] == text;
    if n < |text| { ProperPrefixIsMalformed(MovedStore(w, run, to), Indented, n); }
  }

  lemma MovedSignature(w: World, run: Run, q: string)
    requires GoodMac(w)
    ensures var sig := SigOf(Envelope(w.mac, w.secret, run.Entry()));
      sig.Str? && (Decode(sig.s) == Some(w.mac(w.secret, q)) <==> q == SignedText(run.Entry()))
  {
    var sig := Field("sig", Str(SignEntry(w.mac, w.secret, run.Entry())), Empty);
    assert Get(sig, "sig") == Some(sig.value);
    DecodeEncode(w.mac(w.secret, SignedText(run.Entry())));
  }

  /**
   * Moving a signed entry needs no forgery. It leaves signatures in place exactly if some run for the new address
   * had the very same entry.
   */
  lemma MovedTextIsUnforged(w: World, s: State, who: Writers, run: Run, to: string)
    requires GoodMac(w) && run in s.runs && to != run.ip
    ensures Unforged(w, s, who, MovedText(w, run, to)) <==>
      (who.InPlace? ==> SignedFor(s, InPlace, to, SignedText(run.Entry())))
  {
    var text, store, signed := MovedText(w, run, to), MovedStore(w, run, to), SignedText(run.Entry());
    assert Keys(store) == {run.ip, to};
    forall n: nat, f, ip, q | n <= |text| && Loads(text[..n]) == Some(Obj(f)) && ip in Keys(f)
        && SigOf(Get(f, ip).value).Str? && Decode(SigOf(Get(f, ip).value).s) == Some(w.mac(w.secret, q))
      ensures q == signed && (ip == run.ip || ip == to)
    {
      MovedStoreReads(w, run, to, n);
      MovedSignature(w, run, q);
    }
    assert SignedFor(s, who, run.ip, signed);
    MovedStoreReads(w, run, to, |text|);
    MovedSignature(w, run, signed);
    assert Get(store, to) == Some(Envelope(w.mac, w.secret, run.Entry()));
    assert text[..|text|] == text;
  }

  /** The bridge accepts a moved entry while it is fresh. */
  lemma MovedEntryIsAccepted(w: World, c: Config, run: Run, to: string, t: real)
    requires c.secret == w.secret && FreshRun(c, run, t)
    requires w.secret != "" ==> w.mac(w.secret, SignedText(run.Entry())) != []
    ensures GetPosture(c, w.mac, Some(MovedText(w, run, to)), to, t) == Answer(AgentEntry(run.signals, run.checkedAt))
  {
    AgentEntryIsWf(run.signals, run.checkedAt);
    EnvelopeIsWf(w.mac, w.secret, run.Entry());
    assert WfFields(Empty);
    assert WfFields(Field(run.ip, Envelope(w.mac, w.secret, run.Entry()), Empty));
    AgentToBridge(c, w.mac, Field(run.ip, Envelope(w.mac, w.secret, run.Entry()), Empty), to,
                  run.signals, run.checkedAt, t);
  }

  /** One more step of a foreign writer, who moves an entry of a run on record, is fair where entries may be moved. */
  lemma MovingIsFair(w: World, s: State, steps: seq<Step>, run: Run, to: string)
    requires GoodMac(w) && Fair(w, s, steps, Anywhere) && run in Exec(w, s, steps).runs && to != run.ip
    ensures Fair(w, s, AndMoved(w, steps, run, to), Anywhere)
  {
    var more := AndMoved(w, steps, run, to);
    MovedTextIsUnforged(w, Exec(w, s, steps), Anywhere, run, to);
    forall i | 0 <= i < |more| ensures FairStep(w, Exec(w, s, more[..i]), more[i], Anywhere) {
      assert more[..i] == steps[..i];
      if i == |steps| { assert more[..i] == steps; }
    }
  }

  /**
   * Where entries may be moved, an address need not be backed. After any fair steps, a foreign writer who moves the
   * fresh entry of a healthy run to another address makes the bridge grant every logged-in user there, and that
   * grant is backed by a run for the address exactly if one was on record anyway.
   */
  lemma SignatureMoves(w: World, c: Config, s: State, steps: seq<Step>, run: Run, to: string, proxy: I.ProxyReply,
                       printable: I.Printable, path: string, allow: B.Query, why: B.Query)
    requires GoodMac(w) && c.secret == w.secret && s.runs == [] && Fair(w, s, steps, Anywhere)
    requires run in Exec(w, s, steps).runs && to != run.ip && FreshRun(c, run, Exec(w, s, steps).clock)
    requires Welcome(proxy, printable, path, B.Seconds(allow.nowNs)) && B.Reaches(allow, why)
    ensures var moved := AndMoved(w, steps, run, to);
      && Fair(w, s, moved, Anywhere)
      && Granted(Answered(w, c, Exec(w, s, moved), |MovedText(w, run, to)|, proxy, printable, to, path, allow, why))
    ensures BackedByRun(w, c, s, AndMoved(w, steps, run, to), to) <==>
      exists other :: other in Exec(w, s, steps).runs && other.ip == to && FreshRun(c, other, Exec(w, s, steps).clock)
  {
    MovingIsFair(w, s, steps, run, to);
    MovingLeaves(w, s, steps, run, to);
    MovedEntryIsGranted(w, c, Exec(w, s, AndMoved(w, steps, run, to)), run, to, proxy, printable, path, allow, why);
    BackedMeans(w, c, s, AndMoved(w, steps, run, to), to);
  }

  function AndMoved(w: World, steps: seq<Step>, run: Run, to: string): seq<Step> {
    steps + [Foreign(MovedText(w, run, to))]
  }

  lemma MovingLeaves(w: World, s: State, steps: seq<Step>, run: Run, to: string)
    ensures Exec(w, s, AndMoved(w, steps, run, to)) == Exec(w, s, steps).(file := Some(MovedText(w, run, to)))
  {
    ExecOne(w, s, steps, Foreign(MovedText(w, run, to)));
  }

  lemma MovedEntryIsGranted(w: World, c: Config, s: State, run: Run, to: string, proxy: I.ProxyReply,
                            printable: I.Printable, path: string, allow: B.Query, why: B.Query)
    requires GoodMac(w) && c.secret == w.secret && FreshRun(c, run, s.clock) && s.file == Some(MovedText(w, run, to))
    requires Welcome(proxy, printable, path, B.Seconds(allow.nowNs)) && B.Reaches(allow, why)
    ensures Granted(Answered(w, c, s, |MovedText(w, run, to)|, proxy, printable, to, path, allow, why))
  {
    SeesAll(s.file, |MovedText(w, run, to)|);
    MovedEntryIsAccepted(w, c, run, to, s.clock);
    HealthyAnswerIsGranted(proxy, printable, run, to, path, allow, why);
  }

  /** Being backed is a matter of the runs on record. */
  lemma BackedMeans(w: World, c: Config, s: State, steps: seq<Step>, ip: string)
    requires s.runs == []
    ensures BackedByRun(w, c, s, steps, ip) <==>
      exists run :: run in Exec(w, s, steps).runs && run.ip == ip && FreshRun(c, run, Exec(w, s, steps).clock)
  {
    var s2 := Exec(w, s, steps);
    if BackedByRun(w, c, s, steps, ip) {
      var i: nat, run :| RanAt(w, s, steps, i, run) && run.ip == ip && FreshRun(c, run, s2.clock);
      RunsAreRecorded(w, s, steps, i, run);
    }
    if run :| run in s2.runs && run.ip == ip && FreshRun(c, run, s2.clock) {
      RunsHappened(w, s, steps, run);
    }
  }

  /** A run of the whole chain in which a 200 is not backed: one healthy agent, whose entry is moved once */
  lemma MovedGrantIsUnbacked(w: World, c: Config, s: State, pid: nat, ip: string, src: Sources, to: string,
                             proxy: I.ProxyReply, printable: I.Printable, path: string, allow: B.Query, why: B.Query)
    requires GoodMac(w) && c.secret == w.secret && c.maxAge >= 1 && s.runs == [] && s.procs == map[] && to != ip
    requires RunChecks(src, s.clock).Healthy()
    requires Welcome(proxy, printable, path, B.Seconds(allow.nowNs)) && B.Reaches(allow, why)
    ensures var run := Run(ip, RunChecks(src, s.clock), s.clock.Floor);
      var steps := AndMoved(w, [Check(pid, ip, src), ReadFile(pid, |TextOf(s)|), Open(pid), Write(pid)], run, to);
      && Fair(w, s, steps, Anywhere) && !BackedByRun(w, c, s, steps, to)
      && Granted(Answered(w, c, Exec(w, s, steps), |MovedText(w, run, to)|, proxy, printable, to, path, allow, why))
  {
    var run := Run(ip, RunChecks(src, s.clock), s.clock.Floor);
    var first := [Check(pid, ip, src), ReadFile(pid, |TextOf(s)|), Open(pid), Write(pid)];
    OneRunLeaves(w, s, pid, ip, src, |TextOf(s)|);
    OneRunIsFair(w, s, first);
    LoneEntryMoves(w, c, s, first, run, to, proxy, printable, path, allow, why);
  }

  lemma LoneEntryMoves(w: World, c: Config, s: State, steps: seq<Step>, run: Run, to: string, proxy: I.ProxyReply,
                       printable: I.Printable, path: string, allow: B.Query, why: B.Query)
    requires GoodMac(w) && c.secret == w.secret && s.runs == [] && Fair(w, s, steps, Anywhere)
    requires Exec(w, s, steps).runs == [run] && to != run.ip && FreshRun(c, run, Exec(w, s, steps).clock)
    requires Welcome(proxy, printable, path, B.Seconds(allow.nowNs)) && B.Reaches(allow, why)
    ensures var moved := AndMoved(w, steps, run, to);
      && Fair(w, s, moved, Anywhere) && !BackedByRun(w, c, s, moved, to)
      && Granted(Answered(w, c, Exec(w, s, moved), |MovedText(w, run, to)|, proxy, printable, to, path, allow, why))
  {
    SignatureMoves(w, c, s, steps, run, to, proxy, printable, path, allow, why);
  }

  lemma OneRunIsFair(w: World, s: State, steps: seq<Step>)
    requires s.procs == map[] && forall i :: 0 <= i < |steps| ==> !steps[i].Flush? && !steps[i].Foreign?
    ensures Fair(w, s, steps, Anywhere)
  {
    WholeTextsAreOrderly(w, s, steps);
  }

  /** What the steps of one agent leave besides the file */
  lemma OneRunLeaves(w: World, s: State, pid: nat, ip: string, src: Sources, seen: nat)
    requires pid !in s.procs
    ensures var s2 := Exec(w, s, [Check(pid, ip, src), ReadFile(pid, seen), Open(pid), Write(pid)]);
      s2.runs == s.runs + [Run(ip, RunChecks(src, s.clock), s.clock.Floor)] && s2.clock == s.clock
  {
    ExecFour(w, s, Check(pid, ip, src), ReadFile(pid, seen), Open(pid), Write(pid));
  }

  // ---- the other direction ----

  lemma LoggedInUserIsPermitted(proxy: I.ProxyReply, printable: I.Printable, posture: Fields, path: string, now: real)
    requires LoggedIn(proxy, printable, path, now) && I.CheckIdentity(proxy, printable).User?
    requires Get(posture, "posture") == Some(Str("healthy"))
    ensures B.Permits(I.CheckIdentity(proxy, printable), posture, path, now)
  {
    assert "/sensitive"[1] != "/admin"[1] && "/sensitive"[1] != "/api/peers"[1];
  }

  /** A logged-in user whose claims can be read */
  predicate Welcome(proxy: I.ProxyReply, printable: I.Printable, path: string, now: real) {
    LoggedIn(proxy, printable, path, now) && I.CheckIdentity(proxy, printable).User?
  }

  lemma HealthyAnswerIsGranted(proxy: I.ProxyReply, printable: I.Printable, run: Run, ip: string, path: string,
                               allow: B.Query, why: B.Query)
    requires Welcome(proxy, printable, path, B.Seconds(allow.nowNs)) && B.Reaches(allow, why) && run.signals.Healthy()
    ensures var reply := Answer(AgentEntry(run.signals, run.checkedAt));
      Granted(B.Validate(I.CheckIdentity(proxy, printable), reply, ip, path, allow, why))
  {
    var entry := AgentEntry(run.signals, run.checkedAt);
    AgentEntrySays(run.signals, run.checkedAt);
    LoggedInUserIsPermitted(proxy, printable, entry, path, B.Seconds(allow.nowNs));
    B.ValidateMeans(I.CheckIdentity(proxy, printable), Answer(entry), ip, path, allow, why);
  }

  /**
   * Nothing more is needed for a 200: after an undisturbed run with three good signals, every logged-in user whose
   * claims can be read gets one, whatever the store held, as long as the policy engine answers.
   */
  lemma HealthyDeviceIsGranted(w: World, c: Config, s: State, pid: nat, src: Sources, seen: nat, proxy: I.ProxyReply,
                               printable: I.Printable, ip: string, path: string, allow: B.Query, why: B.Query)
    requires pid !in s.procs && |TextOf(s)| <= seen && AgentStore(s.file).Some?
    requires RunChecks(src, s.clock).Healthy() && c.secret == w.secret && c.maxAge >= 1
    requires forall text :: w.mac(w.secret, text) != []
    requires Welcome(proxy, printable, path, B.Seconds(allow.nowNs)) && B.Reaches(allow, why)
    ensures var s2 := Exec(w, s, [Check(pid, ip, src), ReadFile(pid, seen), Open(pid), Write(pid)]);
      var reply := GetPosture(c, w.mac, s2.file, ip, s.clock);
      Granted(B.Validate(I.CheckIdentity(proxy, printable), reply, ip, path, allow, why))
  {
    var run := Run(ip, RunChecks(src, s.clock), s.clock.Floor);
    UndisturbedRun(w, s, pid, ip, src, seen);
    RunIsSeen(w, c, run, s.file, s.clock);
    HealthyAnswerIsGranted(proxy, printable, run, ip, path, allow, why);
  }
}
