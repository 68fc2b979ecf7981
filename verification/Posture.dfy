/**
 * Device posture: what an agent checks, signs and stores, what registration stores, and what the authorization
 * bridge makes of a stored record.
 */
module Posture {
  import opened Basics
  import opened Json
  import opened Canonical
  import opened JsonRoundTrip
  import opened Base64

  // ---- the agent ----

  const MAX_PATCH_AGE_DAYS := 30.0
  const BLOCKLISTED := ["nc", "ncat", "mimikatz", "sliver", "sliver-server", "sliver-client", "cobaltstrike",
                        "teamserver", "beacon", "brute_ratel", "havoc"]

  datatype Signals = Signals(disk: bool, patch: bool, process: bool) {
    predicate Healthy() { disk && patch && process }
  }

  /** The three sources an agent queries; `None` stands for a query that failed in any way. */
  datatype Sources = Sources(encryptedDisks: Option<seq<Json>>, lastUpgrade: Option<int>, processes: Option<seq<string>>)

  function CheckDisk(rows: Option<seq<Json>>): bool { rows.Some? && |rows.value| > 0 }

  function CheckPatch(lastUpgrade: Option<int>, now: real): bool {
    lastUpgrade.Some? && (now - lastUpgrade.value as real) / 86400.0 <= MAX_PATCH_AGE_DAYS
  }

  function CheckProcesses(names: Option<seq<string>>): bool {
    names.Some? && forall i :: 0 <= i < |names.value| ==> Lower(names.value[i]) !in BLOCKLISTED
  }

  function RunChecks(src: Sources, now: real): Signals {
    Signals(CheckDisk(src.encryptedDisks), CheckPatch(src.lastUpgrade, now), CheckProcesses(src.processes))
  }

  function Verdict(healthy: bool): string { if healthy then "healthy" else "unhealthy" }

  function SignalFields(s: Signals): Fields {
    Field("disk_encrypted", Bool(s.disk), Field("patch_within_window", Bool(s.patch),
      Field("no_blocklisted_process", Bool(s.process), Empty)))
  }

  /** The entry of one agent run */
  function AgentEntry(s: Signals, checkedAt: int): Fields {
    Field("posture", Str(Verdict(s.Healthy())), Field("healthy", Bool(s.Healthy()),
      Field("signals", Obj(SignalFields(s)), Field("checked_at", Int(checkedAt), Empty))))
  }

  // ---- signatures ----

  /** The keyed digest of a text, abstract */
  type Mac = (string, string) -> seq<byte>

  /** No two texts have the same digest under `secret`. */
  ghost predicate CollisionFree(mac: Mac, secret: string) {
    forall p, q :: mac(secret, p) == mac(secret, q) ==> p == q
  }

  function SignEntry(mac: Mac, secret: string, data: Json): string {
    if secret == "" then "" else Encode(mac(secret, SignedText(data)))
  }

  function Envelope(mac: Mac, secret: string, data: Json): Json {
    Obj(Field("data", data, Field("sig", Str(SignEntry(mac, secret, data)), Empty)))
  }

  /** What registration writes for a device that has not checked in */
  function Registration(name: string, email: string, now: int): Fields {
    Field("posture", Str("unhealthy"), Field("healthy", Bool(false), Field("device_id", Str(name),
      Field("email", Str(email), Field("registered_at", Int(now), Field("last_seen", Int(0),
        Field("signals", Obj(SignalFields(Signals(false, false, false))), Empty)))))))
  }

  // ---- the bridge ----

  datatype Config = Config(secret: string, maxAge: int)

  /** `bool(v)` */
  predicate Truthy(v: Json) {
    match v
    case Null => false
    case Bool(b) => b
    case Int(n) => n != 0
    case Str(s) => s != ""
    case Arr(items) => items.Cons?
    case Obj(f) => f.Field?
  }

  function Verify(mac: Mac, secret: string, data: Json, sig: Json): bool {
    if secret == "" then true
    else if !Truthy(sig) || !sig.Str? then false
    else Decode(sig.s) == Some(mac(secret, SignedText(data)))
  }

  /** `Crash` stands for an exception that nothing catches. */
  datatype Reply = Crash | Answer(record: Fields)

  function Unhealthy(why: string): Reply {
    Answer(Field("posture", Str("unhealthy"), Field("reason", Str(why), Empty)))
  }

  /** A Python number: booleans are numbers too. */
  function Number(v: Json): Option<int> {
    match v
    case Int(n) => Some(n)
    case Bool(b) => Some(if b then 1 else 0)
    case _ => None
  }

  /** The data of a record, signed or not, and its signature */
  function DataOf(record: Json): Json {
    if record.Obj? then GetOr(record.fields, "data", record) else record
  }

  function SigOf(record: Json): Json {
    if record.Obj? then GetOr(record.fields, "sig", Str("")) else Str("")
  }

  function CheckedAt(f: Fields): Option<int> { Number(GetOr(f, "checked_at", Int(0))) }

  /** What the bridge makes of the record of a device at time `t` */
  function Judge(c: Config, mac: Mac, record: Json, t: real): Reply {
    if !Truthy(record) then Unhealthy("no posture record for source")
    else if !Verify(mac, c.secret, DataOf(record), SigOf(record)) then Unhealthy("invalid posture signature")
    else if !DataOf(record).Obj? then Crash
    else
      match CheckedAt(DataOf(record).fields)
      case None => Crash
      case Some(checkedAt) =>
        if t - checkedAt as real > c.maxAge as real then Unhealthy("stale posture data")
        else Answer(DataOf(record).fields)
  }

  /** `get_posture` on the text of the store that was read, `None` if there was no file */
  function GetPosture(c: Config, mac: Mac, text: Option<string>, ip: string, t: real): Reply {
    if text.None? || Loads(text.value).None? then Unhealthy("no posture data")
    else
      match Loads(text.value).value
      case Obj(store) => Judge(c, mac, GetOr(store, ip, Null), t)
      case _ => Crash
  }

  predicate IsHealthy(r: Reply) { r.Answer? && Get(r.record, "posture") == Some(Str("healthy")) }

  // ---- what an agent's entry says ----

  lemma AgentEntryIsWf(s: Signals, checkedAt: int)
    ensures WfFields(AgentEntry(s, checkedAt))
  {
    SignalFieldsAreWf(s);
    var f1 := Field("checked_at", Int(checkedAt), Empty);
    var f2 := Field("signals", Obj(SignalFields(s)), f1);
    var f3 := Field("healthy", Bool(s.Healthy()), f2);
    assert WfFields(Empty);
    assert Keys(f1) == {"checked_at"} && WfFields(f1);
    assert Keys(f2) == {"signals", "checked_at"} && WfFields(f2);
    assert Keys(f3) == {"healthy", "signals", "checked_at"} && WfFields(f3);
  }

  lemma SignalFieldsAreWf(s: Signals)
    ensures WfFields(SignalFields(s))
  {
    var f1 := Field("no_blocklisted_process", Bool(s.process), Empty);
    var f2 := Field("patch_within_window", Bool(s.patch), f1);
    assert WfFields(Empty);
    assert Keys(f1) == {"no_blocklisted_process"} && WfFields(f1);
    assert Keys(f2) == {"patch_within_window", "no_blocklisted_process"} && WfFields(f2);
  }

  /** The fields of an agent's entry, as its readers find them */
  lemma AgentEntrySays(s: Signals, checkedAt: int)
    ensures Get(AgentEntry(s, checkedAt), "healthy") == Some(Bool(s.Healthy()))
    ensures Get(AgentEntry(s, checkedAt), "posture") == Some(Str(Verdict(s.Healthy())))
    ensures Get(AgentEntry(s, checkedAt), "signals") == Some(Obj(SignalFields(s)))
    ensures CheckedAt(AgentEntry(s, checkedAt)) == Some(checkedAt)
    ensures Get(SignalFields(s), "disk_encrypted") == Some(Bool(s.disk))
    ensures Get(SignalFields(s), "patch_within_window") == Some(Bool(s.patch))
    ensures Get(SignalFields(s), "no_blocklisted_process") == Some(Bool(s.process))
  {
    var f1 := Field("checked_at", Int(checkedAt), Empty);
    var f2 := Field("signals", Obj(SignalFields(s)), f1);
    var f3 := Field("healthy", Bool(s.Healthy()), f2);
    assert Get(f1, "checked_at") == Some(Int(checkedAt));
    assert Get(f2, "checked_at") == Some(Int(checkedAt));
    assert Get(f3, "checked_at") == Some(Int(checkedAt));
    assert Get(f3, "signals") == Some(Obj(SignalFields(s)));
    var g1 := Field("no_blocklisted_process", Bool(s.process), Empty);
    var g2 := Field("patch_within_window", Bool(s.patch), g1);
    assert Get(g1, "no_blocklisted_process") == Some(Bool(s.process));
    assert Get(g2, "no_blocklisted_process") == Some(Bool(s.process));
  }

  /** The tools that no process may be, by their names in lower case */
  predicate IsBlocked(name: string) {
    || name == "nc" || name == "ncat" || name == "mimikatz" || name == "sliver" || name == "sliver-server"
    || name == "sliver-client" || name == "cobaltstrike" || name == "teamserver" || name == "beacon"
    || name == "brute_ratel" || name == "havoc"
  }

  lemma BlocklistIs(name: string)
    ensures name in BLOCKLISTED <==> IsBlocked(name)
  {
    assert BLOCKLISTED[0] == "nc" && BLOCKLISTED[1] == "ncat" && BLOCKLISTED[2] == "mimikatz";
    assert BLOCKLISTED[3] == "sliver" && BLOCKLISTED[4] == "sliver-server" && BLOCKLISTED[5] == "sliver-client";
    assert BLOCKLISTED[6] == "cobaltstrike" && BLOCKLISTED[7] == "teamserver" && BLOCKLISTED[8] == "beacon";
    assert BLOCKLISTED[9] == "brute_ratel" && BLOCKLISTED[10] == "havoc";
  }

  /** A failed query never counts as healthy, and an entry is healthy exactly when all three checks succeeded. */
  lemma AgentFailsClosed(src: Sources, now: real)
    ensures RunChecks(src, now).Healthy() <==>
      && src.encryptedDisks.Some? && |src.encryptedDisks.value| > 0
      && src.lastUpgrade.Some? && now <= src.lastUpgrade.value as real + 2592000.0
      && src.processes.Some? && forall n :: n in src.processes.value ==> !IsBlocked(Lower(n))
    ensures Get(AgentEntry(RunChecks(src, now), now.Floor), "posture") == Some(Str("healthy"))
      <==> RunChecks(src, now).Healthy()
  {
    AgentEntrySays(RunChecks(src, now), now.Floor);
    if src.processes.Some? { ProcessesMean(src.processes.value); }
  }

  lemma ProcessesMean(names: seq<string>)
    ensures CheckProcesses(Some(names)) <==> forall n :: n in names ==> !IsBlocked(Lower(n))
  {
    forall n ensures Lower(n) in BLOCKLISTED <==> IsBlocked(Lower(n)) { BlocklistIs(Lower(n)); }
  }

  // ---- what a signature proves ----

  /**
   * An entry verifies under the signature of an entry exactly when the two are equal up to the order of keys, so a
   * signed entry still verifies after any reordering of its keys, and no other entry does.
   */
  lemma SignatureBinds(mac: Mac, secret: string, signed: Json, data: Json)
    requires Wf(signed) && Wf(data) && secret != "" && CollisionFree(mac, secret)
    requires mac(secret, SignedText(signed)) != []
    ensures Verify(mac, secret, data, Str(SignEntry(mac, secret, signed))) <==> Same(signed, data)
  {
    DecodeEncode(mac(secret, SignedText(signed)));
    SignedTextIdentifies(signed, data);
    assert SignEntry(mac, secret, signed) != "" by {
      if Encode(mac(secret, SignedText(signed))) == Encode([]) {
        EncodeIsInjective(mac(secret, SignedText(signed)), []);
      }
    }
  }

  lemma EnvelopeVerifies(mac: Mac, secret: string, data: Json)
    requires Wf(data) && (secret != "" ==> mac(secret, SignedText(data)) != [])
    ensures secret == "" ==> SigOf(Envelope(mac, secret, data)) == Str("")
    ensures DataOf(Envelope(mac, secret, data)) == data
    ensures Verify(mac, secret, data, SigOf(Envelope(mac, secret, data)))
  {
    var sig := Field("sig", Str(SignEntry(mac, secret, data)), Empty);
    assert Get(sig, "sig") == Some(Str(SignEntry(mac, secret, data)));
    if secret != "" {
      var d := mac(secret, SignedText(data));
      DecodeEncode(d);
      assert Encode(d) != "" by {
        if Encode(d) == Encode([]) { EncodeIsInjective(d, []); }
      }
    }
  }

  /**
   * From agent to bridge: whatever the store held before, the entry that an agent signs, stores and dumps comes
   * back from the bridge unchanged while it is fresh, and as an unhealthy record afterwards.
   */
  lemma AgentToBridge(c: Config, mac: Mac, store: Fields, ip: string, s: Signals, checkedAt: int, t: real)
    requires WfFields(store)
    requires c.secret != "" ==> mac(c.secret, SignedText(Obj(AgentEntry(s, checkedAt)))) != []
    ensures var entry := AgentEntry(s, checkedAt);
      var text := Dumps(Obj(Put(store, ip, Envelope(mac, c.secret, Obj(entry)))), Indented);
      GetPosture(c, mac, Some(text), ip, t) ==
        if t - checkedAt as real <= c.maxAge as real then Answer(entry) else Unhealthy("stale posture data")
  {
    var data := Obj(AgentEntry(s, checkedAt));
    var record := Envelope(mac, c.secret, data);
    AgentEntryIsWf(s, checkedAt);
    AgentEntrySays(s, checkedAt);
    EnvelopeIsWf(mac, c.secret, data);
    WfPut(store, ip, record);
    LoadsDumps(Obj(Put(store, ip, record)), Indented, "");
    EnvelopeVerifies(mac, c.secret, data);
  }

  lemma EnvelopeIsWf(mac: Mac, secret: string, data: Json)
    requires Wf(data)
    ensures Wf(Envelope(mac, secret, data))
  {
    var sig := Field("sig", Str(SignEntry(mac, secret, data)), Empty);
    assert WfFields(Empty);
    assert Keys(sig) == {"sig"} && WfFields(sig);
  }

  /** A registration record is unsigned, undated and unhealthy. */
  lemma RegistrationIsPlain(name: string, email: string, now: int)
    ensures var r := Registration(name, email, now);
      && WfFields(r) && DataOf(Obj(r)) == Obj(r) && SigOf(Obj(r)) == Str("")
      && CheckedAt(r) == Some(0) && Get(r, "posture") == Some(Str("unhealthy"))
      && Get(r, "signals") == Some(Obj(SignalFields(Signals(false, false, false))))
  {
    var r := Registration(name, email, now);
    RegistrationIsWf(name, email, now);
    assert Get(r, "signals") == Get(r.rest.rest.rest, "signals") == Some(Obj(SignalFields(Signals(false, false, false)))) by {
      assert Get(r.rest, "signals") == Get(r.rest.rest, "signals");
      var r4 := r.rest.rest.rest;
      assert Get(r4, "signals") == Get(r4.rest, "signals") == Get(r4.rest.rest, "signals");
    }
  }

  lemma RegistrationIsWf(name: string, email: string, now: int)
    ensures var r := Registration(name, email, now);
      && WfFields(r) && "data" !in Keys(r) && "sig" !in Keys(r) && "checked_at" !in Keys(r)
  {
    SignalFieldsAreWf(Signals(false, false, false));
    var r1 := Field("signals", Obj(SignalFields(Signals(false, false, false))), Empty);
    var r2 := Field("last_seen", Int(0), r1);
    var r3 := Field("registered_at", Int(now), r2);
    var r4 := Field("email", Str(email), r3);
    var r5 := Field("device_id", Str(name), r4);
    var r6 := Field("healthy", Bool(false), r5);
    assert WfFields(Empty);
    assert Keys(r1) == {"signals"} && WfFields(r1);
    assert Keys(r2) == {"last_seen", "signals"} && WfFields(r2);
    assert Keys(r3) == {"registered_at", "last_seen", "signals"} && WfFields(r3);
    assert Keys(r4) == {"email", "registered_at", "last_seen", "signals"} && WfFields(r4);
    assert Keys(r5) == {"device_id", "email", "registered_at", "last_seen", "signals"} && WfFields(r5);
    assert Keys(r6) == {"healthy", "device_id", "email", "registered_at", "last_seen", "signals"} && WfFields(r6);
  }

  /** What it tells of the device, its user and the time of the registration */
  lemma RegistrationSays(name: string, email: string, now: int)
    ensures var r := Registration(name, email, now);
      && Get(r, "healthy") == Some(Bool(false)) && Get(r, "device_id") == Some(Str(name))
      && Get(r, "email") == Some(Str(email)) && Get(r, "registered_at") == Some(Int(now))
      && Get(r, "last_seen") == Some(Int(0))
  {
    var r := Registration(name, email, now);
    assert Get(r, "healthy") == Get(r.rest, "healthy") == Some(Bool(false));
    var r5 := r.rest.rest;
    assert Get(r, "device_id") == Get(r.rest, "device_id") == Get(r5, "device_id") == Some(Str(name));
    assert Get(r, "email") == Get(r.rest, "email") == Get(r5, "email") == Get(r5.rest, "email") == Some(Str(email));
    assert Get(r, "registered_at") == Get(r.rest, "registered_at") == Get(r5, "registered_at");
    assert Get(r5, "registered_at") == Get(r5.rest, "registered_at") == Get(r5.rest.rest, "registered_at");
    assert Get(r, "last_seen") == Get(r.rest, "last_seen") == Get(r5, "last_seen");
    assert Get(r5, "last_seen") == Get(r5.rest, "last_seen") == Get(r5.rest.rest, "last_seen");
    assert Get(r5.rest.rest, "last_seen") == Get(r5.rest.rest.rest, "last_seen") == Some(Int(0));
  }

  // ---- what the bridge makes of a store ----

  lemma FalseValues(v: Json)
    ensures !Truthy(v) <==> v in {Null, Bool(false), Int(0), Str(""), Arr(Nil), Obj(Empty)}
  {}

  /** Without a store, or without a record of the address that counts as true, the device is unhealthy: no exception. */
  lemma UnknownDeviceIsUnhealthy(c: Config, mac: Mac, text: Option<string>, ip: string, t: real)
    ensures text.None? || Loads(text.value).None? ==>
      GetPosture(c, mac, text, ip, t) == Unhealthy("no posture data")
    ensures text.Some? && Loads(text.value).Some? && Loads(text.value).value.Obj? ==>
      var store := Loads(text.value).value.fields;
      (ip !in Keys(store) || !Truthy(Get(store, ip).value)) ==>
        GetPosture(c, mac, text, ip, t) == Unhealthy("no posture record for source")
    ensures forall why :: !IsHealthy(Unhealthy(why)) && "checked_at" !in Keys(Unhealthy(why).record)
  {
    forall why ensures !IsHealthy(Unhealthy(why)) && "checked_at" !in Keys(Unhealthy(why).record) {
      var f := Field("reason", Str(why), Empty);
      assert Keys(f) == {"reason"};
    }
  }

  /** The data of a record that the bridge goes on to read: true, and with a signature that verifies if there is a secret */
  predicate Accepted(c: Config, mac: Mac, record: Json) {
    && Truthy(record)
    && (c.secret != "" ==>
          && SigOf(record).Str? && SigOf(record).s != ""
          && Decode(SigOf(record).s) == Some(mac(c.secret, SignedText(DataOf(record)))))
  }

  /** The data has no date, or one that is a number. */
  predicate Dated(f: Fields) {
    "checked_at" in Keys(f) ==> Get(f, "checked_at").value.Int? || Get(f, "checked_at").value.Bool?
  }

  /**
   * What becomes of the record of a device: an exception exactly if it is accepted and its data is no dict or has a
   * date that is no number, its own data exactly if that is fresh, and an unhealthy record in every other case.
   */
  lemma JudgedMeans(c: Config, mac: Mac, text: string, store: Fields, ip: string, t: real)
    requires Loads(text) == Some(Obj(store)) && ip in Keys(store)
    ensures var (r, record) := (GetPosture(c, mac, Some(text), ip, t), Get(store, ip).value);
      && (r.Crash? <==> Accepted(c, mac, record) && !(DataOf(record).Obj? && Dated(DataOf(record).fields)))
      && (r.Answer? && !Accepted(c, mac, record) ==> !IsHealthy(r))
      && (r.Answer? && Accepted(c, mac, record) ==>
            var (data, late) := (DataOf(record).fields, Unhealthy("stale posture data"));
            && (forall n :: Get(data, "checked_at") == Some(Int(n)) ==>
                  r == if t <= n as real + c.maxAge as real then Answer(data) else late)
            && ("checked_at" !in Keys(data) ==> r == if t <= c.maxAge as real then Answer(data) else late))
  {
    var record := Get(store, ip).value;
    assert Verify(mac, c.secret, DataOf(record), SigOf(record)) && Truthy(record) <==> Accepted(c, mac, record);
  }

  /** Where the data and the signature are found: under their keys if they are there, or else the record is the data. */
  lemma RecordParts(f: Fields, record: Json)
    ensures "data" in Keys(f) ==> DataOf(Obj(f)) == Get(f, "data").value
    ensures "data" !in Keys(f) ==> DataOf(Obj(f)) == Obj(f)
    ensures SigOf(Obj(f)) == if "sig" in Keys(f) then Get(f, "sig").value else Str("")
    ensures !record.Obj? ==> DataOf(record) == record && SigOf(record) == Str("")
  {}
}
