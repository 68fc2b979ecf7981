/**
 * The shared posture store: a text file that agents and registration read and later overwrite, in steps that
 * may interleave in any way, and that any reader may catch in the middle of a write.
 */
module Store {
  import opened Basics
  import opened Json
  import opened JsonRoundTrip
  import opened JsonPrefix
  import opened Canonical
  import opened Base64
  import opened Posture

  /** One run of an agent, as its checks left it */
  datatype Run = Run(ip: string, signals: Signals, checkedAt: int) {
    function Entry(): Json { Obj(AgentEntry(signals, checkedAt)) }
  }

  /** One registration of a device */
  datatype Enrolment = Enrolment(ip: string, name: string, email: string, now: int) {
    function Record(): Json { Obj(Registration(name, email, now)) }
  }

  // ---- the two writers, undisturbed ----

  /** The dict that an agent starts from: `None` if it cannot be updated and the agent fails */
  function AgentStore(text: Option<string>): Option<Fields> {
    if text.None? || Loads(text.value).None? then Some(Empty)
    else
      match Loads(text.value).value
      case Obj(f) => Some(f)
      case _ => None
  }

  /** What an agent writes after it read `text`: nothing if it failed */
  function AgentWrites(mac: Mac, secret: string, run: Run, text: Option<string>): Option<string> {
    match AgentStore(text)
    case None => None
    case Some(f) => Some(Dumps(Obj(Put(f, run.ip, Envelope(mac, secret, run.Entry()))), Indented))
  }

  /** What registration writes after it read `text`: nothing unless it read a dict */
  function EnrolmentWrites(e: Enrolment, text: Option<string>): Option<string> {
    if text.None? || Loads(text.value).None? then None
    else
      match Loads(text.value).value
      case Obj(f) => Some(Dumps(Obj(Put(f, e.ip, e.Record())), Indented) + "\n")
      case _ => None
  }

  /** The file after a registration: the store is created if there is none, and left alone if it is not a dict. */
  function RegistrationLeaves(e: Enrolment, text: Option<string>): Option<string> {
    var before := if text.None? then Some("{}\n") else text;
    if EnrolmentWrites(e, before).Some? then EnrolmentWrites(e, before) else before
  }

  /** The store file as one process sees it when no other process runs */
  class StoreFile {
    var text: Option<string>

    constructor (text: Option<string>)
      ensures this.text == text
    {
      this.text := text;
    }

    /** `main` of the agent: the checks, then the update of the store. `failed` stands for an exception. */
    method RunAgent(mac: Mac, secret: string, ip: string, src: Sources, now: real) returns (failed: bool)
      modifies this
      ensures var run := Run(ip, RunChecks(src, now), now.Floor);
        && (failed <==> AgentWrites(mac, secret, run, old(text)).None?)
        && text == if failed then old(text) else AgentWrites(mac, secret, run, old(text))
    {
      var disk := CheckDisk(src.encryptedDisks);
      var patch := CheckPatch(src.lastUpgrade, now);
      var process := CheckProcesses(src.processes);
      var run := Run(ip, Signals(disk, patch, process), now.Floor);
      var store := Obj(Empty);
      if text.Some? {
        var loaded := Loads(text.value);
        if loaded.Some? { store := loaded.value; }
      }
      if !store.Obj? { return true; }
      store := Obj(Put(store.fields, ip, Envelope(mac, secret, run.Entry())));
      text := Some(Dumps(store, Indented));
      failed := false;
    }

    /** `register_posture` */
    method Register(e: Enrolment)
      modifies this
      ensures text == RegistrationLeaves(e, old(text))
    {
      if text.None? { text := Some("{}\n"); }
      var loaded := Loads(text.value);
      if loaded.Some? && loaded.value.Obj? {
        var store := Put(loaded.value.fields, e.ip, e.Record());
        text := Some(Dumps(Obj(store), Indented) + "\n");
      }
    }
  }

  /** When a writer writes nothing: an agent on a document that is no dict, registration on anything that is none. */
  lemma WritersMean(mac: Mac, secret: string, run: Run, e: Enrolment, text: Option<string>)
    ensures AgentWrites(mac, secret, run, text).None?
      <==> text.Some? && Loads(text.value).Some? && !Loads(text.value).value.Obj?
    ensures EnrolmentWrites(e, text).Some? <==> text.Some? && Loads(text.value).Some? && Loads(text.value).value.Obj?
  {}

  /** The store that an agent leaves: the dict that it read, or an empty one, with its own record put into it */
  lemma AgentLeaves(mac: Mac, secret: string, run: Run, text: Option<string>, f: Fields)
    requires WfFields(f)
    requires if text.Some? && Loads(text.value).Some? then Loads(text.value) == Some(Obj(f)) else f == Empty
    ensures var out := AgentWrites(mac, secret, run, text);
      out.Some? && Loads(out.value) == Some(Obj(Put(f, run.ip, Envelope(mac, secret, run.Entry()))))
  {
    AgentEntryIsWf(run.signals, run.checkedAt);
    EnvelopeIsWf(mac, secret, run.Entry());
    StoreReadsBack(f, run.ip, Envelope(mac, secret, run.Entry()), "");
  }

  /** The same for registration, which leaves a text alone that is no dict */
  lemma RegistrationLeavesStore(e: Enrolment, text: Option<string>, f: Fields)
    requires WfFields(f)
    ensures (if text.Some? then Loads(text.value) == Some(Obj(f)) else f == Empty) ==>
      var out := RegistrationLeaves(e, text);
      out.Some? && Loads(out.value) == Some(Obj(Put(f, e.ip, e.Record())))
    ensures text.Some? && !(Loads(text.value).Some? && Loads(text.value).value.Obj?) ==> RegistrationLeaves(e, text) == text
  {
    RegistrationIsPlain(e.name, e.email, e.now);
    StoreReadsBack(f, e.ip, e.Record(), "\n");
    EmptyTextLoads();
  }

  lemma EmptyTextLoads()
    ensures Loads("{}\n") == Some(Obj(Empty))
  {
    DictReadsBack(Empty, Plain, "\n");
    assert Dumps(Obj(Empty), Plain) == "{" + ("}" + "");
    assert Dumps(Obj(Empty), Plain) + "\n" == "{}\n";
  }

  // ---- the protocol ----

  /** Where a process is: before its read, before it opens the file to write, or with `done` characters written */
  datatype Proc = Checked(run: Run) | Enrolling(e: Enrolment) | Opening(out: string) | Writing(out: string, done: nat)

  datatype State = State(file: Option<string>, clock: real, procs: map<nat, Proc>,
                         runs: seq<Run>, enrolments: seq<Enrolment>)

  datatype Step =
    | Tick(dt: real)
    | Check(pid: nat, ip: string, src: Sources)
    | Enrol(pid: nat, ip: string, name: string, email: string)
    | Create(pid: nat)
    | ReadFile(pid: nat, seen: nat)
    | Open(pid: nat)
    | Flush(pid: nat, upTo: nat)
    | Write(pid: nat)
    | Die(pid: nat)
    | Foreign(text: string)

  /** The key of the agents, and what the store held for each address before the first step */
  datatype World = World(mac: Mac, secret: string, initial: Fields)

  /** A reader that sees the first `seen` characters of the file */
  function Seen(file: Option<string>, seen: nat): Option<string> {
    if file.Some? && seen <= |file.value| then Some(file.value[..seen]) else file
  }

  function Zeros(n: nat): string { seq(n, i => 0 as char) }

  /** The file after `chunk` was written at the writer's own position `pos`; a hole is filled with zeros. */
  function WriteAt(text: string, pos: nat, chunk: string): string {
    if |text| < pos then text + Zeros(pos - |text|) + chunk
    else if |text| <= pos + |chunk| then text[..pos] + chunk
    else text[..pos] + chunk + text[pos + |chunk|..]
  }

  function TextOf(s: State): string { if s.file.Some? then s.file.value else "" }

  function Drop(procs: map<nat, Proc>, pid: nat): map<nat, Proc> { procs - {pid} }

  /** What a process goes on to write after its read: it ends if there is nothing to write. */
  function AfterRead(w: World, s: State, pid: nat, text: Option<string>): State
    requires pid in s.procs
  {
    var p := s.procs[pid];
    var out := if p.Checked? then AgentWrites(w.mac, w.secret, p.run, text)
               else if p.Enrolling? then EnrolmentWrites(p.e, text) else None;
    s.(procs := if out.Some? then s.procs[pid := Opening(out.value)] else Drop(s.procs, pid))
  }

  /** One step; a step that is not possible changes nothing. */
  function Apply(w: World, s: State, step: Step): State {
    match step
    case Tick(dt) => if dt >= 0.0 then s.(clock := s.clock + dt) else s
    case Check(pid, ip, src) =>
      var run := Run(ip, RunChecks(src, s.clock), s.clock.Floor);
      if pid in s.procs then s else s.(procs := s.procs[pid := Checked(run)], runs := s.runs + [run])
    case Enrol(pid, ip, name, email) =>
      var e := Enrolment(ip, name, email, s.clock.Floor);
      if pid in s.procs then s else s.(procs := s.procs[pid := Enrolling(e)], enrolments := s.enrolments + [e])
    case Create(pid) =>
      if pid in s.procs || s.file.Some? then s else s.(file := Some(""), procs := s.procs[pid := Writing("{}\n", 0)])
    case ReadFile(pid, seen) =>
      if pid in s.procs && (s.procs[pid].Checked? || s.procs[pid].Enrolling?) then AfterRead(w, s, pid, Seen(s.file, seen))
      else s
    case Open(pid) =>
      if pid in s.procs && s.procs[pid].Opening? then
        s.(file := Some(""), procs := s.procs[pid := Writing(s.procs[pid].out, 0)])
      else s
    case Flush(pid, upTo) =>
      if pid in s.procs && s.procs[pid].Writing? && s.procs[pid].done <= upTo <= |s.procs[pid].out| then
        var (out, done) := (s.procs[pid].out, s.procs[pid].done);
        s.(file := Some(WriteAt(TextOf(s), done, out[done..upTo])), procs := s.procs[pid := Writing(out, upTo)])
      else s
    case Write(pid) =>
      if pid in s.procs && s.procs[pid].Writing? && s.procs[pid].done <= |s.procs[pid].out| then
        var (out, done) := (s.procs[pid].out, s.procs[pid].done);
        s.(file := Some(WriteAt(TextOf(s), done, out[done..])), procs := Drop(s.procs, pid))
      else s
    case Die(pid) => s.(procs := Drop(s.procs, pid))
    case Foreign(text) => s.(file := Some(text))
  }

  function Exec(w: World, s: State, steps: seq<Step>): State
    decreases |steps|
  {
    if steps == [] then s else Apply(w, Exec(w, s, steps[..|steps| - 1]), steps[|steps| - 1])
  }

  // ---- provenance ----

  /** A record for `ip` that some writer step produced for that address, or that was there from the start */
  ghost predicate Written(w: World, s: State, ip: string, record: Json) {
    || (exists run :: run in s.runs && run.ip == ip && record == Envelope(w.mac, w.secret, run.Entry()))
    || (exists e :: e in s.enrolments && e.ip == ip && record == e.Record())
    || Get(w.initial, ip) == Some(record)
  }

  /**
   * Who writes to the store: only agents and registrations, or foreigners too, who cannot forge signatures. They
   * leave signed entries under the address whose run signed them, or put them anywhere.
   */
  datatype Writers = Honest | InPlace | Anywhere

  /** The entry of a run that may stand under `ip` */
  ghost predicate SignedFor(s: State, who: Writers, ip: string, text: string) {
    exists run :: run in s.runs && (who.InPlace? ==> run.ip == ip) && text == SignedText(run.Entry())
  }

  /** A record for `ip` that verifies only if it holds the entry of some agent run, for `ip` if signatures stay in place */
  ghost predicate Signed(w: World, s: State, who: Writers, ip: string, record: Json) {
    Verify(w.mac, w.secret, DataOf(record), SigOf(record)) ==> SignedFor(s, who, ip, SignedText(DataOf(record)))
  }

  ghost predicate RecordOk(w: World, s: State, who: Writers, ip: string, record: Json) {
    if who.Honest? then Written(w, s, ip, record) else Signed(w, s, who, ip, record)
  }

  ghost predicate StoreOk(w: World, s: State, who: Writers, f: Fields) {
    WfFields(f) && forall ip :: ip in Keys(f) ==> RecordOk(w, s, who, ip, Get(f, ip).value)
  }

  /** What a reader may find in a part of a text: nothing it can parse, or a good store */
  ghost predicate FindOk(w: World, s: State, who: Writers, found: Option<Json>) {
    match found
    case None => true
    case Some(Obj(f)) => StoreOk(w, s, who, f)
    case Some(_) => !who.Honest?
  }

  ghost predicate TextOk(w: World, s: State, who: Writers, text: string) {
    forall n: nat :: n <= |text| ==> FindOk(w, s, who, Loads(text[..n]))
  }

  /** A text to be written starts with a whole good store. */
  ghost predicate OutOk(w: World, s: State, who: Writers, out: string) {
    match Leading(out)
    case Some(Obj(f)) => StoreOk(w, s, who, f)
    case _ => false
  }

  ghost predicate ProcOk(w: World, s: State, who: Writers, p: Proc) {
    match p
    case Checked(run) => run in s.runs
    case Enrolling(e) => e in s.enrolments
    case Opening(out) => OutOk(w, s, who, out)
    case Writing(out, done) => OutOk(w, s, who, out) && done <= |out|
  }

  ghost predicate Inv(w: World, s: State, who: Writers) {
    && (s.file.Some? ==> TextOk(w, s, who, s.file.value))
    && forall pid :: pid in s.procs ==> ProcOk(w, s, who, s.procs[pid])
  }

  /** No process runs yet, and every part of the file reads as malformed or as the initial store. */
  ghost predicate Init(w: World, s: State) {
    && s.procs == map[] && s.runs == [] && s.enrolments == []
    && (s.file.Some? ==> forall n: nat :: n <= |s.file.value| ==> Loads(s.file.value[..n]) in {None, Some(Obj(w.initial))})
  }

  /**
   * What a foreign writer can put into the store when signatures cannot be forged: every signature in it, in
   * any part of the text, is the digest of nothing but entries that agents have signed.
   */
  ghost predicate Unforged(w: World, s: State, who: Writers, text: string) {
    forall n: nat, f, ip, q ::
      n <= |text| && Loads(text[..n]) == Some(Obj(f)) && ip in Keys(f) && SigOf(Get(f, ip).value).Str?
      && Decode(SigOf(Get(f, ip).value).s) == Some(w.mac(w.secret, q))
      ==> SignedFor(s, who, ip, q)
  }

  /**
   * A step does not splice two texts: a process that writes a chunk finds in the file what it has written so far,
   * or it writes its whole text at once.
   */
  predicate Orderly(s: State, step: Step) {
    match step
    case Flush(pid, _) => pid in s.procs && s.procs[pid].Writing? ==> InStep(s, s.procs[pid])
    case Write(pid) => pid in s.procs && s.procs[pid].Writing? ==> s.procs[pid].done == 0 || InStep(s, s.procs[pid])
    case _ => true
  }

  predicate InStep(s: State, p: Proc)
    requires p.Writing?
  {
    p.done <= |p.out| && s.file == Some(p.out[..p.done])
  }

  /** The runs in question: chunks of different writers are not spliced, and foreign texts are as `who` says. */
  ghost predicate Fair(w: World, s: State, steps: seq<Step>, who: Writers) {
    forall i :: 0 <= i < |steps| ==> FairStep(w, Exec(w, s, steps[..i]), steps[i], who)
  }

  ghost predicate FairStep(w: World, s: State, step: Step, who: Writers) {
    Orderly(s, step) && (step.Foreign? ==> !who.Honest? && Unforged(w, s, who, step.text))
  }

  // ---- the invariant ----

  /** A text that starts with a good store is good in every part, whatever follows the store. */
  lemma OutIsOkText(w: World, s: State, who: Writers, out: string, tail: string)
    requires OutOk(w, s, who, out)
    ensures TextOk(w, s, who, out + tail) && TextOk(w, s, who, out)
  {
    ReadExtends(out, tail);
    ReadExtends(out, "");
    assert out + "" == out;
    forall n: nat | n <= |out + tail| ensures FindOk(w, s, who, Loads((out + tail)[..n])) {
      TornRead(out + tail, n);
    }
    forall n: nat | n <= |out| ensures FindOk(w, s, who, Loads(out[..n])) {
      TornRead(out, n);
    }
  }

  lemma PartIsOk(w: World, s: State, who: Writers, text: string, n: nat)
    requires TextOk(w, s, who, text) && n <= |text|
    ensures TextOk(w, s, who, text[..n])
  {
    forall m: nat | m <= n ensures FindOk(w, s, who, Loads(text[..n][..m])) {
      assert text[..n][..m] == text[..m];
    }
  }

  /** A dumped store starts its text. */
  lemma DumpLeads(f: Fields, tail: string)
    requires WfFields(f)
    ensures Leading(Dumps(Obj(f), Indented) + tail) == Some(Obj(f))
  {
    var text := Dumps(Obj(f), Indented);
    ReadsBack(Obj(f), Indented, 0, "");
    ReadExtends(text, tail);
    assert text[0] == '{';
  }

  /** `s2` has at least the history of `s1`. */
  ghost predicate Extends(s1: State, s2: State) {
    && (forall run :: run in s1.runs ==> run in s2.runs)
    && (forall e :: e in s1.enrolments ==> e in s2.enrolments)
  }

  lemma StoreStaysOk(w: World, s1: State, s2: State, who: Writers, f: Fields)
    requires Extends(s1, s2) && StoreOk(w, s1, who, f)
    ensures StoreOk(w, s2, who, f)
  {
    forall ip | ip in Keys(f) ensures RecordOk(w, s2, who, ip, Get(f, ip).value) {
      assert RecordOk(w, s1, who, ip, Get(f, ip).value);
    }
  }

  lemma TextStaysOk(w: World, s1: State, s2: State, who: Writers, text: string)
    requires Extends(s1, s2) && TextOk(w, s1, who, text)
    ensures TextOk(w, s2, who, text)
  {
    forall n: nat | n <= |text| ensures FindOk(w, s2, who, Loads(text[..n])) {
      var found := Loads(text[..n]);
      assert FindOk(w, s1, who, found);
      if found.Some? && found.value.Obj? { StoreStaysOk(w, s1, s2, who, found.value.fields); }
    }
  }

  lemma ProcStaysOk(w: World, s1: State, s2: State, who: Writers, p: Proc)
    requires Extends(s1, s2) && ProcOk(w, s1, who, p)
    ensures ProcOk(w, s2, who, p)
  {
    if p.Opening? || p.Writing? { StoreStaysOk(w, s1, s2, who, Leading(p.out).value.fields); }
  }

  /** A state that keeps the file, keeps or drops processes, and extends the history */
  lemma HistoryKeeps(w: World, s1: State, s2: State, who: Writers)
    requires Inv(w, s1, who) && Extends(s1, s2) && s2.file == s1.file
    requires forall pid :: pid in s2.procs ==>
      (pid in s1.procs && s2.procs[pid] == s1.procs[pid]) || ProcOk(w, s2, who, s2.procs[pid])
    ensures Inv(w, s2, who)
  {
    if s1.file.Some? { TextStaysOk(w, s1, s2, who, s1.file.value); }
    forall pid | pid in s2.procs ensures ProcOk(w, s2, who, s2.procs[pid]) {
      if pid in s1.procs && s2.procs[pid] == s1.procs[pid] { ProcStaysOk(w, s1, s2, who, s1.procs[pid]); }
    }
  }

  /** A state with a new file and no new process */
  lemma FileKeeps(w: World, s1: State, s2: State, who: Writers)
    requires Inv(w, s1, who) && Extends(s1, s2)
    requires s2.file.Some? && TextOk(w, s2, who, s2.file.value)
    requires forall pid :: pid in s2.procs ==>
      (pid in s1.procs && s2.procs[pid] == s1.procs[pid]) || ProcOk(w, s2, who, s2.procs[pid])
    ensures Inv(w, s2, who)
  {
    forall pid | pid in s2.procs ensures ProcOk(w, s2, who, s2.procs[pid]) {
      if pid in s1.procs && s2.procs[pid] == s1.procs[pid] { ProcStaysOk(w, s1, s2, who, s1.procs[pid]); }
    }
  }

  lemma EmptyTextIsOk(w: World, s: State, who: Writers)
    ensures TextOk(w, s, who, "")
  {
    assert Loads("") == None;
  }

  lemma EmptyStoreIsOk(w: World, s: State, who: Writers)
    ensures OutOk(w, s, who, "{}\n")
  {
    var text := "{}\n";
    assert text[1..] == "}\n" && "}\n"[0] == '}';
    assert Read(text) == Some((Obj(Empty), "}\n"[1..]));
  }

  /** A good store stays good when a good record is put into it, and so does its dumped text. */
  lemma PutIsOk(w: World, s: State, who: Writers, f: Fields, ip: string, record: Json, tail: string)
    requires StoreOk(w, s, who, f) && Wf(record) && RecordOk(w, s, who, ip, record)
    ensures OutOk(w, s, who, Dumps(Obj(Put(f, ip, record)), Indented) + tail)
  {
    WfPut(f, ip, record);
    DumpLeads(Put(f, ip, record), tail);
    forall k | k in Keys(Put(f, ip, record))
      ensures RecordOk(w, s, who, k, Get(Put(f, ip, record), k).value)
    {
      if k != ip { assert RecordOk(w, s, who, k, Get(f, k).value); }
    }
  }

  lemma RunRecordIsOk(w: World, s: State, who: Writers, run: Run)
    requires run in s.runs
    ensures RecordOk(w, s, who, run.ip, Envelope(w.mac, w.secret, run.Entry()))
    ensures Wf(Envelope(w.mac, w.secret, run.Entry()))
  {
    AgentEntryIsWf(run.signals, run.checkedAt);
    EnvelopeIsWf(w.mac, w.secret, run.Entry());
    assert DataOf(Envelope(w.mac, w.secret, run.Entry())) == run.Entry();
  }

  lemma EnrolmentRecordIsOk(w: World, s: State, who: Writers, e: Enrolment)
    requires e in s.enrolments && (!who.Honest? ==> w.secret != "")
    ensures RecordOk(w, s, who, e.ip, e.Record()) && Wf(e.Record())
  {
    RegistrationIsPlain(e.name, e.email, e.now);
  }

  lemma AfterReadKeeps(w: World, s: State, pid: nat, seen: nat, who: Writers)
    requires Inv(w, s, who) && (!who.Honest? ==> w.secret != "")
    requires pid in s.procs && (s.procs[pid].Checked? || s.procs[pid].Enrolling?)
    ensures Inv(w, AfterRead(w, s, pid, Seen(s.file, seen)), who)
  {
    var text, p, s2 := Seen(s.file, seen), s.procs[pid], AfterRead(w, s, pid, Seen(s.file, seen));
    assert text.Some? ==> FindOk(w, s, who, Loads(text.value)) by {
      if text.Some? { assert text.value == s.file.value[..|text.value|]; }
    }
    if pid in s2.procs {
      if p.Checked? {
        RunRecordIsOk(w, s, who, p.run);
        var out := Dumps(Obj(Put(AgentStore(text).value, p.run.ip, Envelope(w.mac, w.secret, p.run.Entry()))), Indented);
        PutIsOk(w, s, who, AgentStore(text).value, p.run.ip, Envelope(w.mac, w.secret, p.run.Entry()), "");
        assert out + "" == out;
      } else {
        EnrolmentRecordIsOk(w, s, who, p.e);
        PutIsOk(w, s, who, Loads(text.value).value.fields, p.e.ip, p.e.Record(), "\n");
      }
      ProcStaysOk(w, s, s2, who, s2.procs[pid]);
    }
    HistoryKeeps(w, s, s2, who);
  }

  /** A foreign text without forged signatures contains nothing that verifies but what agents have signed. */
  lemma ForeignTextIsOk(w: World, s: State, who: Writers, text: string)
    requires !who.Honest? && Unforged(w, s, who, text) && w.secret != ""
    ensures TextOk(w, s, who, text)
  {
    forall n: nat | n <= |text| ensures FindOk(w, s, who, Loads(text[..n])) {
      if Loads(text[..n]).Some? && Loads(text[..n]).value.Obj? {
        var f := Loads(text[..n]).value.fields;
        LoadsIsWf(text[..n]);
        forall ip | ip in Keys(f) ensures Signed(w, s, who, ip, Get(f, ip).value) {
          var record := Get(f, ip).value;
          if Verify(w.mac, w.secret, DataOf(record), SigOf(record)) {
            assert Decode(SigOf(record).s) == Some(w.mac(w.secret, SignedText(DataOf(record))));
          }
        }
      }
    }
  }

  lemma Appends(out: string, done: nat, upTo: nat)
    requires done <= upTo <= |out|
    ensures WriteAt(out[..done], done, out[done..upTo]) == out[..upTo]
  {
    assert out[..done][..done] == out[..done] && out[..done] + out[done..upTo] == out[..upTo];
  }

  lemma Overwrites(out: string, under: string)
    ensures WriteAt(under, 0, out) == out + if |under| <= |out| then "" else under[|out|..]
  {}

  lemma WrittenText(w: World, s: State, who: Writers, out: string, done: nat)
    requires OutOk(w, s, who, out) && done <= |out| && (done == 0 || s.file == Some(out[..done]))
    ensures TextOk(w, s, who, WriteAt(TextOf(s), done, out[done..]))
  {
    if done == 0 {
      var under := TextOf(s);
      OutIsOkText(w, s, who, out, if |under| <= |out| then "" else under[|out|..]);
      Overwrites(out, under);
      assert out[0..] == out;
    } else {
      OutIsOkText(w, s, who, out, "");
      Appends(out, done, |out|);
      assert out[done..|out|] == out[done..] && out[..|out|] == out;
    }
  }

  lemma FlushKeeps(w: World, s: State, pid: nat, upTo: nat, who: Writers)
    requires Inv(w, s, who) && pid in s.procs && s.procs[pid].Writing? && InStep(s, s.procs[pid])
    ensures Inv(w, Apply(w, s, Flush(pid, upTo)), who)
  {
    var s2, out, done := Apply(w, s, Flush(pid, upTo)), s.procs[pid].out, s.procs[pid].done;
    if done <= upTo <= |out| {
      Appends(out, done, upTo);
      OutIsOkText(w, s, who, out, "");
      PartIsOk(w, s, who, out, upTo);
      TextStaysOk(w, s, s2, who, out[..upTo]);
      ProcStaysOk(w, s, s2, who, s.procs[pid]);
      FileKeeps(w, s, s2, who);
    }
  }

  lemma WriteKeeps(w: World, s: State, pid: nat, who: Writers)
    requires Inv(w, s, who) && pid in s.procs && s.procs[pid].Writing?
    requires s.procs[pid].done == 0 || InStep(s, s.procs[pid])
    ensures Inv(w, Apply(w, s, Write(pid)), who)
  {
    var s2 := Apply(w, s, Write(pid));
    WrittenText(w, s, who, s.procs[pid].out, s.procs[pid].done);
    TextStaysOk(w, s, s2, who, s2.file.value);
    FileKeeps(w, s, s2, who);
  }

  /** Every step keeps the invariant, whatever the interleaving. */
  lemma ApplyKeeps(w: World, s: State, step: Step, who: Writers)
    requires Inv(w, s, who) && (!who.Honest? ==> w.secret != "")
    requires FairStep(w, s, step, who)
    ensures Inv(w, Apply(w, s, step), who) && Extends(s, Apply(w, s, step))
  {
    var s2 := Apply(w, s, step);
    match step
    case Open(pid) =>
      if pid in s.procs && s.procs[pid].Opening? {
        EmptyTextIsOk(w, s2, who);
        ProcStaysOk(w, s, s2, who, s.procs[pid]);
        FileKeeps(w, s, s2, who);
      }
    case Create(pid) =>
      if s2 != s {
        EmptyTextIsOk(w, s2, who);
        EmptyStoreIsOk(w, s2, who);
        FileKeeps(w, s, s2, who);
      }
    case ReadFile(pid, seen) =>
      if pid in s.procs && (s.procs[pid].Checked? || s.procs[pid].Enrolling?) { AfterReadKeeps(w, s, pid, seen, who); }
    case Flush(pid, upTo) => if pid in s.procs && s.procs[pid].Writing? { FlushKeeps(w, s, pid, upTo, who); }
    case Write(pid) => if pid in s.procs && s.procs[pid].Writing? { WriteKeeps(w, s, pid, who); }
    case Foreign(text) =>
      ForeignTextIsOk(w, s, who, text);
      TextStaysOk(w, s, s2, who, text);
      FileKeeps(w, s, s2, who);
    case _ => HistoryKeeps(w, s, s2, who);
  }

  /** When every text fits into one chunk, no step splices two texts, so that much need not be asked of the run. */
  lemma {:induction false} WholeTextsAreOrderly(w: World, s: State, steps: seq<Step>)
    requires s.procs == map[] && forall i :: 0 <= i < |steps| ==> !steps[i].Flush?
    ensures forall pid :: pid in Exec(w, s, steps).procs && Exec(w, s, steps).procs[pid].Writing? ==>
      Exec(w, s, steps).procs[pid].done == 0
    ensures forall i :: 0 <= i < |steps| ==> Orderly(Exec(w, s, steps[..i]), steps[i])
    decreases |steps|
  {
    if steps != [] {
      var front, last := steps[..|steps| - 1], steps[|steps| - 1];
      WholeTextsAreOrderly(w, s, front);
      forall i | 0 <= i < |steps| ensures Orderly(Exec(w, s, steps[..i]), steps[i]) {
        if i < |front| { assert steps[..i] == front[..i] && steps[i] == front[i]; }
      }
    }
  }

  /** The initial store is covered in runs with foreign writers if nothing in it verifies. */
  ghost predicate InitialOk(w: World, who: Writers) {
    !who.Honest? ==> w.secret != "" && forall ip :: ip in Keys(w.initial) ==>
      !Verify(w.mac, w.secret, DataOf(Get(w.initial, ip).value), SigOf(Get(w.initial, ip).value))
  }

  /**
   * Store integrity under races. In every run that splices no chunks, with lost updates, resurrected records, torn
   * reads and crashes, every part of the file that reads as a document is a store all of whose records were produced
   * by a writer step for that same address or were there from the start; with foreign writers that cannot forge
   * signatures, every record that verifies holds the entry of some agent run, for its address if signatures stay
   * in place.
   */
  lemma {:induction false} StoreIntegrity(w: World, s: State, steps: seq<Step>, who: Writers)
    requires Init(w, s) && InitialOk(w, who) && Fair(w, s, steps, who)
    ensures Inv(w, Exec(w, s, steps), who)
    decreases |steps|
  {
    if steps == [] {
      if s.file.Some? {
        forall n: nat | n <= |s.file.value| ensures FindOk(w, s, who, Loads(s.file.value[..n])) {
          if Loads(s.file.value[..n]).Some? { LoadsIsWf(s.file.value[..n]); }
        }
      }
    } else {
      var front, last := steps[..|steps| - 1], steps[|steps| - 1];
      assert forall i :: 0 <= i < |front| ==> steps[..i] == front[..i] && steps[i] == front[i];
      StoreIntegrity(w, s, front, who);
      ApplyKeeps(w, Exec(w, s, front), last, who);
    }
  }

  /** All three signals of a record are recorded as true. */
  predicate SignalsTrue(data: Fields) {
    match Get(data, "signals")
    case Some(Obj(f)) =>
      && Get(f, "disk_encrypted") == Some(Bool(true))
      && Get(f, "patch_within_window") == Some(Bool(true))
      && Get(f, "no_blocklisted_process") == Some(Bool(true))
    case _ => false
  }

  lemma WrittenIsConsistent(w: World, s: State, ip: string, record: Json)
    requires Written(w, s, ip, record) && Get(w.initial, ip) != Some(record)
    ensures DataOf(record).Obj?
    ensures Get(DataOf(record).fields, "posture") == Some(Str("healthy")) <==> SignalsTrue(DataOf(record).fields)
  {
    assert "unhealthy"[0] == 'u' && "healthy"[0] == 'h';
    if run :| run in s.runs && run.ip == ip && record == Envelope(w.mac, w.secret, run.Entry()) {
      assert DataOf(record) == run.Entry();
      AgentEntrySays(run.signals, run.checkedAt);
    } else if e :| e in s.enrolments && e.ip == ip && record == e.Record() {
      RegistrationIsPlain(e.name, e.email, e.now);
      AgentEntrySays(Signals(false, false, false), 0);
    }
  }

  /**
   * Whatever a reader can find in the store of honest writers, at any moment: a record that was not there from
   * the start is healthy exactly when all three of its signals are true.
   */
  lemma RecordsAreConsistent(w: World, s: State, steps: seq<Step>, seen: nat, ip: string)
    requires Init(w, s) && Fair(w, s, steps, Honest)
    requires var text := Seen(Exec(w, s, steps).file, seen);
      text.Some? && Loads(text.value).Some? && Loads(text.value).value.Obj?
    requires var f := Loads(Seen(Exec(w, s, steps).file, seen).value).value.fields;
      ip in Keys(f) && Get(w.initial, ip) != Get(f, ip)
    ensures var data := DataOf(Get(Loads(Seen(Exec(w, s, steps).file, seen).value).value.fields, ip).value);
      data.Obj? && (Get(data.fields, "posture") == Some(Str("healthy")) <==> SignalsTrue(data.fields))
  {
    var s2, text := Exec(w, s, steps), Seen(Exec(w, s, steps).file, seen);
    StoreIntegrity(w, s, steps, Honest);
    assert text.value == s2.file.value[..|text.value|];
    assert FindOk(w, s2, Honest, Loads(text.value));
    var record := Get(Loads(text.value).value.fields, ip).value;
    assert RecordOk(w, s2, Honest, ip, record);
    WrittenIsConsistent(w, s2, ip, record);
  }
}
