/**
 * The steps of the store's writers, alone and against one another: what an undisturbed writer leaves, which updates
 * survive a race, and what goes wrong when chunks of two writers are spliced.
 */
module Schedules {
  import opened Basics
  import opened Json
  import opened JsonPrefix
  import opened Canonical
  import opened Posture
  import opened Store

  // ---- what single steps do ----

  /** A chunk lands at its position; what it does not cover stays, and a hole before it is filled with zeros. */
  lemma ChunkLands(text: string, pos: nat, chunk: string)
    ensures var r := WriteAt(text, pos, chunk);
      && |r| == (if |text| < pos + |chunk| then pos + |chunk| else |text|)
      && forall i :: 0 <= i < |r| ==>
           r[i] == if pos <= i < pos + |chunk| then chunk[i - pos] else if i < |text| then text[i] else 0 as char
  {}

  function Ticks(steps: seq<Step>): real {
    if steps == [] then 0.0
    else
      var last := steps[|steps| - 1];
      Ticks(steps[..|steps| - 1]) + if last.Tick? && last.dt >= 0.0 then last.dt else 0.0
  }

  /** Only ticks move the clock, and only forwards. */
  lemma {:induction false} TimePasses(w: World, s: State, steps: seq<Step>)
    ensures Exec(w, s, steps).clock == s.clock + Ticks(steps) && Ticks(steps) >= 0.0
  {
    if steps != [] { TimePasses(w, s, steps[..|steps| - 1]); }
  }

  predicate IsWriting(step: Step, pid: nat) {
    match step
    case ReadFile(p, _) => p == pid
    case Open(p) => p == pid
    case Flush(p, _) => p == pid
    case Write(p) => p == pid
    case _ => false
  }

  /** A process that dies leaves the file as it is at that moment, and goes on with nothing. */
  lemma {:induction false} DeadProcessIsIdle(w: World, s: State, pid: nat, steps: seq<Step>)
    requires forall i :: 0 <= i < |steps| ==> IsWriting(steps[i], pid)
    ensures Exec(w, Apply(w, s, Die(pid)), steps) == s.(procs := s.procs - {pid})
  {
    if steps != [] {
      DeadProcessIsIdle(w, s, pid, steps[..|steps| - 1]);
      assert IsWriting(steps[|steps| - 1], pid);
    }
  }

  // ---- what a write changes ----

  /** On a store that can be read, a run of an agent does not change what the bridge makes of other addresses. */
  lemma RunLeavesOthers(w: World, c: Config, run: Run, text: string, other: string, t: real)
    requires Loads(text).Some? && Loads(text).value.Obj? && other != run.ip
    ensures AgentWrites(w.mac, w.secret, run, Some(text)).Some?
    ensures GetPosture(c, w.mac, AgentWrites(w.mac, w.secret, run, Some(text)), other, t)
      == GetPosture(c, w.mac, Some(text), other, t)
  {
    LoadsIsWf(text);
    AgentEntryIsWf(run.signals, run.checkedAt);
    EnvelopeIsWf(w.mac, w.secret, run.Entry());
    StoreReadsBack(Loads(text).value.fields, run.ip, Envelope(w.mac, w.secret, run.Entry()), "");
  }

  /** Nor does a registration. */
  lemma RegistrationLeavesOthers(w: World, c: Config, e: Enrolment, text: string, other: string, t: real)
    requires Loads(text).Some? && Loads(text).value.Obj? && other != e.ip
    ensures EnrolmentWrites(e, Some(text)).Some?
    ensures GetPosture(c, w.mac, EnrolmentWrites(e, Some(text)), other, t) == GetPosture(c, w.mac, Some(text), other, t)
  {
    LoadsIsWf(text);
    RegistrationIsPlain(e.name, e.email, e.now);
    StoreReadsBack(Loads(text).value.fields, e.ip, e.Record(), "\n");
  }

  /** What the bridge makes of a store right after a run of an agent that shares its secret */
  lemma RunIsSeen(w: World, c: Config, run: Run, text: Option<string>, t: real)
    requires AgentWrites(w.mac, w.secret, run, text).Some? && c.secret == w.secret
    requires w.secret != "" ==> w.mac(w.secret, SignedText(run.Entry())) != []
    ensures GetPosture(c, w.mac, AgentWrites(w.mac, w.secret, run, text), run.ip, t) ==
      if t - run.checkedAt as real <= c.maxAge as real then Answer(AgentEntry(run.signals, run.checkedAt))
      else Unhealthy("stale posture data")
  {
    if text.Some? && Loads(text.value).Some? { LoadsIsWf(text.value); }
    assert WfFields(Empty);
    AgentToBridge(c, w.mac, AgentStore(text).value, run.ip, run.signals, run.checkedAt, t);
  }

  /**
   * Everybody who reads a part of a dumped store finds it malformed: the bridge fails closed, an agent starts from
   * an empty store, and registration writes nothing.
   */
  lemma TornReadFailsClosed(c: Config, mac: Mac, store: Fields, l: Layout, n: nat, ip: string, t: real, e: Enrolment)
    requires WfFields(store) && n < |Dumps(Obj(store), l)|
    ensures var part := Some(Dumps(Obj(store), l)[..n]);
      && GetPosture(c, mac, part, ip, t) == Unhealthy("no posture data")
      && AgentStore(part) == Some(Empty)
      && EnrolmentWrites(e, part) == None
  {
    ProperPrefixIsMalformed(store, l, n);
  }

  // ---- the steps of one writer, undisturbed ----

  /** One agent that runs undisturbed leaves the file as its `main` does. */
  lemma UndisturbedRun(w: World, s: State, pid: nat, ip: string, src: Sources, seen: nat)
    requires pid !in s.procs && |TextOf(s)| <= seen
    ensures var run := Run(ip, RunChecks(src, s.clock), s.clock.Floor);
      var s2 := Exec(w, s, [Check(pid, ip, src), ReadFile(pid, seen), Open(pid), Write(pid)]);
      && s2.procs == s.procs
      && s2.file == if AgentWrites(w.mac, w.secret, run, s.file).Some? then AgentWrites(w.mac, w.secret, run, s.file) else s.file
  {
    var a, b, c, d := Check(pid, ip, src), ReadFile(pid, seen), Open(pid), Write(pid);
    ExecFour(w, s, a, b, c, d);
    var run := Run(ip, RunChecks(src, s.clock), s.clock.Floor);
    SeesAll(s.file, seen);
    FourSteps(w, s, pid, ip, src, seen, run, AgentWrites(w.mac, w.secret, run, s.file));
  }

  lemma SeesAll(file: Option<string>, seen: nat)
    requires file.Some? ==> |file.value| <= seen
    ensures Seen(file, seen) == file
  {
    if file.Some? { assert file.value[..|file.value|] == file.value; }
  }

  /** The steps of a registration, which creates a missing store first */
  function EnrolSteps(missing: bool, pid: nat, ip: string, name: string, email: string, seen: nat): seq<Step> {
    (if missing then [Create(pid), Write(pid)] else [])
      + [Enrol(pid, ip, name, email), ReadFile(pid, seen), Open(pid), Write(pid)]
  }

  /** A registration that runs undisturbed leaves the file as `register_posture` does. */
  lemma UndisturbedEnrolment(w: World, s: State, pid: nat, ip: string, name: string, email: string, seen: nat)
    requires pid !in s.procs && |TextOf(s)| <= seen && (s.file.None? ==> 3 <= seen)
    ensures var e := Enrolment(ip, name, email, s.clock.Floor);
      var s2 := Exec(w, s, EnrolSteps(s.file.None?, pid, ip, name, email, seen));
      s2.procs == s.procs && s2.file == RegistrationLeaves(e, s.file)
  {
    var last := [Enrol(pid, ip, name, email), ReadFile(pid, seen), Open(pid), Write(pid)];
    if s.file.None? {
      var created := [Create(pid), Write(pid)];
      ExecConcat(w, s, created, last);
      CreateLeavesEmpty(w, s, pid);
      EnrolInto(w, Exec(w, s, created), pid, ip, name, email, seen);
    } else {
      assert [] + last == last;
      EnrolInto(w, s, pid, ip, name, email, seen);
    }
  }

  lemma CreateLeavesEmpty(w: World, s: State, pid: nat)
    requires pid !in s.procs && s.file.None?
    ensures Exec(w, s, [Create(pid), Write(pid)]) == s.(file := Some("{}\n"))
  {
    ExecOne(w, s, [], Create(pid));
    ExecOne(w, s, [Create(pid)], Write(pid));
    assert [] + [Create(pid)] == [Create(pid)] && [Create(pid)] + [Write(pid)] == [Create(pid), Write(pid)];
    var s1 := Apply(w, s, Create(pid));
    Overwrites("{}\n", "");
    assert "{}\n"[0..] == "{}\n" && "{}\n" + "" == "{}\n";
    assert Drop(s1.procs, pid) == s.procs;
  }

  lemma EnrolInto(w: World, s: State, pid: nat, ip: string, name: string, email: string, seen: nat)
    requires pid !in s.procs && s.file.Some? && |s.file.value| <= seen
    ensures var e := Enrolment(ip, name, email, s.clock.Floor);
      var s2 := Exec(w, s, [Enrol(pid, ip, name, email), ReadFile(pid, seen), Open(pid), Write(pid)]);
      s2.procs == s.procs && s2.file == RegistrationLeaves(e, s.file)
  {
    ExecFour(w, s, Enrol(pid, ip, name, email), ReadFile(pid, seen), Open(pid), Write(pid));
    var e := Enrolment(ip, name, email, s.clock.Floor);
    SeesAll(s.file, seen);
    var s1 := Apply(w, s, Enrol(pid, ip, name, email));
    assert s1.procs == s.procs[pid := Enrolling(e)] && s1.file == s.file;
    ReadThenWrite(w, s1, s.procs, pid, seen, EnrolmentWrites(e, s.file));
  }

  /** The last three steps of either writer */
  lemma ReadThenWrite(w: World, s: State, procs: map<nat, Proc>, pid: nat, seen: nat, out: Option<string>)
    requires pid !in procs && s.procs.Keys == procs.Keys + {pid} && forall q :: q in procs ==> s.procs[q] == procs[q]
    requires Seen(s.file, seen) == s.file
    requires match s.procs[pid]
             case Checked(run) => out == AgentWrites(w.mac, w.secret, run, s.file)
             case Enrolling(e) => out == EnrolmentWrites(e, s.file)
             case _ => false
    ensures var s2 := Apply(w, Apply(w, Apply(w, s, ReadFile(pid, seen)), Open(pid)), Write(pid));
      s2.procs == procs && s2.file == if out.Some? then out else s.file
  {
    var s2 := Apply(w, s, ReadFile(pid, seen));
    if out.None? {
      assert s2.procs == procs;
    } else {
      assert s2.procs[pid] == Opening(out.value);
      OpenAndWrite(w, s2, pid, out.value);
      assert Drop(s2.procs, pid) == procs;
    }
  }

  /** Two agents that both read before either writes */
  function Race(p: nat, ip1: string, src1: Sources, q: nat, ip2: string, src2: Sources, seen: nat): seq<Step> {
    [Check(p, ip1, src1), Check(q, ip2, src2), ReadFile(p, seen), ReadFile(q, seen)]
      + [Open(p), Write(p), Open(q), Write(q)]
  }

  /**
   * Updates can be lost: when two agents race, the file ends as the second one leaves it, and for the first one's
   * address the bridge answers as if its run had never been.
   */
  lemma UpdatesCanBeLost(w: World, s: State, p: nat, ip1: string, src1: Sources, q: nat, ip2: string, src2: Sources,
                         seen: nat, c: Config, t: real)
    requires p != q && p !in s.procs && q !in s.procs && ip1 != ip2
    requires s.file.Some? && |s.file.value| <= seen && Loads(s.file.value).Some? && Loads(s.file.value).value.Obj?
    ensures var s2 := Exec(w, s, Race(p, ip1, src1, q, ip2, src2, seen));
      && s2.file == AgentWrites(w.mac, w.secret, Run(ip2, RunChecks(src2, s.clock), s.clock.Floor), s.file)
      && GetPosture(c, w.mac, s2.file, ip1, t) == GetPosture(c, w.mac, s.file, ip1, t)
  {
    var run1 := Run(ip1, RunChecks(src1, s.clock), s.clock.Floor);
    var run2 := Run(ip2, RunChecks(src2, s.clock), s.clock.Floor);
    SeesAll(s.file, seen);
    var first := [Check(p, ip1, src1), Check(q, ip2, src2), ReadFile(p, seen), ReadFile(q, seen)];
    var writes := [Open(p), Write(p), Open(q), Write(q)];
    ExecConcat(w, s, first, writes);
    ExecFour(w, s, Check(p, ip1, src1), Check(q, ip2, src2), ReadFile(p, seen), ReadFile(q, seen));
    var s1 := Exec(w, s, first);
    BothRead(w, s, p, run1, src1, q, run2, src2, seen);
    ExecFour(w, s1, Open(p), Write(p), Open(q), Write(q));
    BothWrite(w, s1, p, AgentWrites(w.mac, w.secret, run1, s.file).value,
              q, AgentWrites(w.mac, w.secret, run2, s.file).value);
    RunLeavesOthers(w, c, run2, s.file.value, ip1, t);
  }

  lemma BothWrite(w: World, s: State, p: nat, out1: string, q: nat, out2: string)
    requires p != q && p in s.procs && q in s.procs && s.procs[p] == Opening(out1) && s.procs[q] == Opening(out2)
    ensures Apply(w, Apply(w, Apply(w, Apply(w, s, Open(p)), Write(p)), Open(q)), Write(q)).file == Some(out2)
  {
    OpenAndWrite(w, s, p, out1);
    OpenAndWrite(w, Apply(w, Apply(w, s, Open(p)), Write(p)), q, out2);
  }

  lemma BothRead(w: World, s: State, p: nat, run1: Run, src1: Sources, q: nat, run2: Run, src2: Sources, seen: nat)
    requires p != q && p !in s.procs && q !in s.procs && Seen(s.file, seen) == s.file && AgentStore(s.file).Some?
    requires run1 == Run(run1.ip, RunChecks(src1, s.clock), s.clock.Floor)
    requires run2 == Run(run2.ip, RunChecks(src2, s.clock), s.clock.Floor)
    ensures var s1 := Apply(w, Apply(w, Apply(w, Apply(w, s, Check(p, run1.ip, src1)), Check(q, run2.ip, src2)),
                            ReadFile(p, seen)), ReadFile(q, seen));
      var (out1, out2) := (AgentWrites(w.mac, w.secret, run1, s.file), AgentWrites(w.mac, w.secret, run2, s.file));
      && out1.Some? && out2.Some? && p in s1.procs && q in s1.procs
      && s1.procs[p] == Opening(out1.value) && s1.procs[q] == Opening(out2.value) && s1.runs == s.runs + [run1, run2]
  {
    var a := Apply(w, s, Check(p, run1.ip, src1));
    var b := Apply(w, a, Check(q, run2.ip, src2));
    assert b.procs[p] == Checked(run1) && b.procs[q] == Checked(run2) && b.file == s.file;
    var d := Apply(w, b, ReadFile(p, seen));
    assert d.procs[q] == Checked(run2) && d.file == s.file;
  }

  lemma {:induction false} ExecConcat(w: World, s: State, a: seq<Step>, b: seq<Step>)
    ensures Exec(w, s, a + b) == Exec(w, Exec(w, s, a), b)
    decreases |b|
  {
    if b == [] {
      assert a + b == a;
    } else {
      ExecConcat(w, s, a, b[..|b| - 1]);
      assert (a + b)[..|a + b| - 1] == a + b[..|b| - 1];
    }
  }

  lemma FourSteps(w: World, s: State, pid: nat, ip: string, src: Sources, seen: nat, run: Run, out: Option<string>)
    requires pid !in s.procs && Seen(s.file, seen) == s.file
    requires run == Run(ip, RunChecks(src, s.clock), s.clock.Floor) && out == AgentWrites(w.mac, w.secret, run, s.file)
    ensures var s2 := Apply(w, Apply(w, Apply(w, Apply(w, s, Check(pid, ip, src)), ReadFile(pid, seen)), Open(pid)), Write(pid));
      s2.procs == s.procs && s2.file == if out.Some? then out else s.file
  {
    var s1 := Apply(w, s, Check(pid, ip, src));
    assert s1.procs == s.procs[pid := Checked(run)] && s1.file == s.file;
    ReadThenWrite(w, s1, s.procs, pid, seen, out);
  }

  lemma OpenAndWrite(w: World, s: State, pid: nat, out: string)
    requires pid in s.procs && s.procs[pid] == Opening(out)
    ensures Apply(w, Apply(w, s, Open(pid)), Write(pid)) == s.(file := Some(out), procs := Drop(s.procs, pid))
  {
    var s1 := Apply(w, s, Open(pid));
    assert s1.procs[pid] == Writing(out, 0) && s1.file == Some("");
    Overwrites(out, "");
    assert out[0..] == out && out + "" == out;
    assert Drop(s1.procs, pid) == Drop(s.procs, pid);
  }

  lemma ExecOne(w: World, s: State, steps: seq<Step>, step: Step)
    ensures Exec(w, s, steps + [step]) == Apply(w, Exec(w, s, steps), step)
  {
    assert (steps + [step])[..|steps|] == steps;
  }

  lemma ExecFour(w: World, s: State, a: Step, b: Step, c: Step, d: Step)
    ensures Exec(w, s, [a, b, c, d]) == Apply(w, Apply(w, Apply(w, Apply(w, s, a), b), c), d)
  {
    ExecOne(w, s, [], a);
    ExecOne(w, s, [a], b);
    ExecOne(w, s, [a, b], c);
    ExecOne(w, s, [a, b, c], d);
    assert [] + [a] == [a] && [a] + [b] == [a, b] && [a, b] + [c] == [a, b, c] && [a, b, c] + [d] == [a, b, c, d];
  }

  // ---- which updates survive a race ----

  /** A writer, the first or the second one, reads the store or replaces it. */
  datatype Move = Move(first: bool, looks: bool)

  /** An order of two writers' moves: each reads before it writes. */
  predicate IsSchedule(moves: seq<Move>) {
    && |moves| == 4
    && (forall i, j :: 0 <= i < j < 4 ==> moves[i] != moves[j])
    && forall i, j :: 0 <= i < j < 4 && moves[i].first == moves[j].first ==> moves[i].looks && !moves[j].looks
  }

  /** A writer's update survives if it writes last, or if the other one reads what it wrote. */
  predicate Survives(moves: seq<Move>, first: bool)
    requires |moves| == 4
  {
    || moves[3] == Move(first, false)
    || exists i, j :: 0 <= i < j < 4 && moves[i] == Move(first, false) && moves[j] == Move(!first, true)
  }

  function MoveSteps(s: State, pid: nat, looks: bool): seq<Step> {
    if looks then [ReadFile(pid, |TextOf(s)|)] else [Open(pid), Write(pid)]
  }

  /** The steps of an order of moves of the writers `p` and `q`; a read sees the whole file. */
  function Schedule(w: World, s: State, p: nat, q: nat, moves: seq<Move>): seq<Step>
    decreases |moves|
  {
    if moves == [] then []
    else
      var front := Schedule(w, s, p, q, moves[..|moves| - 1]);
      var last := moves[|moves| - 1];
      front + MoveSteps(Exec(w, s, front), if last.first then p else q, last.looks)
  }

  /** What a writer holds: nothing yet, the store it is about to write, or nothing more */
  datatype Hand = Waiting | Holding(f: Fields) | Finished

  datatype Memo = Memo(store: Fields, one: Hand, two: Hand)

  function Take(m: Memo, move: Move, run1: (string, Json), run2: (string, Json)): Memo {
    var run := if move.first then run1 else run2;
    var hand := if move.first then m.one else m.two;
    var next := if move.looks then Holding(Put(m.store, run.0, run.1)) else Finished;
    var store := if !move.looks && hand.Holding? then hand.f else m.store;
    if move.first then Memo(store, next, m.two) else Memo(store, m.one, next)
  }

  function TakeAll(m: Memo, moves: seq<Move>, run1: (string, Json), run2: (string, Json)): Memo {
    if moves == [] then m else Take(TakeAll(m, moves[..|moves| - 1], run1, run2), moves[|moves| - 1], run1, run2)
  }

  ghost predicate HandOk(s: State, pid: nat, run: Run, h: Hand) {
    match h
    case Waiting => pid in s.procs && s.procs[pid] == Checked(run)
    case Holding(f) => WfFields(f) && pid in s.procs && s.procs[pid] == Opening(Dumps(Obj(f), Indented))
    case Finished => true
  }

  ghost predicate MemoOk(s: State, m: Memo, p: nat, run1: Run, q: nat, run2: Run) {
    && s.file.Some? && Loads(s.file.value) == Some(Obj(m.store)) && WfFields(m.store)
    && HandOk(s, p, run1, m.one) && HandOk(s, q, run2, m.two)
  }

  function Posted(w: World, run: Run): (string, Json) { (run.ip, Envelope(w.mac, w.secret, run.Entry())) }

  lemma ReadHolds(w: World, s: State, pid: nat, run: Run, f: Fields)
    requires pid in s.procs && s.procs[pid] == Checked(run)
    requires s.file.Some? && Loads(s.file.value) == Some(Obj(f)) && WfFields(f)
    ensures var g := Put(f, run.ip, Envelope(w.mac, w.secret, run.Entry()));
      WfFields(g) && Exec(w, s, MoveSteps(s, pid, true)) == s.(procs := s.procs[pid := Opening(Dumps(Obj(g), Indented))])
  {
    PostedIsWf(w, run, f);
    SeesAll(s.file, |TextOf(s)|);
    var step := ReadFile(pid, |TextOf(s)|);
    ExecOne(w, s, [], step);
    assert [] + [step] == [step];
  }

  lemma PostedIsWf(w: World, run: Run, f: Fields)
    requires WfFields(f)
    ensures WfFields(Put(f, run.ip, Envelope(w.mac, w.secret, run.Entry())))
  {
    AgentEntryIsWf(run.signals, run.checkedAt);
    EnvelopeIsWf(w.mac, w.secret, run.Entry());
    WfPut(f, run.ip, Envelope(w.mac, w.secret, run.Entry()));
  }

  lemma WriteReplaces(w: World, s: State, pid: nat, f: Fields)
    requires WfFields(f) && pid in s.procs && s.procs[pid] == Opening(Dumps(Obj(f), Indented))
    ensures var s2 := Exec(w, s, MoveSteps(s, pid, false));
      && s2 == s.(file := Some(Dumps(Obj(f), Indented)), procs := Drop(s.procs, pid))
      && Loads(s2.file.value) == Some(Obj(f))
  {
    var text := Dumps(Obj(f), Indented);
    OpenAndWrite(w, s, pid, text);
    ExecOne(w, s, [], Open(pid));
    ExecOne(w, s, [Open(pid)], Write(pid));
    assert [] + [Open(pid)] == [Open(pid)] && [Open(pid)] + [Write(pid)] == [Open(pid), Write(pid)];
    DictReadsBack(f, Indented, "");
    assert text + "" == text;
  }

  lemma MoveKeeps(w: World, s: State, m: Memo, p: nat, run1: Run, q: nat, run2: Run, move: Move)
    requires MemoOk(s, m, p, run1, q, run2) && p != q
    requires var hand := if move.first then m.one else m.two; if move.looks then hand.Waiting? else hand.Holding?
    ensures MemoOk(Exec(w, s, MoveSteps(s, if move.first then p else q, move.looks)),
                   Take(m, move, Posted(w, run1), Posted(w, run2)), p, run1, q, run2)
  {
    var pid, run := if move.first then p else q, if move.first then run1 else run2;
    if move.looks {
      ReadHolds(w, s, pid, run, m.store);
    } else {
      WriteReplaces(w, s, pid, (if move.first then m.one else m.two).f);
    }
  }

  /** What the two hands are before the last of some moves of a schedule */
  lemma {:induction false} ScheduleIsPlayed(w: World, s: State, f: Fields, p: nat, run1: Run, q: nat, run2: Run,
                                            moves: seq<Move>, n: nat)
    requires IsSchedule(moves) && n <= 4 && p != q && MemoOk(s, Memo(f, Waiting, Waiting), p, run1, q, run2)
    ensures MemoOk(Exec(w, s, Schedule(w, s, p, q, moves[..n])),
                   TakeAll(Memo(f, Waiting, Waiting), moves[..n], Posted(w, run1), Posted(w, run2)), p, run1, q, run2)
  {
    if n > 0 {
      var front := moves[..n - 1];
      assert moves[..n][..n - 1] == front && moves[..n][n - 1] == moves[n - 1];
      ScheduleIsPlayed(w, s, f, p, run1, q, run2, moves, n - 1);
      var before, done := Exec(w, s, Schedule(w, s, p, q, front)), Schedule(w, s, p, q, front);
      var move := moves[n - 1];
      var pid := if move.first then p else q;
      HandsFollow(Memo(f, Waiting, Waiting), moves, n - 1, Posted(w, run1), Posted(w, run2));
      var memo := TakeAll(Memo(f, Waiting, Waiting), front, Posted(w, run1), Posted(w, run2));
      MoveKeeps(w, before, memo, p, run1, q, run2, move);
      ExecConcat(w, s, done, MoveSteps(before, pid, move.looks));
    }
  }

  /** A hand is what the moves so far made it. */
  lemma {:induction false} HandsFollow(m: Memo, moves: seq<Move>, n: nat, run1: (string, Json), run2: (string, Json))
    requires IsSchedule(moves) && n < 4 && m.one == m.two == Waiting
    ensures var after := TakeAll(m, moves[..n], run1, run2);
      && (after.one.Waiting? <==> Move(true, true) !in moves[..n])
      && (after.two.Waiting? <==> Move(false, true) !in moves[..n])
      && (after.one.Finished? <==> Move(true, false) in moves[..n])
      && (after.two.Finished? <==> Move(false, false) in moves[..n])
    ensures var (after, move) := (TakeAll(m, moves[..n], run1, run2), moves[n]);
      var hand := if move.first then after.one else after.two; if move.looks then hand.Waiting? else hand.Holding?
  {
    if n > 0 {
      HandsFollow(m, moves, n - 1, run1, run2);
      assert moves[..n][..n - 1] == moves[..n - 1] && moves[..n] == moves[..n - 1] + [moves[n - 1]];
    }
    MoveIsDue(moves, n);
  }

  lemma MoveIsDue(moves: seq<Move>, n: nat)
    requires IsSchedule(moves) && n < 4
    ensures moves[n] !in moves[..n]
    ensures !moves[n].looks ==> Move(moves[n].first, true) in moves[..n]
    ensures moves[n].looks ==> Move(moves[n].first, false) !in moves[..n]
  {
    if !moves[n].looks {
      EveryMove(moves, Move(moves[n].first, true));
      var i :| 0 <= i < |moves| && moves[i] == Move(moves[n].first, true);
      assert i < n && moves[..n][i] == moves[i];
    }
  }

  /** Four different moves are all there are. */
  lemma EveryMove(moves: seq<Move>, move: Move)
    requires IsSchedule(moves)
    ensures move in moves
  {
    FourMoves(moves[0], moves[1], moves[2], moves[3], move);
  }

  lemma FourMoves(a: Move, b: Move, c: Move, d: Move, move: Move)
    requires a != b && a != c && a != d && b != c && b != d && c != d
    ensures move == a || move == b || move == c || move == d
  {
    assert a == Move(a.first, a.looks) && b == Move(b.first, b.looks) && c == Move(c.first, c.looks);
    assert d == Move(d.first, d.looks) && move == Move(move.first, move.looks);
  }

  /** The store at the end of a schedule has exactly the updates that survive. */
  lemma SurvivorsAreStored(f: Fields, moves: seq<Move>, run1: (string, Json), run2: (string, Json), key: string)
    requires IsSchedule(moves) && run1.0 != run2.0
    ensures Get(TakeAll(Memo(f, Waiting, Waiting), moves, run1, run2).store, key) ==
      if key == run1.0 && Survives(moves, true) then Some(run1.1)
      else if key == run2.0 && Survives(moves, false) then Some(run2.1)
      else Get(f, key)
  {
    var m := Memo(f, Waiting, Waiting);
    TakeNext(m, moves, 0, run1, run2);
    TakeNext(m, moves, 1, run1, run2);
    TakeNext(m, moves, 2, run1, run2);
    TakeNext(m, moves, 3, run1, run2);
    assert moves[..0] == [] && moves[..4] == moves;
    FourTakesLeave(m, moves, TakeAll(m, moves[..1], run1, run2), TakeAll(m, moves[..2], run1, run2),
                   TakeAll(m, moves[..3], run1, run2), TakeAll(m, moves, run1, run2), run1, run2, key);
  }

  lemma TakeNext(m: Memo, moves: seq<Move>, k: nat, run1: (string, Json), run2: (string, Json))
    requires k < |moves|
    ensures TakeAll(m, moves[..k + 1], run1, run2) == Take(TakeAll(m, moves[..k], run1, run2), moves[k], run1, run2)
  {
    assert moves[..k + 1][..k] == moves[..k];
  }

  lemma FourTakesLeave(m: Memo, moves: seq<Move>, m1: Memo, m2: Memo, m3: Memo, m4: Memo,
                       run1: (string, Json), run2: (string, Json), key: string)
    requires IsSchedule(moves) && run1.0 != run2.0 && m.one == m.two == Waiting
    requires m1 == Take(m, moves[0], run1, run2) && m2 == Take(m1, moves[1], run1, run2)
    requires m3 == Take(m2, moves[2], run1, run2) && m4 == Take(m3, moves[3], run1, run2)
    ensures Get(m4.store, key) ==
      if key == run1.0 && Survives(moves, true) then Some(run1.1)
      else if key == run2.0 && Survives(moves, false) then Some(run2.1)
      else Get(m.store, key)
  {}

  /**
   * When an update survives: in every order in which two agents read and replace a readable store, an agent's entry
   * is there at the end exactly if it writes last or the other one reads after its write; all else is as it was.
   */
  lemma UpdatesSurvive(w: World, s: State, f: Fields, p: nat, run1: Run, q: nat, run2: Run, moves: seq<Move>, key: string)
    requires p != q && run1.ip != run2.ip && p in s.procs && q in s.procs
    requires s.procs[p] == Checked(run1) && s.procs[q] == Checked(run2)
    requires s.file.Some? && Loads(s.file.value) == Some(Obj(f)) && IsSchedule(moves)
    ensures var s2 := Exec(w, s, Schedule(w, s, p, q, moves));
      && s2.file.Some? && Loads(s2.file.value).Some? && Loads(s2.file.value).value.Obj?
      && Get(Loads(s2.file.value).value.fields, key) ==
           if key == run1.ip && Survives(moves, true) then Some(Envelope(w.mac, w.secret, run1.Entry()))
           else if key == run2.ip && Survives(moves, false) then Some(Envelope(w.mac, w.secret, run2.Entry()))
           else Get(f, key)
  {
    LoadsIsWf(s.file.value);
    ScheduleIsPlayed(w, s, f, p, run1, q, run2, moves, 4);
    assert moves[..4] == moves;
    SurvivorsAreStored(f, moves, Posted(w, run1), Posted(w, run2), key);
  }

  // ---- spliced chunks ----

  /** The text of a store of one record up to the end of its key, and the rest */
  function Head(ip: string): string { "{" + Break(Indented, 1) + "\"" + PrintChars(ip, "") }

  function Tail(record: Json): string { Colon(Indented) + Print(record, Indented, 1, Break(Indented, 0) + ("}" + "")) }

  lemma {:induction false} CharsThen(s: string, k: string)
    ensures PrintChars(s, k) == PrintChars(s, "") + k
  {
    if s != "" {
      CharsThen(s[1..], k);
      Assoc(Escape(s[0]), PrintChars(s[1..], ""), k);
    }
  }

  lemma FiveParts(a: string, b: string, c: string, d: string, e: string)
    ensures a + (b + (c + (d + e))) == a + b + c + d + e
  {
    Assoc(c, d, e);
    Assoc(b, c + d, e);
    Assoc(b, c, d);
    Assoc(a, b + c + d, e);
    Assoc(a, b + c, d);
    Assoc(a, b, c);
  }

  lemma HeadAndTail(ip: string, record: Json)
    ensures Dumps(Obj(Field(ip, record, Empty)), Indented) == Head(ip) + Tail(record)
  {
    var k := Break(Indented, 0) + ("}" + "");
    assert PrintFields(Empty, Indented, 1, k) == k;
    assert PrintField(Field(ip, record, Empty), Indented, 1, k) == "\"" + PrintChars(ip, Tail(record));
    CharsThen(ip, Tail(record));
    FiveParts("{", Break(Indented, 1), "\"", PrintChars(ip, ""), Tail(record));
  }

  /** Two agents whose first chunks end after the key, and of which the first one alone writes another chunk */
  function SpliceSteps(p: nat, ip1: string, src1: Sources, q: nat, ip2: string, src2: Sources): seq<Step> {
    [Check(p, ip1, src1), Check(q, ip2, src2), ReadFile(p, 0), ReadFile(q, 0)]
      + ([Open(p), Flush(p, |Head(ip1)|), Open(q), Flush(q, |Head(ip1)|)] + [Write(p)])
  }

  /** The first chunk of a writer that has just truncated the file */
  lemma FirstChunk(w: World, s: State, pid: nat, out: string, n: nat)
    requires pid in s.procs && s.procs[pid] == Opening(out) && n <= |out|
    ensures Apply(w, Apply(w, s, Open(pid)), Flush(pid, n))
      == s.(file := Some(out[..n]), procs := s.procs[pid := Writing(out, n)])
  {
    var s1 := Apply(w, s, Open(pid));
    assert s1.procs[pid] == Writing(out, 0) && s1.file == Some("");
    Overwrites(out[..n], "");
    assert out[0..n] == out[..n] && out[..n] + "" == out[..n];
    assert s1.procs[pid := Writing(out, n)] == s.procs[pid := Writing(out, n)];
  }

  lemma SpliceLeaves(w: World, s: State, p: nat, out1: string, q: nat, out2: string, n: nat)
    requires p != q && p in s.procs && q in s.procs && s.procs[p] == Opening(out1) && s.procs[q] == Opening(out2)
    requires n <= |out1| && n <= |out2|
    ensures var s2 := Exec(w, s, [Open(p), Flush(p, n), Open(q), Flush(q, n)] + [Write(p)]);
      s2.file == Some(out2[..n] + out1[n..]) && s2.runs == s.runs
  {
    ExecOne(w, s, [Open(p), Flush(p, n), Open(q), Flush(q, n)], Write(p));
    ExecFour(w, s, Open(p), Flush(p, n), Open(q), Flush(q, n));
    FirstChunk(w, s, p, out1, n);
    var s1 := s.(file := Some(out1[..n]), procs := s.procs[p := Writing(out1, n)]);
    FirstChunk(w, s1, q, out2, n);
    assert s1.procs[q := Writing(out2, n)][p] == Writing(out1, n);
    assert out2[..n][..n] == out2[..n];
  }

  /**
   * Why chunks must not be spliced: two agents whose texts take more than one chunk can leave a store in which the
   * record of the healthy one stands under the address of the other, signed and fresh, and the bridge accepts it,
   * although no run for that address was healthy. With texts of one chunk each this cannot happen.
   */
  lemma SplicesBreakTheStore(w: World, c: Config, s: State, p: nat, ip1: string, src1: Sources,
                             q: nat, ip2: string, src2: Sources)
    requires p != q && p !in s.procs && q !in s.procs && s.file.None? && s.runs == []
    requires ip1 != ip2 && |PrintChars(ip1, "")| == |PrintChars(ip2, "")|
    requires RunChecks(src1, s.clock).Healthy() && !RunChecks(src2, s.clock).Healthy()
    requires c.secret == w.secret && c.maxAge >= 1 && forall text :: w.mac(w.secret, text) != []
    ensures var s2 := Exec(w, s, SpliceSteps(p, ip1, src1, q, ip2, src2));
      && IsHealthy(GetPosture(c, w.mac, s2.file, ip2, s.clock))
      && forall run :: run in s2.runs && run.ip == ip2 ==> !run.signals.Healthy()
  {
    var run1 := Run(ip1, RunChecks(src1, s.clock), s.clock.Floor);
    SpliceIsStore(w, s, p, ip1, src1, q, ip2, src2);
    assert WfFields(Empty);
    AgentToBridge(c, w.mac, Empty, ip2, run1.signals, run1.checkedAt, s.clock);
    AgentEntrySays(run1.signals, run1.checkedAt);
  }

  lemma SpliceIsStore(w: World, s: State, p: nat, ip1: string, src1: Sources, q: nat, ip2: string, src2: Sources)
    requires p != q && p !in s.procs && q !in s.procs && s.file.None?
    requires |PrintChars(ip1, "")| == |PrintChars(ip2, "")|
    ensures var s2 := Exec(w, s, SpliceSteps(p, ip1, src1, q, ip2, src2));
      var run1 := Run(ip1, RunChecks(src1, s.clock), s.clock.Floor);
      && s2.file == Some(Dumps(Obj(Put(Empty, ip2, Envelope(w.mac, w.secret, run1.Entry()))), Indented))
      && s2.runs == s.runs + [run1, Run(ip2, RunChecks(src2, s.clock), s.clock.Floor)]
  {
    var run1 := Run(ip1, RunChecks(src1, s.clock), s.clock.Floor);
    var run2 := Run(ip2, RunChecks(src2, s.clock), s.clock.Floor);
    var first := [Check(p, ip1, src1), Check(q, ip2, src2), ReadFile(p, 0), ReadFile(q, 0)];
    ExecConcat(w, s, first, [Open(p), Flush(p, |Head(ip1)|), Open(q), Flush(q, |Head(ip1)|)] + [Write(p)]);
    ExecFour(w, s, Check(p, ip1, src1), Check(q, ip2, src2), ReadFile(p, 0), ReadFile(q, 0));
    BothRead(w, s, p, run1, src1, q, run2, src2, 0);
    SpliceOfHeads(w, Exec(w, s, first), p, ip1, Envelope(w.mac, w.secret, run1.Entry()),
                  q, ip2, Envelope(w.mac, w.secret, run2.Entry()));
  }

  lemma SpliceOfHeads(w: World, s: State, p: nat, ip1: string, e1: Json, q: nat, ip2: string, e2: Json)
    requires p != q && p in s.procs && q in s.procs && |PrintChars(ip1, "")| == |PrintChars(ip2, "")|
    requires s.procs[p] == Opening(Dumps(Obj(Field(ip1, e1, Empty)), Indented))
    requires s.procs[q] == Opening(Dumps(Obj(Field(ip2, e2, Empty)), Indented))
    ensures var n := |Head(ip1)|;
      var s2 := Exec(w, s, [Open(p), Flush(p, n), Open(q), Flush(q, n)] + [Write(p)]);
      s2.file == Some(Dumps(Obj(Field(ip2, e1, Empty)), Indented)) && s2.runs == s.runs
  {
    HeadAndTail(ip1, e1);
    HeadAndTail(ip2, e2);
    HeadAndTail(ip2, e1);
    var n, out1, out2 := |Head(ip1)|, Head(ip1) + Tail(e1), Head(ip2) + Tail(e2);
    SpliceLeaves(w, s, p, out1, q, out2, n);
    assert out2[..n] == Head(ip2) && out1[n..] == Tail(e1);
  }
}
