/**
 * The posture log as the revoker reads it: each pass reads all lines again, while the last known state of every
 * device persists between passes. Which entries lead to a revocation, and how often.
 */
module PostureLog {
  import opened Basics
  import opened Json

  // ---- lines ----

  /** A log entry: the device as it was logged and as a dict key, its health, its user and the whole dict */
  datatype Entry = Entry(device: Json, key: Json, healthy: Json, email: Json, raw: Fields)

  /** What a value is as a dict key: booleans are numbers, and `None` stands for an unhashable value. */
  function DictKey(v: Json): Option<Json> {
    match v
    case Bool(b) => Some(Int(if b then 1 else 0))
    case Arr(_) => None
    case Obj(_) => None
    case _ => Some(v)
  }

  /** A line is passed over, ends the pass by an exception, or is an entry. */
  datatype Line = Skip | Abort | Take(e: Entry)

  function ReadLine(line: string): Line {
    if Strip(line) == "" || Loads(Strip(line)).None? then Skip
    else
      match Loads(Strip(line)).value
      case Obj(f) =>
        var device := GetOr(f, "device_id", Str("unknown"));
        if DictKey(device).None? then Abort
        else Take(Entry(device, DictKey(device).value, GetOr(f, "healthy", Bool(false)), GetOr(f, "user_email", Str("")), f))
      case _ => Abort
  }

  predicate Aborts(lines: seq<string>) {
    lines != [] && (Aborts(lines[..|lines| - 1]) || ReadLine(lines[|lines| - 1]).Abort?)
  }

  /** The entries of a pass over `lines` */
  function Entries(lines: seq<string>): seq<Entry> {
    if lines == [] then []
    else
      var front, last := Entries(lines[..|lines| - 1]), ReadLine(lines[|lines| - 1]);
      if last.Take? && !Aborts(lines[..|lines| - 1]) then front + [last.e] else front
  }

  // ---- one pass ----

  type Known = map<Json, Json>

  function At(s: Known, k: Json): Option<Json> { if k in s then Some(s[k]) else None }

  predicate Triggers(s: Known, e: Entry) { At(s, e.key) == Some(Bool(true)) && e.healthy == Bool(false) }

  function Final(s: Known, es: seq<Entry>): Known {
    if es == [] then s else Final(s, es[..|es| - 1])[es[|es| - 1].key := es[|es| - 1].healthy]
  }

  /** Entry `i` is acted on. */
  predicate Acted(s: Known, es: seq<Entry>, i: nat)
    requires i < |es|
  {
    Triggers(Final(s, es[..i]), es[i])
  }

  /** The entries of a pass that are acted on, in order */
  function Emit(s: Known, es: seq<Entry>): seq<Entry> {
    if es == [] then []
    else
      var front := Emit(s, es[..|es| - 1]);
      if Acted(s, es, |es| - 1) then front + [es[|es| - 1]] else front
  }

  lemma Snoc(s: Known, es: seq<Entry>, e: Entry, k: Json)
    ensures Final(s, es + [e]) == Final(s, es)[e.key := e.healthy]
    ensures Emit(s, es + [e]) == if Triggers(Final(s, es), e) then Emit(s, es) + [e] else Emit(s, es)
    ensures Project(es + [e], k) == if e.key == k then Project(es, k) + [e] else Project(es, k)
    ensures Healths(es + [e], k) == if e.key == k then Healths(es, k) + [e.healthy] else Healths(es, k)
  {
    assert (es + [e])[..|es|] == es;
  }

  /** One pass over a log in two parts is a pass over each. */
  lemma {:induction false} Concat(s: Known, a: seq<Entry>, b: seq<Entry>)
    ensures Final(s, a + b) == Final(Final(s, a), b)
    ensures Emit(s, a + b) == Emit(s, a) + Emit(Final(s, a), b)
    decreases |b|
  {
    if b == [] {
      assert a + b == a;
    } else {
      var front, e := b[..|b| - 1], b[|b| - 1];
      Concat(s, a, front);
      Snoc(s, a + front, e, e.key);
      Snoc(Final(s, a), front, e, e.key);
      Assoc(a, front, [e]);
      Assoc(Emit(s, a), Emit(Final(s, a), front), [e]);
      assert b == front + [e];
    }
  }

  /** Entry `j` is the latest one of device `k` before `i`. */
  ghost predicate Latest(es: seq<Entry>, j: nat, i: nat, k: Json)
    requires i <= |es|
  {
    j < i && es[j].key == k && forall m :: j < m < i ==> es[m].key != k
  }

  ghost predicate Unseen(es: seq<Entry>, i: nat, k: Json)
    requires i <= |es|
  {
    forall j :: 0 <= j < i ==> es[j].key != k
  }

  lemma {:induction false} FinalUnseen(s: Known, es: seq<Entry>, i: nat, k: Json)
    requires i <= |es| && Unseen(es, i, k)
    ensures At(Final(s, es[..i]), k) == At(s, k)
  {
    if i > 0 {
      FinalUnseen(s, es, i - 1, k);
      assert es[..i][..i - 1] == es[..i - 1];
    }
  }

  lemma {:induction false} SeenHasLatest(es: seq<Entry>, i: nat, k: Json)
    requires i <= |es| && !Unseen(es, i, k)
    ensures exists j: nat :: Latest(es, j, i, k)
  {
    if es[i - 1].key == k {
      assert Latest(es, i - 1, i, k);
    } else {
      SeenHasLatest(es, i - 1, k);
      var j: nat :| Latest(es, j, i - 1, k);
      assert Latest(es, j, i, k);
    }
  }

  lemma {:induction false} FinalLatest(s: Known, es: seq<Entry>, j: nat, i: nat, k: Json)
    requires i <= |es| && Latest(es, j, i, k)
    ensures At(Final(s, es[..i]), k) == Some(es[j].healthy)
    decreases i
  {
    assert es[..i][..i - 1] == es[..i - 1];
    if j < i - 1 { FinalLatest(s, es, j, i - 1, k); }
  }

  /** What is known of a device: the health in its latest entry, or what was known before if it has none */
  lemma FinalMeans(s: Known, es: seq<Entry>, i: nat, k: Json)
    requires i <= |es|
    ensures Unseen(es, i, k) ==> At(Final(s, es[..i]), k) == At(s, k)
    ensures !Unseen(es, i, k) ==> exists j: nat :: Latest(es, j, i, k)
    ensures forall j: nat :: Latest(es, j, i, k) ==> At(Final(s, es[..i]), k) == Some(es[j].healthy)
  {
    if Unseen(es, i, k) { FinalUnseen(s, es, i, k); } else { SeenHasLatest(es, i, k); }
    forall j: nat | Latest(es, j, i, k) ensures At(Final(s, es[..i]), k) == Some(es[j].healthy) {
      FinalLatest(s, es, j, i, k);
    }
  }

  /**
   * An entry is acted on exactly when it is unhealthy and the latest earlier entry of its device, or without one
   * the state left by earlier passes, is healthy. Anything but a boolean is neither.
   */
  lemma ActedMeans(s: Known, es: seq<Entry>, i: nat)
    requires i < |es|
    ensures var k := es[i].key;
      Acted(s, es, i) <==>
        && es[i].healthy == Bool(false)
        && ((exists j: nat :: Latest(es, j, i, k) && es[j].healthy == Bool(true))
            || (Unseen(es, i, k) && At(s, k) == Some(Bool(true))))
  {
    FinalMeans(s, es, i, es[i].key);
    if !Unseen(es, i, es[i].key) {
      var j: nat :| Latest(es, j, i, es[i].key);
    }
  }

  // ---- one device ----

  function Project(es: seq<Entry>, k: Json): seq<Entry> {
    if es == [] then []
    else
      var front := Project(es[..|es| - 1], k);
      if es[|es| - 1].key == k then front + [es[|es| - 1]] else front
  }

  lemma {:induction false} ProjectConcat(a: seq<Entry>, b: seq<Entry>, k: Json)
    ensures Project(a + b, k) == Project(a, k) + Project(b, k)
    decreases |b|
  {
    if b == [] {
      assert a + b == a;
    } else {
      ProjectConcat(a, b[..|b| - 1], k);
      assert (a + b)[..|a + b| - 1] == a + b[..|b| - 1];
    }
  }

  /** What becomes of a device depends on its own entries only. */
  lemma {:induction false} DevicesAreIndependent(s: Known, es: seq<Entry>, k: Json)
    ensures At(Final(s, es), k) == At(Final(s, Project(es, k)), k)
    ensures Project(Emit(s, es), k) == Emit(s, Project(es, k))
  {
    if es != [] {
      var front, last := es[..|es| - 1], es[|es| - 1];
      assert es == front + [last];
      DevicesAreIndependent(s, front, k);
      Snoc(s, front, last, k);
      Snoc(s, Emit(s, front), last, k);
      if last.key == k { Snoc(s, Project(front, k), last, k); }
    }
  }

  /** Logs that differ only in how the entries of different devices interleave have the same effect. */
  lemma InterleavingIsIrrelevant(s: Known, es: seq<Entry>, fs: seq<Entry>)
    requires forall k :: Project(es, k) == Project(fs, k)
    ensures Final(s, es) == Final(s, fs)
    ensures forall k :: Project(Emit(s, es), k) == Project(Emit(s, fs), k)
  {
    forall k ensures At(Final(s, es), k) == At(Final(s, fs), k) && Project(Emit(s, es), k) == Project(Emit(s, fs), k) {
      DevicesAreIndependent(s, es, k);
      DevicesAreIndependent(s, fs, k);
    }
    var f, g := Final(s, es), Final(s, fs);
    forall k ensures (k in f <==> k in g) && (k in f ==> f[k] == g[k]) {
      assert At(f, k) == At(g, k);
    }
  }

  // ---- counting ----

  function Healths(es: seq<Entry>, k: Json): seq<Json> {
    if es == [] then []
    else
      var front := Healths(es[..|es| - 1], k);
      if es[|es| - 1].key == k then front + [es[|es| - 1].healthy] else front
  }

  function LastOr(prev: Option<Json>, h: seq<Json>): Option<Json> {
    if h == [] then prev else Some(h[|h| - 1])
  }

  /** The value before `h[i]`, which for the first one is `prev` */
  function Prior(prev: Option<Json>, h: seq<Json>, i: nat): Option<Json>
    requires i < |h|
  {
    if i == 0 then prev else Some(h[i - 1])
  }

  /** How often `x` is followed by `y` in `h`, with `prev` before it */
  function Turns(x: Json, y: Json, prev: Option<Json>, h: seq<Json>): nat {
    if h == [] then 0
    else
      Turns(x, y, prev, h[..|h| - 1])
        + if Prior(prev, h, |h| - 1) == Some(x) && h[|h| - 1] == y then 1 else 0
  }

  function Falls(prev: Option<Json>, h: seq<Json>): nat { Turns(Bool(true), Bool(false), prev, h) }

  function Rises(prev: Option<Json>, h: seq<Json>): nat { Turns(Bool(false), Bool(true), prev, h) }

  ghost function TurnsAt(x: Json, y: Json, prev: Option<Json>, h: seq<Json>): set<nat> {
    set i: nat | i < |h| && Prior(prev, h, i) == Some(x) && h[i] == y
  }

  lemma TurnsSnoc(x: Json, y: Json, prev: Option<Json>, h: seq<Json>, v: Json)
    ensures Turns(x, y, prev, h + [v]) == Turns(x, y, prev, h) + if LastOr(prev, h) == Some(x) && v == y then 1 else 0
  {
    assert (h + [v])[..|h|] == h;
  }

  lemma {:induction false} TurnsAreCounted(x: Json, y: Json, prev: Option<Json>, h: seq<Json>)
    ensures Turns(x, y, prev, h) == |TurnsAt(x, y, prev, h)|
  {
    if h == [] {
      assert TurnsAt(x, y, prev, h) == {};
    } else {
      var front, n := h[..|h| - 1], |h| - 1;
      TurnsAreCounted(x, y, prev, front);
      TurnsAtSnoc(x, y, prev, h);
    }
  }

  lemma TurnsAtSnoc(x: Json, y: Json, prev: Option<Json>, h: seq<Json>)
    requires h != []
    ensures var n := |h| - 1;
      n !in TurnsAt(x, y, prev, h[..n]) && TurnsAt(x, y, prev, h)
        == TurnsAt(x, y, prev, h[..n]) + if Prior(prev, h, n) == Some(x) && h[n] == y then {n} else {}
  {
    var front, n := h[..|h| - 1], |h| - 1;
    forall i: nat ensures i in TurnsAt(x, y, prev, h) <==>
      i in TurnsAt(x, y, prev, front) || (i == n && Prior(prev, h, n) == Some(x) && h[n] == y)
    {
      if i < n { assert Prior(prev, front, i) == Prior(prev, h, i); }
    }
  }

  /** The revocations of a device in one pass are the falls of its health, from the state left by earlier passes on. */
  lemma {:induction false} PassCount(s: Known, es: seq<Entry>, k: Json)
    ensures |Project(Emit(s, es), k)| == Falls(At(s, k), Healths(es, k))
    ensures At(Final(s, es), k) == LastOr(At(s, k), Healths(es, k))
  {
    if es != [] {
      var front, last := es[..|es| - 1], es[|es| - 1];
      assert es == front + [last];
      PassCount(s, front, k);
      Snoc(s, front, last, k);
      Snoc(s, Emit(s, front), last, k);
      TurnsSnoc(Bool(true), Bool(false), At(s, k), Healths(front, k), last.healthy);
    }
  }

  /** The state after `n` passes over an unchanged log, and all that was acted on */
  function StateAfter(s: Known, es: seq<Entry>, n: nat): Known {
    if n == 0 then s else Final(StateAfter(s, es, n - 1), es)
  }

  function EmitAll(s: Known, es: seq<Entry>, n: nat): seq<Entry> {
    if n == 0 then [] else EmitAll(s, es, n - 1) + Emit(StateAfter(s, es, n - 1), es)
  }

  /** The falls of the health read as a cycle: its last value comes before its first. */
  function CyclicFalls(h: seq<Json>): nat { Falls(LastOr(None, h), h) }

  function CyclicRises(h: seq<Json>): nat { Rises(LastOr(None, h), h) }

  lemma {:induction false} StateSettles(s: Known, es: seq<Entry>, n: nat, k: Json)
    requires n >= 1
    ensures At(StateAfter(s, es, n), k) == LastOr(At(s, k), Healths(es, k))
  {
    PassCount(StateAfter(s, es, n - 1), es, k);
    if n > 1 { StateSettles(s, es, n - 1, k); }
  }

  /**
   * Revocations repeat: over n passes of an unchanged log, a device is revoked as often as its health falls in
   * the first pass and then in every further pass as often as it falls around the cycle.
   */
  lemma {:induction false} PassesCount(s: Known, es: seq<Entry>, n: nat, k: Json)
    requires n >= 1
    ensures var h := Healths(es, k);
      |Project(EmitAll(s, es, n), k)| == Falls(At(s, k), h) + (n - 1) * CyclicFalls(h)
  {
    var before, h := StateAfter(s, es, n - 1), Healths(es, k);
    assert |Project(EmitAll(s, es, n), k)| == |Project(EmitAll(s, es, n - 1), k)| + Falls(At(before, k), h) by {
      ProjectConcat(EmitAll(s, es, n - 1), Emit(before, es), k);
      PassCount(before, es, k);
    }
    if n > 1 {
      PassesCount(s, es, n - 1, k);
      assert Falls(At(before, k), h) == CyclicFalls(h) by { StateSettles(s, es, n - 1, k); }
      OneMore(n - 2, CyclicFalls(h));
    }
  }

  lemma OneMore(n: nat, c: nat)
    ensures n * c + c == (n + 1) * c
  {}

  /** A pass repeats the falls inside the log, plus one if the state before it is healthy and the log starts unhealthy. */
  lemma {:induction false} FallsFrom(prev: Option<Json>, h: seq<Json>)
    ensures Falls(prev, h) == Falls(None, h) + if h != [] && prev == Some(Bool(true)) && h[0] == Bool(false) then 1 else 0
  {
    if h != [] {
      var front, v := h[..|h| - 1], h[|h| - 1];
      assert h == front + [v];
      FallsFrom(prev, front);
      TurnsSnoc(Bool(true), Bool(false), prev, front, v);
      TurnsSnoc(Bool(true), Bool(false), None, front, v);
    }
  }

  lemma {:induction false} Balance(prev: bool, h: seq<Json>)
    requires forall i :: 0 <= i < |h| ==> h[i].Bool?
    ensures Falls(Some(Bool(prev)), h) + (if LastOr(Some(Bool(prev)), h) == Some(Bool(true)) then 1 else 0)
      == Rises(Some(Bool(prev)), h) + if prev then 1 else 0
  {
    if h != [] { Balance(prev, h[..|h| - 1]); }
  }

  /** With boolean health only, a device falls around the cycle as often as it rises. */
  lemma CycleIsBalanced(h: seq<Json>)
    requires forall i :: 0 <= i < |h| ==> h[i].Bool?
    ensures CyclicFalls(h) == CyclicRises(h)
  {
    if h != [] { Balance(h[|h| - 1].b, h); }
  }

  /** Values that are not booleans can break the balance. */
  lemma CycleIsUnbalanced()
    ensures var h := [Bool(true), Bool(false), Null];
      CyclicFalls(h) == 1 && CyclicRises(h) == 0
  {
    var t, f, last := Bool(true), Bool(false), Some(Null);
    assert [] + [t] == [t] && [t] + [f] == [t, f] && [t, f] + [Null] == [t, f, Null];
    TurnsSnoc(t, f, last, [], t);
    TurnsSnoc(t, f, last, [t], f);
    TurnsSnoc(t, f, last, [t, f], Null);
    TurnsSnoc(f, t, last, [], t);
    TurnsSnoc(f, t, last, [t], f);
    TurnsSnoc(f, t, last, [t, f], Null);
  }

  // ---- growing logs ----

  /** Each pass reads a log that starts with what the pass before it read. */
  ghost predicate Growing(logs: seq<seq<Entry>>) {
    forall i, j :: 0 <= i <= j < |logs| ==> logs[i] <= logs[j]
  }

  function KnownAfter(s: Known, logs: seq<seq<Entry>>): Known {
    if logs == [] then s else Final(KnownAfter(s, logs[..|logs| - 1]), logs[|logs| - 1])
  }

  function Revoked(s: Known, logs: seq<seq<Entry>>): seq<Entry> {
    if logs == [] then []
    else Revoked(s, logs[..|logs| - 1]) + Emit(KnownAfter(s, logs[..|logs| - 1]), logs[|logs| - 1])
  }

  lemma {:induction false} ActedIsEmitted(s: Known, es: seq<Entry>, i: nat)
    requires i < |es| && Acted(s, es, i)
    ensures es[i] in Emit(s, es)
  {
    if i < |es| - 1 {
      var front := es[..|es| - 1];
      assert front[..i] == es[..i] && front[i] == es[i];
      ActedIsEmitted(s, front, i);
    }
  }

  lemma {:induction false} PassIsPart(s: Known, logs: seq<seq<Entry>>, p: nat, e: Entry)
    requires p < |logs| && e in Emit(KnownAfter(s, logs[..p]), logs[p])
    ensures e in Revoked(s, logs)
  {
    if p < |logs| - 1 {
      var front := logs[..|logs| - 1];
      assert front[..p] == logs[..p] && front[p] == logs[p];
      PassIsPart(s, front, p, e);
    }
  }

  /** Completeness: whenever a device goes from healthy to unhealthy in the log, every pass that reads it acts on it. */
  lemma EveryFallIsActedOn(s: Known, logs: seq<seq<Entry>>, p: nat, i: nat, j: nat)
    requires p < |logs| && j < |logs[p]|
    requires Latest(logs[p], i, j, logs[p][j].key)
    requires logs[p][i].healthy == Bool(true) && logs[p][j].healthy == Bool(false)
    ensures Acted(KnownAfter(s, logs[..p]), logs[p], j) && logs[p][j] in Revoked(s, logs)
  {
    var before := KnownAfter(s, logs[..p]);
    ActedMeans(before, logs[p], j);
    ActedIsEmitted(before, logs[p], j);
    PassIsPart(s, logs, p, logs[p][j]);
  }

  ghost predicate EverHealthy(s: Known, es: seq<Entry>, k: Json) {
    At(s, k) == Some(Bool(true)) || exists i :: 0 <= i < |es| && es[i].key == k && es[i].healthy == Bool(true)
  }

  lemma {:induction false} EmittedIsActed(s: Known, es: seq<Entry>, e: Entry)
    requires e in Emit(s, es)
    ensures exists i: nat :: i < |es| && es[i] == e && Acted(s, es, i)
  {
    var front, n := es[..|es| - 1], |es| - 1;
    if e in Emit(s, front) {
      EmittedIsActed(s, front, e);
      var i: nat :| i < |front| && front[i] == e && Acted(s, front, i);
      assert front[..i] == es[..i] && Acted(s, es, i);
    } else {
      assert Acted(s, es, n);
    }
  }

  lemma EmittedWasHealthy(s: Known, es: seq<Entry>, e: Entry)
    requires e in Emit(s, es)
    ensures EverHealthy(s, es, e.key)
  {
    EmittedIsActed(s, es, e);
    var i: nat :| i < |es| && es[i] == e && Acted(s, es, i);
    ActedMeans(s, es, i);
  }

  lemma KnownWasHealthy(s: Known, es: seq<Entry>, k: Json)
    requires At(Final(s, es), k) == Some(Bool(true))
    ensures EverHealthy(s, es, k)
  {
    assert es[..|es|] == es;
    FinalMeans(s, es, |es|, k);
    if !Unseen(es, |es|, k) {
      var j: nat :| Latest(es, j, |es|, k);
    }
  }

  ghost predicate HealthyIn(es: seq<Entry>, k: Json) {
    exists i :: 0 <= i < |es| && es[i].key == k && es[i].healthy == Bool(true)
  }

  /** The device was healthy to begin with or in some log that was read. */
  ghost predicate HealthyBefore(s: Known, logs: seq<seq<Entry>>, k: Json) {
    At(s, k) == Some(Bool(true)) || exists p :: 0 <= p < |logs| && HealthyIn(logs[p], k)
  }

  lemma HealthyInMore(s: Known, logs: seq<seq<Entry>>, k: Json)
    requires logs != []
    ensures HealthyBefore(s, logs[..|logs| - 1], k) ==> HealthyBefore(s, logs, k)
    ensures HealthyIn(logs[|logs| - 1], k) ==> HealthyBefore(s, logs, k)
  {
    var front := logs[..|logs| - 1];
    if p :| 0 <= p < |front| && HealthyIn(front[p], k) { assert HealthyIn(logs[p], k); }
  }

  lemma {:induction false} HistoryWasHealthy(s: Known, logs: seq<seq<Entry>>, k: Json)
    requires At(KnownAfter(s, logs), k) == Some(Bool(true))
    ensures HealthyBefore(s, logs, k)
  {
    if logs != [] {
      var front := logs[..|logs| - 1];
      KnownWasHealthy(KnownAfter(s, front), logs[|logs| - 1], k);
      if At(KnownAfter(s, front), k) == Some(Bool(true)) { HistoryWasHealthy(s, front, k); }
      HealthyInMore(s, logs, k);
    }
  }

  lemma {:induction false} RevokedWasHealthy(s: Known, logs: seq<seq<Entry>>, e: Entry)
    requires e in Revoked(s, logs)
    ensures HealthyBefore(s, logs, e.key)
  {
    var front, last := logs[..|logs| - 1], logs[|logs| - 1];
    HealthyInMore(s, logs, e.key);
    if e in Revoked(s, front) {
      RevokedWasHealthy(s, front, e);
    } else {
      EmittedWasHealthy(KnownAfter(s, front), last, e);
      if At(KnownAfter(s, front), e.key) == Some(Bool(true)) { HistoryWasHealthy(s, front, e.key); }
    }
  }

  /**
   * Soundness, whatever the passes read: a device that was never healthy, in a log that was read or to begin with,
   * is never revoked. When the log only grows, its last state tells.
   */
  lemma OnlyHealthyDevicesFall(s: Known, logs: seq<seq<Entry>>, e: Entry)
    requires e in Revoked(s, logs)
    ensures logs != [] && HealthyBefore(s, logs, e.key)
    ensures Growing(logs) ==> EverHealthy(s, logs[|logs| - 1], e.key)
  {
    RevokedWasHealthy(s, logs, e);
    if Growing(logs) && At(s, e.key) != Some(Bool(true)) {
      var p :| 0 <= p < |logs| && HealthyIn(logs[p], e.key);
      var i :| 0 <= i < |logs[p]| && logs[p][i].key == e.key && logs[p][i].healthy == Bool(true);
      assert logs[p] <= logs[|logs| - 1];
      assert logs[|logs| - 1][i] == logs[p][i];
    }
  }

  // ---- growing lines ----

  /** More lines at the end of a log leave its entries and add some, or none after a line that ends a pass. */
  lemma {:induction false} EntriesGrow(lines: seq<string>, more: seq<string>)
    ensures Entries(lines) <= Entries(lines + more)
    decreases |more|
  {
    if more == [] {
      assert lines + more == lines;
    } else {
      EntriesGrow(lines, more[..|more| - 1]);
      assert (lines + more)[..|lines + more| - 1] == lines + more[..|more| - 1];
    }
  }
}
