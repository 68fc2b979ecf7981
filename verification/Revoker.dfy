/**
 * The revoker: it reads the whole posture log on every pass, remembers the last state of every device, and cuts
 * the peers of a device whose state falls from healthy to unhealthy.
 */
module Revoker {
  import opened Basics
  import opened Json
  import opened Ip
  import opened Peers
  import opened PostureLog
  import P = Posture

  /** How the `wg` calls of one revocation go: whether the list arrives, and which removals are refused */
  datatype WgCall = WgCall(listed: bool, refuses: set<string>)

  /** The world of the revoker: the IPv6 reader, the interface's line, and the calls of the n-th revocation */
  datatype Wg = Wg(v6: V6, interface: seq<string>, calls: nat -> WgCall) {
    /** The peers that the device of a log entry matches */
    function Match(e: Entry): Matcher { MatcherOf(v6, DeviceAddr(v6, e.device)) }
  }

  // ---- what a revocation does to the peers ----

  function PeersAfterOne(wg: Wg, n: nat, peers: seq<Peer>, e: Entry): seq<Peer> {
    if wg.calls(n).listed then Keep(wg.Match(e), wg.calls(n).refuses, peers) else peers
  }

  function RemovalsOfOne(wg: Wg, n: nat, peers: seq<Peer>, e: Entry): seq<string> {
    if wg.calls(n).listed then Hits(wg.Match(e), peers) else []
  }

  /** The peers after revocations number `n` and on, one for each entry of `es` */
  function PeersAfter(wg: Wg, n: nat, peers: seq<Peer>, es: seq<Entry>): seq<Peer> {
    if es == [] then peers
    else PeersAfterOne(wg, n + |es| - 1, PeersAfter(wg, n, peers, es[..|es| - 1]), es[|es| - 1])
  }

  function RemovalsAfter(wg: Wg, n: nat, peers: seq<Peer>, es: seq<Entry>): seq<string> {
    if es == [] then []
    else
      RemovalsAfter(wg, n, peers, es[..|es| - 1])
        + RemovalsOfOne(wg, n + |es| - 1, PeersAfter(wg, n, peers, es[..|es| - 1]), es[|es| - 1])
  }

  lemma AfterSnoc(wg: Wg, n: nat, peers: seq<Peer>, es: seq<Entry>, e: Entry)
    ensures PeersAfter(wg, n, peers, es + [e]) == PeersAfterOne(wg, n + |es|, PeersAfter(wg, n, peers, es), e)
    ensures RemovalsAfter(wg, n, peers, es + [e])
      == RemovalsAfter(wg, n, peers, es) + RemovalsOfOne(wg, n + |es|, PeersAfter(wg, n, peers, es), e)
  {
    assert (es + [e])[..|es|] == es;
  }

  /** The users of the devices that log entries named */
  function Users(users: Known, es: seq<Entry>): Known {
    if es == [] then users
    else
      var front, last := Users(users, es[..|es| - 1]), es[|es| - 1];
      if P.Truthy(last.email) then front[last.key := last.email] else front
  }

  /** Entry `i` is the latest one of device `k` that names a user. */
  ghost predicate NamesLast(es: seq<Entry>, i: nat, k: Json)
    requires i < |es|
  {
    es[i].key == k && P.Truthy(es[i].email) && forall j :: i < j < |es| && es[j].key == k ==> !P.Truthy(es[j].email)
  }

  /** The user of a device is the one of its latest entry that names a user. */
  lemma {:induction false} UserIsLast(users: Known, es: seq<Entry>, i: nat, k: Json)
    requires i < |es| && NamesLast(es, i, k)
    ensures At(Users(users, es), k) == Some(es[i].email)
  {
    var n := |es| - 1;
    if i < n {
      assert NamesLast(es[..n], i, k);
      UserIsLast(users, es[..n], i, k);
    }
  }

  lemma {:induction false} UserStays(users: Known, es: seq<Entry>, k: Json)
    requires forall i :: 0 <= i < |es| && es[i].key == k ==> !P.Truthy(es[i].email)
    ensures At(Users(users, es), k) == At(users, k)
  {
    if es != [] { UserStays(users, es[..|es| - 1], k); }
  }

  /** The users whose sessions are revoked with these entries */
  function SessionsOf(es: seq<Entry>): seq<Json> {
    if es == [] then []
    else
      var front, last := SessionsOf(es[..|es| - 1]), es[|es| - 1];
      if P.Truthy(last.email) then front + [last.email] else front
  }

  // ---- what a pass does ----

  /** All that the revoker keeps or causes */
  datatype View = View(known: Known, users: Known, revocations: seq<Entry>, sessions: seq<Json>,
                       peers: seq<Peer>, removals: seq<string>)

  /** One revocation */
  function Cut(wg: Wg, v: View, e: Entry): View {
    v.(revocations := v.revocations + [e],
       sessions := if P.Truthy(e.email) then v.sessions + [e.email] else v.sessions,
       peers := PeersAfterOne(wg, |v.revocations|, v.peers, e),
       removals := v.removals + RemovalsOfOne(wg, |v.revocations|, v.peers, e))
  }

  /** One entry of the log */
  function Step(wg: Wg, v: View, e: Entry): View {
    var v1 := if Triggers(v.known, e) then Cut(wg, v, e) else v;
    v1.(known := v1.known[e.key := e.healthy],
        users := if P.Truthy(e.email) then v1.users[e.key := e.email] else v1.users)
  }

  function Pass(wg: Wg, v: View, es: seq<Entry>): View {
    if es == [] then v else Step(wg, Pass(wg, v, es[..|es| - 1]), es[|es| - 1])
  }

  /** Each entry of `acted` has been revoked, and nothing else. */
  ghost predicate Followed(wg: Wg, v: View, acted: seq<Entry>, w: View) {
    && w.revocations == v.revocations + acted
    && w.sessions == v.sessions + SessionsOf(acted)
    && w.peers == PeersAfter(wg, |v.revocations|, v.peers, acted)
    && w.removals == v.removals + RemovalsAfter(wg, |v.revocations|, v.peers, acted)
  }

  /** What a pass leaves, in terms of the entries that are acted on */
  ghost predicate Passed(wg: Wg, v: View, es: seq<Entry>, w: View) {
    && w.known == Final(v.known, es)
    && w.users == Users(v.users, es)
    && Followed(wg, v, Emit(v.known, es), w)
  }

  lemma TrailGrows(v: View, acted: seq<Entry>, w: View, e: Entry)
    requires w.revocations == v.revocations + acted && w.sessions == v.sessions + SessionsOf(acted)
    ensures w.revocations + [e] == v.revocations + (acted + [e])
    ensures (if P.Truthy(e.email) then w.sessions + [e.email] else w.sessions) == v.sessions + SessionsOf(acted + [e])
  {
    assert (acted + [e])[..|acted|] == acted;
    Assoc(v.revocations, acted, [e]);
    Assoc(v.sessions, SessionsOf(acted), [e.email]);
  }

  lemma PeersFollow(wg: Wg, n: nat, v: View, acted: seq<Entry>, w: View, e: Entry)
    requires w.peers == PeersAfter(wg, n, v.peers, acted) && w.removals == v.removals + RemovalsAfter(wg, n, v.peers, acted)
    ensures PeersAfterOne(wg, n + |acted|, w.peers, e) == PeersAfter(wg, n, v.peers, acted + [e])
    ensures w.removals + RemovalsOfOne(wg, n + |acted|, w.peers, e) == v.removals + RemovalsAfter(wg, n, v.peers, acted + [e])
  {
    AfterSnoc(wg, n, v.peers, acted, e);
    Assoc(v.removals, RemovalsAfter(wg, n, v.peers, acted), RemovalsOfOne(wg, n + |acted|, w.peers, e));
  }

  lemma CutFollows(wg: Wg, v: View, acted: seq<Entry>, w: View, e: Entry)
    requires Followed(wg, v, acted, w)
    ensures Followed(wg, v, acted + [e], Cut(wg, w, e))
  {
    var u, all := Cut(wg, w, e), acted + [e];
    assert |w.revocations| == |v.revocations| + |acted|;
    assert u.revocations == v.revocations + all && u.sessions == v.sessions + SessionsOf(all) by {
      TrailGrows(v, acted, w, e);
    }
    assert u.peers == PeersAfter(wg, |v.revocations|, v.peers, all)
      && u.removals == v.removals + RemovalsAfter(wg, |v.revocations|, v.peers, all) by {
      PeersFollow(wg, |v.revocations|, v, acted, w, e);
    }
  }

  lemma UsersSnoc(users: Known, es: seq<Entry>, e: Entry)
    ensures Users(users, es + [e])
      == if P.Truthy(e.email) then Users(users, es)[e.key := e.email] else Users(users, es)
  {
    assert (es + [e])[..|es|] == es;
  }

  lemma {:induction false} PassMeans(wg: Wg, v: View, es: seq<Entry>)
    ensures Passed(wg, v, es, Pass(wg, v, es))
  {
    if es != [] {
      var front := es[..|es| - 1];
      PassMeans(wg, v, front);
      PassNext(wg, v, es, Pass(wg, v, front));
    }
  }

  lemma PassNext(wg: Wg, v: View, es: seq<Entry>, w: View)
    requires es != [] && w == Pass(wg, v, es[..|es| - 1]) && Passed(wg, v, es[..|es| - 1], w)
    ensures Passed(wg, v, es, Pass(wg, v, es))
  {
    assert es == es[..|es| - 1] + [es[|es| - 1]];
    StepIsPassed(wg, v, es[..|es| - 1], w, es[|es| - 1]);
  }

  lemma StepIsPassed(wg: Wg, v: View, es: seq<Entry>, w: View, e: Entry)
    requires Passed(wg, v, es, w)
    ensures Passed(wg, v, es + [e], Step(wg, w, e))
  {
    Snoc(v.known, es, e, e.key);
    UsersSnoc(v.users, es, e);
    if Triggers(w.known, e) { CutFollows(wg, v, Emit(v.known, es), w, e); }
  }

  // ---- what many passes do ----

  lemma {:induction false} PeersConcat(wg: Wg, n: nat, peers: seq<Peer>, a: seq<Entry>, b: seq<Entry>)
    ensures PeersAfter(wg, n, peers, a + b) == PeersAfter(wg, n + |a|, PeersAfter(wg, n, peers, a), b)
    decreases |b|
  {
    if b == [] {
      assert a + b == a;
    } else {
      var front, e, left := b[..|b| - 1], b[|b| - 1], PeersAfter(wg, n, peers, a);
      PeersConcat(wg, n, peers, a, front);
      SnocsAgree(wg, n, peers, a + front, n + |a|, left, front, e);
      Assoc(a, front, [e]);
      assert b == front + [e];
    }
  }

  /** From the same peers and the same number on, one more revocation does the same. */
  lemma SnocsAgree(wg: Wg, n: nat, peers: seq<Peer>, es: seq<Entry>, m: nat, left: seq<Peer>, fs: seq<Entry>, e: Entry)
    requires n + |es| == m + |fs| && PeersAfter(wg, n, peers, es) == PeersAfter(wg, m, left, fs)
    ensures PeersAfter(wg, n, peers, es + [e]) == PeersAfter(wg, m, left, fs + [e])
  {
    assert (es + [e])[..|es|] == es && (fs + [e])[..|fs|] == fs;
  }

  lemma {:induction false} RemovalsConcat(wg: Wg, n: nat, peers: seq<Peer>, a: seq<Entry>, b: seq<Entry>)
    ensures RemovalsAfter(wg, n, peers, a + b)
      == RemovalsAfter(wg, n, peers, a) + RemovalsAfter(wg, n + |a|, PeersAfter(wg, n, peers, a), b)
    decreases |b|
  {
    if b == [] {
      assert a + b == a;
    } else {
      var front, e, left := b[..|b| - 1], b[|b| - 1], PeersAfter(wg, n, peers, a);
      RemovalsConcat(wg, n, peers, a, front);
      PeersConcat(wg, n, peers, a, front);
      Assoc(a, front, [e]);
      assert b == front + [e];
      RemovalsSnoc(wg, n, peers, a + front, e);
      RemovalsSnoc(wg, n + |a|, left, front, e);
      Assoc(RemovalsAfter(wg, n, peers, a), RemovalsAfter(wg, n + |a|, left, front),
            RemovalsOfOne(wg, n + |a| + |front|, PeersAfter(wg, n + |a|, left, front), e));
    }
  }

  lemma RemovalsSnoc(wg: Wg, n: nat, peers: seq<Peer>, es: seq<Entry>, e: Entry)
    ensures RemovalsAfter(wg, n, peers, es + [e])
      == RemovalsAfter(wg, n, peers, es) + RemovalsOfOne(wg, n + |es|, PeersAfter(wg, n, peers, es), e)
  {
    AfterSnoc(wg, n, peers, es, e);
  }

  lemma {:induction false} SessionsConcat(a: seq<Entry>, b: seq<Entry>)
    ensures SessionsOf(a + b) == SessionsOf(a) + SessionsOf(b)
    decreases |b|
  {
    if b == [] {
      assert a + b == a;
    } else {
      SessionsConcat(a, b[..|b| - 1]);
      assert (a + b)[..|a + b| - 1] == a + b[..|b| - 1];
    }
  }

  lemma FollowedConcat(wg: Wg, v: View, a: seq<Entry>, w: View, b: seq<Entry>, x: View)
    requires Followed(wg, v, a, w) && Followed(wg, w, b, x)
    ensures Followed(wg, v, a + b, x)
  {
    var n := |v.revocations|;
    assert x.revocations == v.revocations + (a + b) by { Assoc(v.revocations, a, b); }
    assert x.sessions == v.sessions + SessionsOf(a + b) by {
      SessionsConcat(a, b);
      Assoc(v.sessions, SessionsOf(a), SessionsOf(b));
    }
    assert x.peers == PeersAfter(wg, n, v.peers, a + b) by { PeersConcat(wg, n, v.peers, a, b); }
    assert x.removals == v.removals + RemovalsAfter(wg, n, v.peers, a + b) by {
      RemovalsConcat(wg, n, v.peers, a, b);
      Assoc(v.removals, RemovalsAfter(wg, n, v.peers, a), RemovalsAfter(wg, n + |a|, w.peers, b));
    }
  }

  /** What passes over `logs` leave: the last known states, and the revocations of each pass one after the other */
  ghost predicate Served(wg: Wg, v: View, logs: seq<seq<Entry>>, w: View) {
    w.known == KnownAfter(v.known, logs) && Followed(wg, v, Revoked(v.known, logs), w)
  }

  lemma ServedNext(wg: Wg, v: View, logs: seq<seq<Entry>>, i: nat, w: View, x: View)
    requires i < |logs| && Served(wg, v, logs[..i], w) && Passed(wg, w, logs[i], x)
    ensures Served(wg, v, logs[..i + 1], x)
  {
    assert logs[..i + 1][..i] == logs[..i];
    FollowedConcat(wg, v, Revoked(v.known, logs[..i]), w, Emit(w.known, logs[i]), x);
  }

  // ---- the program ----

  class Revoker {
    var deviceState: Known
    var userDevice: Known
    var revocations: seq<Entry>
    var sessions: seq<Json>
    var removals: seq<string>
    var peers: seq<Peer>
    const wg: Wg

    ghost predicate Valid()
      reads this
    {
      GoodPeers(peers) && GoodCells(wg.interface)
    }

    function Now(): View
      reads this
    {
      View(deviceState, userDevice, revocations, sessions, peers, removals)
    }

    constructor (wg: Wg, peers: seq<Peer>)
      requires GoodPeers(peers) && GoodCells(wg.interface)
      ensures Valid() && this.wg == wg && Now() == View(map[], map[], [], [], peers, [])
    {
      this.wg, this.peers := wg, peers;
      deviceState, userDevice, revocations, sessions, removals := map[], map[], [], [], [];
    }

    /** `remove_wireguard_peer`: the call is made; a refused one is logged and leaves the peer. */
    method RemovePeer(key: string, refuses: set<string>) returns (removed: bool)
      modifies `removals, `peers
      ensures removed <==> key !in refuses
      ensures removals == old(removals) + [key]
      ensures peers == if removed then Without(old(peers), key) else old(peers)
    {
      removals := removals + [key];
      removed := key !in refuses;
      if removed { peers := Without(peers, key); }
    }

    /** The inner loop over one peer's networks, up to the first that contains the device */
    method IsCovered(row: Row, device: Option<Addr>) returns (covered: bool)
      ensures covered == MatcherOf(wg.v6, device)(row.allowedIps)
    {
      var cidrs := Split(row.allowedIps, ',');
      assert cidrs[0..] == cidrs;
      for i := 0 to |cidrs|
        invariant AnyHit(wg.v6, device, cidrs) <==> AnyHit(wg.v6, device, cidrs[i..])
      {
        assert cidrs[i..][1..] == cidrs[i + 1..];
        var cidr := Strip(cidrs[i]);
        if cidr == "" { continue; }
        var net := ParseNet(wg.v6, cidr);
        if net.Some? && device.Some? && InNet(device.value, net.value) { return true; }
      }
      return false;
    }

    /** The outer loop over the list of peers: each covered one is removed. */
    method RemoveCovered(all: seq<Peer>, table: seq<Row>, device: Option<Addr>, refuses: set<string>)
      requires GoodPeers(all) && table == Rows(all) && peers == all
      modifies `removals, `peers
      ensures removals == old(removals) + Hits(MatcherOf(wg.v6, device), all)
      ensures peers == Keep(MatcherOf(wg.v6, device), refuses, all)
    {
      ghost var m := MatcherOf(wg.v6, device);
      NoRow(m, refuses, all, removals);
      for i := 0 to |table|
        invariant removals == old(removals) + Hits(m, all[..i])
        invariant peers == Keep(m, refuses, all[..i]) + all[i..]
      {
        var covered := IsCovered(table[i], device);
        NextRow(m, refuses, all, i, old(removals), covered);
        if covered { var _ := RemovePeer(table[i].key, refuses); }
      }
      AllRows(m, refuses, all);
    }

    /** `_revoke_device` */
    method RevokeDevice(e: Entry)
      requires Valid()
      modifies `revocations, `sessions, `removals, `peers
      ensures Valid() && Now() == Cut(wg, old(Now()), e)
    {
      var device, call := DeviceAddr(wg.v6, e.device), wg.calls(|revocations|);
      if call.listed {
        var table := GetPeers(Dump(wg.interface, peers));
        DumpReadsBack(wg.interface, peers);
        KeepIsGood(MatcherOf(wg.v6, device), call.refuses, peers);
        RemoveCovered(peers, table, device, call.refuses);
      } else {
        var table := GetPeers("");
        assert table == [];
      }
      if P.Truthy(e.email) { sessions := sessions + [e.email]; }
      revocations := revocations + [e];
    }

    /** The body of the loop over the log */
    method ProcessEntry(e: Entry)
      requires Valid()
      modifies this
      ensures Valid() && Now() == Step(wg, old(Now()), e)
    {
      if e.key in deviceState && deviceState[e.key] == Bool(true) && e.healthy == Bool(false) { RevokeDevice(e); }
      deviceState := deviceState[e.key := e.healthy];
      if P.Truthy(e.email) { userDevice := userDevice[e.key := e.email]; }
    }

    /**
     * `process_posture_log` on the lines of the log, `None` if it cannot be read. `failed` stands for an
     * exception, which ends the pass.
     */
    method ProcessLog(lines: Option<seq<string>>) returns (failed: bool)
      requires Valid()
      modifies this
      ensures Valid()
      ensures failed <==> lines.Some? && Aborts(lines.value)
      ensures Passed(wg, old(Now()), if lines.Some? then Entries(lines.value) else [], Now())
    {
      if lines.None? { return false; }
      var all := lines.value;
      for i := 0 to |all|
        invariant Valid() && !Aborts(all[..i])
        invariant Now() == Pass(wg, old(Now()), Entries(all[..i]))
      {
        assert all[..i + 1][..i] == all[..i];
        var line := ReadLine(all[i]);
        if line.Abort? {
          AbortsEarly(all, i + 1);
          PassMeans(wg, old(Now()), Entries(all));
          return true;
        }
        if line.Skip? { continue; }
        ProcessEntry(line.e);
        assert Entries(all[..i + 1])[..|Entries(all[..i])|] == Entries(all[..i]);
      }
      assert all[..|all|] == all;
      PassMeans(wg, old(Now()), Entries(all));
      return false;
    }

    /** The first passes of `main`, one for each state of the log; a pass that fails does not stop the next. */
    method Serve(logs: seq<Option<seq<string>>>)
      requires Valid()
      modifies this
      ensures Valid()
      ensures Served(wg, old(Now()), EntriesOf(logs), Now())
    {
      ghost var all := EntriesOf(logs);
      NothingIsServed(wg, Now(), all);
      for i := 0 to |logs|
        invariant Valid() && Served(wg, old(Now()), all[..i], Now())
      {
        ghost var before := Now();
        var _ := ProcessLog(logs[i]);
        ServedNext(wg, old(Now()), all, i, before, Now());
      }
      assert all[..|logs|] == all;
    }
  }

  lemma NothingIsServed(wg: Wg, v: View, logs: seq<seq<Entry>>)
    ensures Served(wg, v, logs[..0], v)
  {}

  function EntriesOf(logs: seq<Option<seq<string>>>): (r: seq<seq<Entry>>)
    ensures |r| == |logs|
  {
    seq(|logs|, i requires 0 <= i < |logs| => if logs[i].Some? then Entries(logs[i].value) else [])
  }

  /** A log of lines that only grows is a growing log of entries. */
  lemma GrowingLinesGrow(logs: seq<Option<seq<string>>>)
    requires forall i :: 0 <= i < |logs| ==> logs[i].Some?
    requires forall i, j :: 0 <= i <= j < |logs| ==> logs[i].value <= logs[j].value
    ensures Growing(EntriesOf(logs))
  {
    forall i, j | 0 <= i <= j < |logs| ensures EntriesOf(logs)[i] <= EntriesOf(logs)[j] {
      var shorter, longer := logs[i].value, logs[j].value;
      EntriesGrow(shorter, longer[|shorter|..]);
      assert shorter + longer[|shorter|..] == longer;
    }
  }

  lemma NoRow(m: Matcher, refuses: set<string>, all: seq<Peer>, start: seq<string>)
    ensures start == start + Hits(m, all[..0]) && all == Keep(m, refuses, all[..0]) + all[0..]
  {}

  lemma AllRows(m: Matcher, refuses: set<string>, all: seq<Peer>)
    ensures Hits(m, all[..|all|]) == Hits(m, all)
    ensures Keep(m, refuses, all[..|all|]) + all[|all|..] == Keep(m, refuses, all)
  {
    assert all[..|all|] == all;
  }

  /** What the loop over the list keeps */
  lemma NextRow(m: Matcher, refuses: set<string>, all: seq<Peer>, i: nat, start: seq<string>, covered: bool)
    requires GoodPeers(all) && i < |all| && covered == m(all[i].allowedIps)
    ensures var calls := start + Hits(m, all[..i]);
      start + Hits(m, all[..i + 1]) == if covered then calls + [all[i].key] else calls
    ensures var left := Keep(m, refuses, all[..i]) + all[i..];
      Keep(m, refuses, all[..i + 1]) + all[i + 1..]
        == if covered && all[i].key !in refuses then Without(left, all[i].key) else left
  {
    assert all[..i + 1][..i] == all[..i] && all[i..] == [all[i]] + all[i + 1..];
    RemoveNext(m, refuses, all, i);
    Assoc(start, Hits(m, all[..i]), [all[i].key]);
    Assoc(Keep(m, refuses, all[..i]), [all[i]], all[i + 1..]);
  }

  /** Nothing is read after the line that ends a pass. */
  lemma {:induction false} AbortsEarly(lines: seq<string>, n: nat)
    requires n <= |lines| && Aborts(lines[..n])
    ensures Aborts(lines) && Entries(lines) == Entries(lines[..n])
    decreases |lines|
  {
    if n == |lines| {
      assert lines[..n] == lines;
    } else {
      assert lines[..|lines| - 1][..n] == lines[..n];
      AbortsEarly(lines[..|lines| - 1], n);
    }
  }

  // ---- whole revocations ----

  /** Revocation number `n`, for entry `e`, removes the peer `p`. */
  predicate Removes(wg: Wg, n: nat, e: Entry, p: Peer) {
    wg.calls(n).listed && wg.Match(e)(p.allowedIps) && p.key !in wg.calls(n).refuses
  }

  lemma OneGoes(wg: Wg, n: nat, peers: seq<Peer>, e: Entry, p: Peer)
    ensures p in PeersAfterOne(wg, n, peers, e) <==> p in peers && !Removes(wg, n, e, p)
  {
    KeepIsSub(wg.Match(e), wg.calls(n).refuses, peers);
  }

  /** One of the revocations number `n` and on removes the peer. */
  predicate RemovedBy(wg: Wg, n: nat, es: seq<Entry>, p: Peer) {
    es != [] && (RemovedBy(wg, n, es[..|es| - 1], p) || Removes(wg, n + |es| - 1, es[|es| - 1], p))
  }

  /** Over any revocations, a peer goes exactly when one of them lists it, matches it and is not refused. */
  lemma {:induction false} OnlyMatchingPeersGo(wg: Wg, n: nat, peers: seq<Peer>, es: seq<Entry>, p: Peer)
    ensures p in PeersAfter(wg, n, peers, es) <==> p in peers && !RemovedBy(wg, n, es, p)
  {
    if es != [] {
      var front := es[..|es| - 1];
      OnlyMatchingPeersGo(wg, n, peers, front, p);
      LastRemoves(wg, n, peers, es, p, Removes(wg, n + |front|, es[|es| - 1], p));
    }
  }

  lemma LastRemoves(wg: Wg, n: nat, peers: seq<Peer>, es: seq<Entry>, p: Peer, removes: bool)
    requires es != [] && removes == Removes(wg, n + |es| - 1, es[|es| - 1], p)
    ensures p in PeersAfter(wg, n, peers, es) <==> p in PeersAfter(wg, n, peers, es[..|es| - 1]) && !removes
    ensures RemovedBy(wg, n, es, p) <==> RemovedBy(wg, n, es[..|es| - 1], p) || removes
  {
    OneGoes(wg, n + |es| - 1, PeersAfter(wg, n, peers, es[..|es| - 1]), es[|es| - 1], p);
  }
}
