/** What the revoker makes of a line of the posture log, in terms of the dict that was printed on it. */
module LogLines {
  import opened Basics
  import opened Json
  import opened JsonRoundTrip
  import opened JsonPrefix
  import opened Ip
  import opened Peers
  import opened PostureLog
  import opened Revoker
  import P = Posture

  /** The entry of a dict: three of its values, or the defaults of keys that it does not have, and the dict itself */
  predicate IsEntryOf(e: Entry, f: Fields) {
    && e.device == (if "device_id" in Keys(f) then Get(f, "device_id").value else Str("unknown"))
    && e.healthy == (if "healthy" in Keys(f) then Get(f, "healthy").value else Bool(false))
    && e.email == (if "user_email" in Keys(f) then Get(f, "user_email").value else Str(""))
    && e.raw == f && DictKey(e.device) == Some(e.key)
  }

  /** A line on which a dict was printed, with any blanks around it, is its entry; a list as the device ends the pass. */
  lemma PrintedLineIsEntry(f: Fields, l: Layout, before: string, after: string)
    requires WfFields(f) && AllBlank(before) && AllBlank(after)
    ensures var (line, d) := (ReadLine(before + Dumps(Obj(f), l) + after), GetOr(f, "device_id", Str("unknown")));
      if d.Arr? || d.Obj? then line.Abort? else line.Take? && IsEntryOf(line.e, f)
  {
    var text := Dumps(Obj(f), l);
    assert text != "" && Strip(before + text + after) == text by {
      DictInBraces(f, l);
      StripsBlanks(before, text, after);
    }
    assert Loads(text) == Some(Obj(f)) by { LoadsDumps(Obj(f), l, ""); }
    DictIsEntry(before + text + after, f);
  }

  lemma DictIsEntry(line: string, f: Fields)
    requires Strip(line) != "" && Loads(Strip(line)) == Some(Obj(f))
    ensures var (r, d) := (ReadLine(line), GetOr(f, "device_id", Str("unknown")));
      if d.Arr? || d.Obj? then r.Abort? else r.Take? && IsEntryOf(r.e, f)
  {}

  /** Blank and malformed lines are passed over; a document that is no dict ends the pass. */
  lemma OtherLines(line: string)
    ensures AllBlank(line) || Loads(Strip(line)).None? ==> ReadLine(line).Skip?
    ensures Loads(Strip(line)).Some? && !Loads(Strip(line)).value.Obj? ==> ReadLine(line).Abort?
  {
    if AllBlank(line) {
      StripsBlanks(line, "", "");
      assert line + "" + "" == line;
    }
    assert Loads("").None?;
  }

  /** Two devices are one key exactly if they are equal or a boolean and its number. */
  lemma KeysMean(a: Json, b: Json)
    requires DictKey(a).Some? && DictKey(b).Some?
    ensures DictKey(a) == DictKey(b) <==> (a == b || (a.Bool? && b == Int(if a.b then 1 else 0))
      || (b.Bool? && a == Int(if b.b then 1 else 0)))
  {}

  // ---- a log of printed lines ----

  /** The dict is printed on the line, in some layout and with some blanks around it, and its device is no list or dict. */
  ghost predicate Prints(line: string, f: Fields) {
    && WfFields(f) && DictKey(GetOr(f, "device_id", Str("unknown"))).Some?
    && exists l, before, after :: AllBlank(before) && AllBlank(after) && line == before + Dumps(Obj(f), l) + after
  }

  /** The entries of a log of printed dicts are those of the dicts, one for each line and in their order. */
  lemma {:induction false} PrintedLog(lines: seq<string>, fs: seq<Fields>)
    requires |lines| == |fs| && forall i :: 0 <= i < |fs| ==> Prints(lines[i], fs[i])
    ensures !Aborts(lines) && |Entries(lines)| == |fs|
    ensures forall i :: 0 <= i < |fs| ==> IsEntryOf(Entries(lines)[i], fs[i])
  {
    if lines != [] {
      var n := |lines| - 1;
      PrintedLog(lines[..n], fs[..n]);
      PrintedEntry(lines[n], fs[n]);
      LastEntry(lines, fs, ReadLine(lines[n]).e);
    }
  }

  lemma PrintedEntry(line: string, f: Fields)
    requires Prints(line, f)
    ensures ReadLine(line).Take? && IsEntryOf(ReadLine(line).e, f)
  {
    var l, before, after :| AllBlank(before) && AllBlank(after) && line == before + Dumps(Obj(f), l) + after;
    PrintedLineIsEntry(f, l, before, after);
  }

  lemma LastEntry(lines: seq<string>, fs: seq<Fields>, e: Entry)
    requires |lines| == |fs| > 0 && ReadLine(lines[|lines| - 1]) == Take(e) && IsEntryOf(e, fs[|fs| - 1])
    requires var (front, dicts) := (lines[..|lines| - 1], fs[..|fs| - 1]);
      && !Aborts(front) && |Entries(front)| == |dicts|
      && forall i :: 0 <= i < |dicts| ==> IsEntryOf(Entries(front)[i], dicts[i])
    ensures !Aborts(lines) && |Entries(lines)| == |fs|
    ensures forall i :: 0 <= i < |fs| ==> IsEntryOf(Entries(lines)[i], fs[i])
  {
    var front := lines[..|lines| - 1];
    assert Entries(lines) == Entries(front) + [e];
    forall i | 0 <= i < |fs| ensures IsEntryOf(Entries(lines)[i], fs[i]) {
      if i < |fs| - 1 { assert fs[..|fs| - 1][i] == fs[i]; }
    }
  }

  // ---- a device that fails ----

  /** The dict of a log entry for the device, its health and its user */
  predicate Reports(f: Fields, device: Json, healthy: bool, user: string) {
    && Get(f, "device_id") == Some(device) && Get(f, "healthy") == Some(Bool(healthy))
    && Get(f, "user_email") == Some(Str(user))
  }

  /** What a pass does that revokes the device once: the removals and sessions, in terms of the device and its user */
  ghost predicate RevokedOnce(wg: Wg, v: View, device: Json, user: string, f: Fields, w: View) {
    var (call, m) := (wg.calls(|v.revocations|), MatcherOf(wg.v6, DeviceAddr(wg.v6, device)));
    && |w.revocations| == |v.revocations| + 1 && w.revocations[..|v.revocations|] == v.revocations
    && IsEntryOf(w.revocations[|v.revocations|], f)
    && w.sessions == (if user == "" then v.sessions else v.sessions + [Str(user)])
    && w.removals == (if call.listed then v.removals + Hits(m, v.peers) else v.removals)
    && w.peers == (if call.listed then Keep(m, call.refuses, v.peers) else v.peers)
  }

  lemma TwoEntries(s: Known, a: Entry, b: Entry)
    requires a.key == b.key && a.healthy == Bool(true) && b.healthy == Bool(false)
    ensures Emit(s, [a, b]) == [b] && At(Final(s, [a, b]), a.key) == Some(Bool(false))
  {
    Snoc(s, [], a, a.key);
    Snoc(s, [a], b, b.key);
    assert [] + [a] == [a] && [a] + [b] == [a, b];
  }

  lemma OneRevocation(wg: Wg, v: View, e: Entry, w: View)
    requires Followed(wg, v, [e], w)
    ensures w.revocations == v.revocations + [e]
    ensures w.sessions == (if P.Truthy(e.email) then v.sessions + [e.email] else v.sessions)
    ensures w.peers == PeersAfterOne(wg, |v.revocations|, v.peers, e)
    ensures w.removals == v.removals + RemovalsOfOne(wg, |v.revocations|, v.peers, e)
  {
    AfterSnoc(wg, |v.revocations|, v.peers, [], e);
    assert [] + [e] == [e] && [e][..0] == [];
    assert SessionsOf([e]) == if P.Truthy(e.email) then [e.email] else [];
    assert [] + RemovalsOfOne(wg, |v.revocations|, v.peers, e) == RemovalsOfOne(wg, |v.revocations|, v.peers, e);
  }

  /**
   * Two lines report a device first healthy and then not: whatever the revoker knew before, the pass revokes the
   * device of the second line with its user, once, and leaves its state unhealthy.
   */
  lemma FailingDeviceIsRevoked(wg: Wg, v: View, first: string, second: string, f: Fields, g: Fields,
                               device: Json, user: string, other: string, w: View)
    requires Prints(first, f) && Prints(second, g)
    requires Reports(f, device, true, other) && Reports(g, device, false, user)
    requires Passed(wg, v, Entries([first, second]), w)
    ensures RevokedOnce(wg, v, device, user, g, w)
    ensures DictKey(device).Some? && At(w.known, DictKey(device).value) == Some(Bool(false))
  {
    var a, b := TwoPrinted(first, second, f, g);
    TwoEntries(v.known, a, b);
    OneRevocation(wg, v, b, w);
    assert v.removals + [] == v.removals;
  }

  lemma TwoPrinted(first: string, second: string, f: Fields, g: Fields) returns (a: Entry, b: Entry)
    requires Prints(first, f) && Prints(second, g)
    ensures Entries([first, second]) == [a, b] && IsEntryOf(a, f) && IsEntryOf(b, g)
  {
    PrintedLog([first, second], [f, g]);
    a, b := Entries([first, second])[0], Entries([first, second])[1];
    assert IsEntryOf(a, [f, g][0]) && IsEntryOf(b, [f, g][1]);
  }

  /** The same on texts: of the peers that list one IPv4 address each, exactly that of the device goes. */
  lemma FailingDeviceLosesItsPeer(wg: Wg, v: View, first: string, second: string, f: Fields, g: Fields,
                                  device: string, user: string, other: string, w: View, p: Peer, n: nat)
    requires Prints(first, f) && Prints(second, g)
    requires Reports(f, Str(device), true, other) && Reports(g, Str(device), false, user)
    requires Passed(wg, v, Entries([first, second]), w)
    requires Reader(wg.v6) && p in v.peers && n < LIMIT4 && p.allowedIps == Print4(n) + "/32"
    ensures var call := wg.calls(|v.revocations|);
      p !in w.peers <==> device == Print4(n) && call.listed && p.key !in call.refuses
  {
    FailingDeviceIsRevoked(wg, v, first, second, f, g, Str(device), user, other, w);
    LonePeersGo(wg.v6, device, wg.calls(|v.revocations|).refuses, v.peers, p, "", n);
  }
}
