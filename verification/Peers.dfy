/** The WireGuard peers of an interface: how they are listed, and which of them a device address matches. */
module Peers {
  import opened Basics
  import opened Json
  import opened Ip

  /** A peer as `wg show <interface> dump` prints it: three cells, its allowed addresses, and counters */
  datatype Peer = Peer(key: string, psk: string, endpoint: string, allowedIps: string, counters: seq<string>) {
    function Cells(): seq<string> { [key, psk, endpoint, allowedIps] + counters }
    function Line(): string { Join(Cells(), '\t') }
  }

  function Lines(peers: seq<Peer>): seq<string> {
    if peers == [] then [] else [peers[0].Line()] + Lines(peers[1..])
  }

  /** The output of the command: a line about the interface, then one for each peer */
  function Dump(interface: seq<string>, peers: seq<Peer>): string
    requires interface != []
  {
    Join([Join(interface, '\t')] + Lines(peers), '\n') + "\n"
  }

  // ---- reading the list ----

  /** An entry of the dict from public keys to allowed addresses */
  datatype Row = Row(key: string, allowedIps: string)

  function SetRow(table: seq<Row>, row: Row): seq<Row> {
    if table == [] then [row]
    else if table[0].key == row.key then [row] + table[1..]
    else [table[0]] + SetRow(table[1..], row)
  }

  function Table(lines: seq<string>): seq<Row> {
    if lines == [] then []
    else
      var front, parts := Table(lines[..|lines| - 1]), Split(lines[|lines| - 1], '\t');
      if |parts| >= 5 then SetRow(front, Row(parts[0], parts[3])) else front
  }

  function ParseDump(output: string): seq<Row> { Table(Split(Strip(output), '\n')[1..]) }

  /** `get_wireguard_peers` on the output of the command, which is empty if the command failed */
  method GetPeers(output: string) returns (peers: seq<Row>)
    ensures peers == ParseDump(output)
  {
    var lines := Split(Strip(output), '\n')[1..];
    peers := [];
    for i := 0 to |lines|
      invariant peers == Table(lines[..i])
    {
      var parts := Split(lines[i], '\t');
      assert lines[..i + 1][..i] == lines[..i];
      if |parts| >= 5 { peers := SetRow(peers, Row(parts[0], parts[3])); }
    }
    assert lines[..|lines|] == lines;
  }

  // ---- the list reads back ----

  /** A cell of the output: it is not empty and has no whitespace in it. */
  predicate Cell(s: string) { s != "" && forall c :: c in s ==> !IsBlank(c) }

  predicate GoodCells(parts: seq<string>) { parts != [] && forall p :: p in parts ==> Cell(p) }

  predicate GoodPeer(p: Peer) { GoodCells(p.Cells()) && |p.counters| >= 1 }

  /** WireGuard keeps one peer for each public key. */
  predicate GoodPeers(peers: seq<Peer>) {
    && (forall p :: p in peers ==> GoodPeer(p))
    && forall i, j :: 0 <= i < j < |peers| ==> peers[i].key != peers[j].key
  }

  predicate Trim(s: string) { s != "" && !IsBlank(s[0]) && !IsBlank(s[|s| - 1]) }

  lemma {:induction false} JoinIsTrim(parts: seq<string>, c: char)
    requires parts != [] && forall p :: p in parts ==> Trim(p)
    ensures Trim(Join(parts, c))
  {
    assert Trim(parts[0]);
    if |parts| > 1 {
      JoinIsTrim(parts[1..], c);
      var s, rest := Join(parts, c), Join(parts[1..], c);
      assert s == (parts[0] + [c]) + rest;
      assert s[|s| - 1] == rest[|rest| - 1];
      assert s[0] == parts[0][0];
    }
  }

  lemma {:induction false} JoinAvoids(parts: seq<string>, c: char, x: char)
    requires parts != [] && x != c && forall p :: p in parts ==> x !in p
    ensures x !in Join(parts, c)
  {
    if |parts| > 1 { JoinAvoids(parts[1..], c, x); }
  }

  lemma StripEnds(s: string)
    requires Trim(s)
    ensures Strip(s + "\n") == s
  {
    assert (s + "\n")[..|s|] == s;
  }

  lemma LineOfCells(parts: seq<string>)
    requires GoodCells(parts)
    ensures Trim(Join(parts, '\t')) && '\n' !in Join(parts, '\t') && Split(Join(parts, '\t'), '\t') == parts
  {
    JoinIsTrim(parts, '\t');
    JoinAvoids(parts, '\t', '\n');
    SplitJoin(parts, '\t');
  }

  lemma {:induction false} LinesAre(peers: seq<Peer>)
    ensures |Lines(peers)| == |peers|
    ensures forall i :: 0 <= i < |peers| ==> Lines(peers)[i] == peers[i].Line()
  {
    if peers != [] { LinesAre(peers[1..]); }
  }

  function Rows(peers: seq<Peer>): (r: seq<Row>)
    ensures |r| == |peers|
    ensures forall i :: 0 <= i < |peers| ==> r[i] == Row(peers[i].key, peers[i].allowedIps)
  {
    seq(|peers|, i requires 0 <= i < |peers| => Row(peers[i].key, peers[i].allowedIps))
  }

  lemma {:induction false} SetNewRow(table: seq<Row>, row: Row)
    requires forall r :: r in table ==> r.key != row.key
    ensures SetRow(table, row) == table + [row]
  {
    if table != [] { SetNewRow(table[1..], row); }
  }

  lemma {:induction false} LinesSnoc(peers: seq<Peer>)
    requires peers != []
    ensures Lines(peers) == Lines(peers[..|peers| - 1]) + [peers[|peers| - 1].Line()]
  {
    if |peers| > 1 {
      LinesSnoc(peers[1..]);
      assert peers[1..][..|peers| - 2] == peers[..|peers| - 1][1..];
    }
  }

  lemma TableStep(lines: seq<string>, line: string)
    requires |Split(line, '\t')| >= 5
    ensures Table(lines + [line]) == SetRow(Table(lines), Row(Split(line, '\t')[0], Split(line, '\t')[3]))
  {
    assert (lines + [line])[..|lines|] == lines;
  }

  /** A line of fewer than five cells adds nothing; one with a known key replaces that key's addresses. */
  lemma NextLine(lines: seq<string>, line: string, key: string)
    ensures |Split(line, '\t')| < 5 ==> Table(lines + [line]) == Table(lines)
    ensures |Split(line, '\t')| >= 5 ==>
      var (before, after) := (AddressesOf(Table(lines), key), AddressesOf(Table(lines + [line]), key));
      after == if key == Split(line, '\t')[0] then Some(Split(line, '\t')[3]) else before
  {
    assert (lines + [line])[..|lines|] == lines;
    if |Split(line, '\t')| >= 5 {
      SetRowMeans(Table(lines), Row(Split(line, '\t')[0], Split(line, '\t')[3]), key);
    }
  }

  function AddressesOf(table: seq<Row>, key: string): Option<string> {
    if table == [] then None else if table[0].key == key then Some(table[0].allowedIps) else AddressesOf(table[1..], key)
  }

  lemma {:induction false} SetRowMeans(table: seq<Row>, row: Row, key: string)
    ensures AddressesOf(SetRow(table, row), key) == if key == row.key then Some(row.allowedIps) else AddressesOf(table, key)
  {
    if table != [] { SetRowMeans(table[1..], row, key); }
  }

  lemma NextIsNewRow(peers: seq<Peer>)
    requires GoodPeers(peers) && peers != []
    ensures var (front, last) := (peers[..|peers| - 1], peers[|peers| - 1]);
      SetRow(Rows(front), Row(last.key, last.allowedIps)) == Rows(peers)
  {
    var front, last := peers[..|peers| - 1], peers[|peers| - 1];
    SetNewRow(Rows(front), Row(last.key, last.allowedIps));
    assert Rows(peers) == Rows(front) + [Row(last.key, last.allowedIps)];
  }

  lemma LineIsRow(p: Peer)
    requires GoodPeer(p)
    ensures var parts := Split(p.Line(), '\t'); |parts| >= 5 && parts[0] == p.key && parts[3] == p.allowedIps
  {
    LineOfCells(p.Cells());
  }

  lemma {:induction false} TableOfLines(peers: seq<Peer>)
    requires GoodPeers(peers)
    ensures Table(Lines(peers)) == Rows(peers)
  {
    if peers != [] {
      var front, last := peers[..|peers| - 1], peers[|peers| - 1];
      TableOfLines(front);
      LinesSnoc(peers);
      assert GoodPeer(last);
      LineIsRow(last);
      TableStep(Lines(front), last.Line());
      NextIsNewRow(peers);
    }
  }

  /** The list that the revoker reads is the list of the interface's peers. */
  lemma DumpReadsBack(interface: seq<string>, peers: seq<Peer>)
    requires GoodCells(interface) && GoodPeers(peers)
    ensures ParseDump(Dump(interface, peers)) == Rows(peers)
  {
    var lines := [Join(interface, '\t')] + Lines(peers);
    LinesAre(peers);
    LineOfCells(interface);
    forall l | l in lines ensures Trim(l) && '\n' !in l {
      if l != lines[0] {
        var i :| 0 <= i < |peers| && l == peers[i].Line();
        assert GoodPeer(peers[i]);
        LineOfCells(peers[i].Cells());
      }
    }
    JoinIsTrim(lines, '\n');
    StripEnds(Join(lines, '\n'));
    SplitJoin(lines, '\n');
    TableOfLines(peers);
  }

  // ---- which peers a device matches ----

  /** `ip_address(device_id)`; `None` stands for `ValueError`. Numbers are addresses too. */
  function DeviceAddr(v6: V6, device: Json): Option<Addr> {
    match device
    case Str(s) => ParseAddr(v6, s)
    case Int(n) => NumberAddr(n)
    case Bool(b) => NumberAddr(if b then 1 else 0)
    case _ => None
  }

  function NumberAddr(n: int): Option<Addr> {
    if 0 <= n < LIMIT4 then Some(Addr(Four, n)) else if 0 <= n < LIMIT6 then Some(Addr(Six, n)) else None
  }

  /** One text of a list of allowed addresses is a network with the device in it. */
  predicate Hit(v6: V6, device: Option<Addr>, cidr: string) {
    && Strip(cidr) != "" && ParseNet(v6, Strip(cidr)).Some?
    && device.Some? && InNet(device.value, ParseNet(v6, Strip(cidr)).value)
  }

  predicate Matches(v6: V6, device: Option<Addr>, allowedIps: string) {
    AnyHit(v6, device, Split(allowedIps, ','))
  }

  predicate AnyHit(v6: V6, device: Option<Addr>, cidrs: seq<string>) {
    cidrs != [] && (Hit(v6, device, cidrs[0]) || AnyHit(v6, device, cidrs[1..]))
  }

  lemma {:induction false} AnyHitMeans(v6: V6, device: Option<Addr>, cidrs: seq<string>)
    ensures AnyHit(v6, device, cidrs) <==> exists c :: c in cidrs && Hit(v6, device, c)
  {
    if cidrs != [] {
      AnyHitMeans(v6, device, cidrs[1..]);
      assert forall c :: c in cidrs <==> c == cidrs[0] || c in cidrs[1..];
    }
  }

  /** The lists of allowed addresses that match a device */
  type Matcher = string -> bool

  function MatcherOf(v6: V6, device: Option<Addr>): Matcher { allowedIps => Matches(v6, device, allowedIps) }

  /** The keys of the matching peers, in the order of the list */
  function Hits(m: Matcher, peers: seq<Peer>): seq<string> {
    if peers == [] then []
    else
      var front, last := Hits(m, peers[..|peers| - 1]), peers[|peers| - 1];
      if m(last.allowedIps) then front + [last.key] else front
  }

  /** The peers that remain when the matching ones are removed, except where the interface refuses */
  function Keep(m: Matcher, refuses: set<string>, peers: seq<Peer>): seq<Peer> {
    if peers == [] then []
    else
      var front, last := Keep(m, refuses, peers[..|peers| - 1]), peers[|peers| - 1];
      if m(last.allowedIps) && last.key !in refuses then front else front + [last]
  }

  function Without(peers: seq<Peer>, key: string): seq<Peer> {
    if peers == [] then []
    else
      var front := Without(peers[..|peers| - 1], key);
      if peers[|peers| - 1].key == key then front else front + [peers[|peers| - 1]]
  }

  lemma {:induction false} WithoutConcat(a: seq<Peer>, b: seq<Peer>, key: string)
    ensures Without(a + b, key) == Without(a, key) + Without(b, key)
    decreases |b|
  {
    if b == [] {
      assert a + b == a;
    } else {
      WithoutConcat(a, b[..|b| - 1], key);
      assert (a + b)[..|a + b| - 1] == a + b[..|b| - 1];
    }
  }

  lemma {:induction false} WithoutOther(peers: seq<Peer>, key: string)
    requires forall p :: p in peers ==> p.key != key
    ensures Without(peers, key) == peers
  {
    if peers != [] { WithoutOther(peers[..|peers| - 1], key); }
  }

  lemma {:induction false} KeepIsSub(m: Matcher, refuses: set<string>, peers: seq<Peer>)
    ensures forall p :: p in Keep(m, refuses, peers) <==>
      p in peers && !(m(p.allowedIps) && p.key !in refuses)
  {
    if peers != [] {
      var front := peers[..|peers| - 1];
      KeepIsSub(m, refuses, front);
      assert peers == front + [peers[|peers| - 1]];
    }
  }

  lemma {:induction false} KeepIsGood(m: Matcher, refuses: set<string>, peers: seq<Peer>)
    requires GoodPeers(peers)
    ensures GoodPeers(Keep(m, refuses, peers))
  {
    if peers != [] {
      var front := peers[..|peers| - 1];
      KeepIsGood(m, refuses, front);
      KeepIsSub(m, refuses, front);
    }
  }

  /** Removing the peer at `i` after the matching ones before it have been removed */
  lemma RemoveNext(m: Matcher, refuses: set<string>, peers: seq<Peer>, i: nat)
    requires GoodPeers(peers) && i < |peers|
    ensures Without(Keep(m, refuses, peers[..i]) + peers[i..], peers[i].key)
      == Keep(m, refuses, peers[..i]) + peers[i + 1..]
  {
    KeepIsSub(m, refuses, peers[..i]);
    WithoutMiddle(Keep(m, refuses, peers[..i]), peers[i], peers[i + 1..]);
    assert peers[i..] == [peers[i]] + peers[i + 1..];
  }

  lemma WithoutMiddle(a: seq<Peer>, p: Peer, b: seq<Peer>)
    requires forall q :: q in a || q in b ==> q.key != p.key
    ensures Without(a + ([p] + b), p.key) == a + b
  {
    WithoutConcat(a, [p] + b, p.key);
    WithoutConcat([p], b, p.key);
    WithoutOther(a, p.key);
    WithoutOther(b, p.key);
    assert Without([p], p.key) == [] by { assert [p][..0] == []; }
  }

  lemma {:induction false} HitsAre(m: Matcher, peers: seq<Peer>)
    ensures forall k :: k in Hits(m, peers) <==>
      exists p :: p in peers && p.key == k && m(p.allowedIps)
  {
    if peers != [] {
      var front, last := peers[..|peers| - 1], peers[|peers| - 1];
      HitsAre(m, front);
      assert peers == front + [last];
      forall k ensures k in Hits(m, peers) <==>
        exists p :: p in peers && p.key == k && m(p.allowedIps)
      {
        if k in Hits(m, front) {
          var p :| p in front && p.key == k && m(p.allowedIps);
          assert p in peers;
        }
      }
    }
  }

  predicate Distinct(keys: seq<string>) { forall i, j :: 0 <= i < j < |keys| ==> keys[i] != keys[j] }

  lemma {:induction false} HitsAreDistinct(m: Matcher, peers: seq<Peer>)
    requires GoodPeers(peers)
    ensures Distinct(Hits(m, peers))
  {
    if peers != [] {
      var front, last := peers[..|peers| - 1], peers[|peers| - 1];
      HitsAreDistinct(m, front);
      HitsAre(m, front);
      assert forall p :: p in front ==> p.key != last.key;
      assert last.key !in Hits(m, front);
    }
  }

  /** A text of the list is a network of the device's IP version whose block holds the device's address. */
  predicate Covers(v6: V6, device: Option<Addr>, cidr: string) {
    && Strip(cidr) != "" && device.Some?
    && match ParseNet(v6, Strip(cidr))
       case None => false
       case Some(net) => net.prefix <= net.version.Bits() && InBlock(device.value, net)
  }

  predicate Covered(v6: V6, device: Option<Addr>, allowedIps: string) {
    exists c :: c in Split(allowedIps, ',') && Covers(v6, device, c)
  }

  lemma DeviceIsValid(v6: V6, device: Json)
    requires Bounded(v6) && DeviceAddr(v6, device).Some?
    ensures ValidAddr(DeviceAddr(v6, device).value)
  {
    if device.Str? { ParsedAddr(v6, device.s); }
    Limits();
  }

  lemma HitMeans(v6: V6, device: Option<Addr>, cidr: string)
    requires Bounded(v6) && (device.Some? ==> ValidAddr(device.value))
    ensures Hit(v6, device, cidr) <==> Covers(v6, device, cidr)
  {
    if device.Some? && ParseNet(v6, Strip(cidr)).Some? { NetIsInterval(v6, Strip(cidr), device.value); }
  }

  lemma MatchesMeans(v6: V6, device: Option<Addr>, allowedIps: string)
    requires Bounded(v6) && (device.Some? ==> ValidAddr(device.value))
    ensures Matches(v6, device, allowedIps) <==> Covered(v6, device, allowedIps)
  {
    var parts := Split(allowedIps, ',');
    AnyHitMeans(v6, device, parts);
    forall c ensures Hit(v6, device, c) <==> Covers(v6, device, c) { HitMeans(v6, device, c); }
  }

  /**
   * A revocation is exact: the removal calls name exactly the peers with an allowed network that contains the
   * device, each once, and when the interface obeys exactly those peers are gone.
   */
  lemma RevocationIsExact(v6: V6, device: Json, peers: seq<Peer>)
    requires Bounded(v6) && GoodPeers(peers)
    ensures var (addr, m) := (DeviceAddr(v6, device), MatcherOf(v6, DeviceAddr(v6, device)));
      && (forall k :: k in Hits(m, peers) <==> exists p :: p in peers && p.key == k && Covered(v6, addr, p.allowedIps))
      && Distinct(Hits(m, peers))
      && (forall p :: p in Keep(m, {}, peers) <==> p in peers && !Covered(v6, addr, p.allowedIps))
  {
    var addr := DeviceAddr(v6, device);
    var m := MatcherOf(v6, addr);
    if addr.Some? { DeviceIsValid(v6, device); }
    forall s ensures m(s) <==> Covered(v6, addr, s) { MatchesMeans(v6, addr, s); }
    HitsAre(m, peers);
    HitsAreDistinct(m, peers);
    KeepIsSub(m, {}, peers);
    forall k ensures k in Hits(m, peers) <==> exists p :: p in peers && p.key == k && Covered(v6, addr, p.allowedIps) {
      if p :| p in peers && p.key == k && Covered(v6, addr, p.allowedIps) { assert m(p.allowedIps); }
    }
  }

  // ---- the same on texts ----

  /** Which values of a log's device are addresses; a number is one, too, and means the text that it prints. */
  lemma DeviceMeans(v6: V6, n: int)
    ensures 0 <= n < LIMIT4 ==> DeviceAddr(v6, Int(n)) == DeviceAddr(v6, Str(Print4(n))) == Some(Addr(Four, n))
    ensures LIMIT4 <= n < LIMIT6 ==> DeviceAddr(v6, Int(n)) == Some(Addr(Six, n))
    ensures n < 0 || LIMIT6 <= n ==> DeviceAddr(v6, Int(n)).None?
    ensures DeviceAddr(v6, Bool(true)) == Some(Addr(Four, 1)) && DeviceAddr(v6, Bool(false)) == Some(Addr(Four, 0))
    ensures forall v: Json :: v.Null? || v.Arr? || v.Obj? ==> DeviceAddr(v6, v).None?
  {
    if 0 <= n < LIMIT4 { PrintedParses4(n); }
  }

  lemma OneText(v6: V6, device: Option<Addr>, s: string, suffix: string)
    requires ',' !in s && ',' !in suffix && s != "" && suffix != ""
    requires !IsBlank(s[0]) && !IsBlank(suffix[|suffix| - 1])
    ensures Matches(v6, device, s + suffix) <==>
      device.Some? && ParseNet(v6, s + suffix).Some? && InNet(device.value, ParseNet(v6, s + suffix).value)
  {
    var t := s + suffix;
    SplitCell(t, ',', "");
    assert Split(t, ',') == [t] && Split(t, ',')[1..] == [];
    assert t[0] == s[0] && t[|t| - 1] == suffix[|suffix| - 1];
    assert Strip(t) == t;
    assert !AnyHit(v6, device, Split(t, ',')[1..]);
    assert AnyHit(v6, device, Split(t, ',')) <==> Hit(v6, device, t);
  }

  lemma LoneMatch4(v6: V6, device: string, n: nat)
    requires Reader(v6) && n < LIMIT4
    ensures Matches(v6, DeviceAddr(v6, Str(device)), Print4(n) + "/32") <==> device == Print4(n)
  {
    var addr := DeviceAddr(v6, Str(device));
    assert ',' !in Print4(n) && Print4(n) != "" && !IsBlank(Print4(n)[0]) by {
      PlainText(n);
      assert Print4(n)[0] in Print4(n);
    }
    OneText(v6, addr, Print4(n), "/32");
    assert Print4(n) + "/32" == Print4(n) + "/" + Decimal(32) by {
      DecimalIsPositional(3, 2);
      assert "/" + Decimal(32) == "/32";
    }
    assert addr == Some(Addr(Four, n)) <==> device == Print4(n) by { ParsePrint4(device, n); }
    if addr.Some? {
      DeviceIsValid(v6, Str(device));
      Cidr4Means(v6, n, 32, addr.value);
      assert Pow2(0) == 1;
    }
  }

  lemma LoneMatch6(v6: V6, device: string, s: string, n: nat)
    requires Reader(v6) && v6(s) == Some(n) && ',' !in s && !IsBlank(s[0])
    ensures Matches(v6, DeviceAddr(v6, Str(device)), s + "/128") <==> v6(device) == Some(n)
  {
    var addr := DeviceAddr(v6, Str(device));
    OneText(v6, addr, s, "/128");
    assert s + "/128" == s + "/" + Decimal(128) by {
      DecimalIsPositional(12, 8);
      DecimalIsPositional(1, 2);
      assert "/" + Decimal(128) == "/128";
    }
    SixDevice(v6, device, n);
    if addr.Some? {
      DeviceIsValid(v6, Str(device));
      Cidr6Means(v6, s, n, 128, addr.value);
      assert Pow2(0) == 1;
    }
  }

  lemma SixDevice(v6: V6, device: string, n: nat)
    requires Reader(v6)
    ensures DeviceAddr(v6, Str(device)) == Some(Addr(Six, n)) <==> v6(device) == Some(n)
  {
    if Parse4(device).Some? {
      ParsePrint4(device, Parse4(device).value);
      PlainText(Parse4(device).value);
      assert v6(device).None?;
    }
  }

  /**
   * A peer that lists one address only, as the interface prints it, goes exactly when the logged text of the device
   * is that address: the same text for version 4, any text of the same number for version 6.
   */
  lemma LonePeersGo(v6: V6, device: string, refuses: set<string>, peers: seq<Peer>, p: Peer, s: string, n: nat)
    requires Reader(v6) && p in peers
    ensures var left := Keep(MatcherOf(v6, DeviceAddr(v6, Str(device))), refuses, peers);
      && (n < LIMIT4 && p.allowedIps == Print4(n) + "/32" ==>
            (p !in left <==> device == Print4(n) && p.key !in refuses))
      && (v6(s) == Some(n) && ',' !in s && !IsBlank(s[0]) && p.allowedIps == s + "/128" ==>
            (p !in left <==> v6(device) == Some(n) && p.key !in refuses))
  {
    var m := MatcherOf(v6, DeviceAddr(v6, Str(device)));
    KeepIsSub(m, refuses, peers);
    assert m(p.allowedIps) == Matches(v6, DeviceAddr(v6, Str(device)), p.allowedIps);
    if n < LIMIT4 && p.allowedIps == Print4(n) + "/32" { LoneMatch4(v6, device, n); }
    if v6(s) == Some(n) && ',' !in s && !IsBlank(s[0]) && p.allowedIps == s + "/128" { LoneMatch6(v6, device, s, n); }
  }
}
