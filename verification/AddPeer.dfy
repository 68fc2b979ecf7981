/**
 * Which addresses a new peer may have: the check of the provisioning script, which does its arithmetic in bash,
 * and that of the bridge, which compares the text of the address with the text of the subnet.
 */
module AddPeer {
  import opened Basics
  import opened Ip
  import opened Json
  import opened Allocator
  import B = Base64

  // ---- validate_ip of the provisioning script ----

  const PREFIX := "10.8.0."

  function Octal(s: string): nat
    requires AllDigits(s)
  {
    if s == "" then 0 else 8 * Octal(s[..|s| - 1]) + (s[|s| - 1] as int - 48)
  }

  /** Numbers of 64 bits with a sign */
  function Wrap(n: nat): int {
    var m := n % 0x1_0000_0000_0000_0000;
    if m < 0x8000_0000_0000_0000 then m else m - 0x1_0000_0000_0000_0000
  }

  /** What a digit string is in an arithmetic test: octal after a leading zero; `None` stands for an error. */
  function BashNumber(s: string): Option<int>
    requires s != "" && AllDigits(s)
  {
    if s[0] != '0' then Some(Wrap(Numeral(s)))
    else if '8' in s || '9' in s then None
    else Some(Wrap(Octal(s)))
  }

  /** A test that is an error fails, and both tests are for rejection. */
  predicate HostAccepted(digits: string)
    requires digits != "" && AllDigits(digits)
  {
    match BashNumber(digits)
    case Some(n) => 2 <= n <= 254
    case None => true
  }

  predicate ValidateIp(ip: string) {
    && PREFIX <= ip
    && var digits := ip[|PREFIX|..];
    && digits != "" && AllDigits(digits) && HostAccepted(digits)
  }

  lemma SplitPrefixed(digits: string)
    requires '.' !in digits
    ensures Split(PREFIX + digits, '.') == ["10", "8", "0", digits]
  {
    var t1 := "0" + ['.'] + digits;
    var t2 := "8" + ['.'] + t1;
    SplitCell(digits, '.', "");
    SplitCell("0", '.', digits);
    SplitCell("8", '.', t1);
    SplitCell("10", '.', t2);
    assert PREFIX + digits == "10" + ['.'] + t2;
  }

  lemma NumeralBound(s: string)
    requires AllDigits(s) && |s| <= 3
    ensures Numeral(s) <= 999
  {
    if s != "" {
      var t := s[..|s| - 1];
      if t != "" {
        var u := t[..|t| - 1];
        if u != "" { assert Numeral(u[..|u| - 1]) == 0; }
      }
    }
  }

  lemma PrefixedAddress(digits: string)
    requires digits != "" && AllDigits(digits)
    ensures Parse4(PREFIX + digits).Some? <==> Octet(digits)
  {
    SplitPrefixed(digits);
    assert Octet("10") && Octet("8") && Octet("0") by {
      assert "10"[..1] == "1" && Numeral("1") == 1 && Numeral("8") == 8 && Numeral("0") == 0;
    }
  }

  lemma OctetsAccepted(digits: string)
    requires digits != "" && AllDigits(digits)
    ensures Octet(digits) ==> (HostAccepted(digits) <==> 2 <= Numeral(digits) <= 254)
    ensures HostAccepted(digits) ==> (Octet(digits) <==> Canonical(digits) && |digits| <= 3)
  {
    if |digits| <= 3 { NumeralBound(digits); }
    if digits == "0" { assert digits[..0] == "" && Octal(digits) == 0 && Numeral(digits) == 0; }
  }

  lemma HostOf(digits: string)
    requires Octet(digits) && 2 <= Numeral(digits) <= 254
    ensures exists h: nat :: 2 <= h <= 254 && digits == Decimal(h)
  {
    NumeralPrintsBack(digits);
  }

  /**
   * What the script accepts. Of the texts that are addresses, exactly the hosts 2 to 254 of its subnet; of the
   * texts that it accepts, exactly those are addresses that write the host as a plain number of up to three
   * digits. Others get through: 10.8.0.08 by an error in the test, 10.8.0.010 as octal, and numbers past 64 bits.
   */
  lemma ValidateIpMeans(ip: string)
    ensures Parse4(ip).Some? ==> (ValidateIp(ip) <==> exists h: nat :: 2 <= h <= 254 && ip == PREFIX + Decimal(h))
    ensures ValidateIp(ip) ==> (Parse4(ip).Some? <==> Canonical(ip[|PREFIX|..]) && |ip| <= |PREFIX| + 3)
  {
    if ValidateIp(ip) {
      var digits := ip[|PREFIX|..];
      assert ip == PREFIX + digits;
      PrefixedAddress(digits);
      OctetsAccepted(digits);
      if Parse4(ip).Some? { HostOf(digits); }
    } else if h: nat :| 2 <= h <= 254 && ip == PREFIX + Decimal(h) {
      assert ip[|PREFIX|..] == Decimal(h);
      DecimalIsOctet(h);
      OctetsAccepted(Decimal(h));
    }
  }

  /** Two texts that the script accepts and that are no addresses */
  lemma OddTextsAreAccepted()
    ensures ValidateIp(PREFIX + "08") && Parse4(PREFIX + "08").None?
    ensures ValidateIp(PREFIX + "010") && Parse4(PREFIX + "010").None?
  {
    PrefixedAddress("08");
    PrefixedAddress("010");
    assert (PREFIX + "08")[|PREFIX|..] == "08" && "08"[1] == '8';
    assert (PREFIX + "010")[|PREFIX|..] == "010";
    assert "010"[..2] == "01" && "01"[..1] == "0" && "0"[..0] == "";
    assert Octal("0") == 0 && Octal("01") == 1 && Octal("010") == 8;
  }

  /** Every address that the bridge proposes for the script's subnet passes the script's check. */
  lemma ProposalsAreAccepted(h: nat)
    requires 10 <= h < 255
    ensures ValidateIp(Candidate("10.8.0", h)) && Parse4(Candidate("10.8.0", h)).Some?
  {
    assert Candidate("10.8.0", h) == PREFIX + Decimal(h);
    DecimalIsOctet(h);
    PrefixedAddress(Decimal(h));
    ValidateIpMeans(PREFIX + Decimal(h));
  }

  // ---- the bridge's check of a requested address ----

  /** The address must be IPv4, and its text must start with the text of the subnet. */
  predicate InSubnetText(subnet: string, s: string) { Parse4(s).Some? && subnet <= s }

  lemma {:induction false} SplitPrefix(p: string, s: string, c: char)
    requires p <= s
    ensures var (a, b) := (Split(p, c), Split(s, c));
      CutEarlier(a, b)
  {
    if p != "" {
      SplitPrefix(p[1..], s[1..], c);
      CellsPrefix(Split(p[1..], c), Split(s[1..], c), p[0]);
    }
  }

  /** The cells `a` of a text are those of a longer text `b`, but the last one may be cut. */
  predicate CutEarlier(a: seq<string>, b: seq<string>) {
    1 <= |a| <= |b| && a[..|a| - 1] == b[..|a| - 1] && a[|a| - 1] <= b[|a| - 1]
  }

  /** One more character before two cut texts */
  lemma CellsPrefix(a: seq<string>, b: seq<string>, x: char)
    requires CutEarlier(a, b)
    ensures CutEarlier([""] + a, [""] + b)
    ensures CutEarlier([[x] + a[0]] + a[1..], [[x] + b[0]] + b[1..])
  {
    assert forall i :: 0 <= i < |a| - 1 ==> a[i] == a[..|a| - 1][i] == b[..|a| - 1][i] == b[i];
  }

  lemma {:induction false} DecimalPrefix(c: nat, x: nat)
    ensures Decimal(c) <= Decimal(x) <==> c == x || (x >= 10 && Decimal(c) <= Decimal(x / 10))
  {
    var p, s := Decimal(c), Decimal(x);
    DecimalReadsBack(c);
    DecimalReadsBack(x);
    if x >= 10 {
      assert s == Decimal(x / 10) + [Digit(x % 10)];
    }
    if p <= s {
      if |p| == |s| { assert p == s; }
      if |p| < |s| && x >= 10 { assert p <= s[..|s| - 1] && s[..|s| - 1] == Decimal(x / 10); }
    }
  }

  lemma CellsOf(a: nat, b: nat, c: nat)
    requires Three(a, b, c)
    ensures Split(Subnet(a, b, c), '.') == [Decimal(a), Decimal(b), Decimal(c)]
    ensures Subnet(a, b, c) == Decimal(a) + ['.'] + (Decimal(b) + ['.'] + Decimal(c))
  {
    DecimalIsOctet(a);
    DecimalIsOctet(b);
    DecimalIsOctet(c);
    SplitJoin([Decimal(a), Decimal(b), Decimal(c)], '.');
    JoinThree(Decimal(a), Decimal(b), Decimal(c));
  }

  lemma SubnetPrefix(a: nat, b: nat, c: nat, n: nat)
    requires Three(a, b, c) && n < LIMIT4
    ensures Subnet(a, b, c) <= Print4(n) <==>
      n / 0x1000000 == a && n / 0x10000 % 256 == b && Decimal(c) <= Decimal(n / 0x100 % 256)
  {
    if Subnet(a, b, c) <= Print4(n) { PrefixHasNumbers(a, b, c, n); }
    if n / 0x1000000 == a && n / 0x10000 % 256 == b && Decimal(c) <= Decimal(n / 0x100 % 256) {
      NumbersArePrefix(a, b, c, n);
    }
  }

  lemma PrefixHasNumbers(a: nat, b: nat, c: nat, n: nat)
    requires Three(a, b, c) && n < LIMIT4 && Subnet(a, b, c) <= Print4(n)
    ensures n / 0x1000000 == a && n / 0x10000 % 256 == b && Decimal(c) <= Decimal(n / 0x100 % 256)
  {
    CellsOf(a, b, c);
    SplitPrinted(n);
    SplitPrefix(Subnet(a, b, c), Print4(n), '.');
    CutCells(Decimal(a), Decimal(b), Decimal(c), Octets(n));
    DecimalIsInjective(a, n / 0x1000000);
    DecimalIsInjective(b, n / 0x10000 % 256);
  }

  lemma CutCells(p: string, q: string, r: string, cells: seq<string>)
    requires CutEarlier([p, q, r], cells)
    ensures cells[0] == p && cells[1] == q && r <= cells[2]
  {
    assert [p, q, r][..2][0] == p && [p, q, r][..2][1] == q;
    assert cells[..2][0] == cells[0] && cells[..2][1] == cells[1];
  }

  lemma DecimalIsInjective(m: nat, n: nat)
    ensures Decimal(m) == Decimal(n) ==> m == n
  {
    DecimalReadsBack(m);
    DecimalReadsBack(n);
  }

  lemma NumbersArePrefix(a: nat, b: nat, c: nat, n: nat)
    requires Three(a, b, c) && n < LIMIT4
    requires n / 0x1000000 == a && n / 0x10000 % 256 == b && Decimal(c) <= Decimal(n / 0x100 % 256)
    ensures Subnet(a, b, c) <= Print4(n)
  {
    CellsOf(a, b, c);
    JoinFour(Decimal(a), Decimal(b), Decimal(n / 0x100 % 256), Decimal(n % 256));
    Extend(Decimal(a), Decimal(b), Decimal(c), Decimal(n / 0x100 % 256), Decimal(n % 256));
  }

  lemma SplitPrinted(n: nat)
    requires n < LIMIT4
    ensures Split(Print4(n), '.') == Octets(n)
  {
    DecimalIsOctet(n / 0x1000000);
    DecimalIsOctet(n / 0x10000 % 256);
    DecimalIsOctet(n / 0x100 % 256);
    DecimalIsOctet(n % 256);
    SplitJoin(Octets(n), '.');
  }

  lemma Extend(p: string, q: string, c: string, r: string, s: string)
    requires c <= r
    ensures p + ['.'] + (q + ['.'] + c) <= p + ['.'] + (q + ['.'] + (r + ['.'] + s))
  {
    var rest := r[|c|..] + ['.'] + s;
    assert r == c + r[|c|..];
    assert p + ['.'] + (q + ['.'] + (r + ['.'] + s)) == p + ['.'] + (q + ['.'] + c) + rest;
  }

  /** The text of the third number decides: it may only be a prefix of itself. */
  lemma OctetPrefix(c: nat, x: nat)
    requires c <= 255 && x <= 255
    ensures Decimal(c) <= Decimal(x) <==> x == c || (x >= 10 && c == x / 10) || (x >= 100 && c == x / 100)
  {
    DecimalPrefix(c, x);
    DecimalPrefix(c, x / 10);
    DecimalPrefix(c, x / 100);
    assert x / 10 / 10 == x / 100;
  }

  /** The addresses of the network of 256 that the subnet setting names */
  predicate InSubnet(a: nat, b: nat, c: nat, n: nat) { n / 0x100 == (a * 256 + b) * 256 + c }

  /**
   * The bridge accepts the addresses of its subnet, and no others exactly when the third number of the subnet is
   * 0 or at least 26: otherwise ten times that number starts with the same digits.
   */
  lemma SubnetTextIsExact(a: nat, b: nat, c: nat)
    requires Three(a, b, c)
    ensures forall n: nat :: n < LIMIT4 && InSubnet(a, b, c, n) ==> InSubnetText(Subnet(a, b, c), Print4(n))
    ensures (forall n: nat :: n < LIMIT4 && InSubnetText(Subnet(a, b, c), Print4(n)) ==> InSubnet(a, b, c, n))
      <==> c == 0 || c >= 26
  {
    forall n: nat | n < LIMIT4
      ensures InSubnet(a, b, c, n) ==> InSubnetText(Subnet(a, b, c), Print4(n))
      ensures c == 0 || c >= 26 ==> (InSubnetText(Subnet(a, b, c), Print4(n)) ==> InSubnet(a, b, c, n))
    {
      ParsePrint4(Print4(n), n);
      SubnetPrefix(a, b, c, n);
      OctetPrefix(c, n / 0x100 % 256);
      BlockDigits(a, b, c, n);
    }
    if 0 < c < 26 {
      var n := Quad(a, b, 10 * c, 0);
      QuadDigits(a, b, 10 * c, 0);
      ParsePrint4(Print4(n), n);
      SubnetPrefix(a, b, c, n);
      OctetPrefix(c, 10 * c);
      assert !InSubnet(a, b, c, n);
    }
  }

  lemma BlockDigits(a: nat, b: nat, c: nat, n: nat)
    requires Three(a, b, c) && n < LIMIT4
    ensures InSubnet(a, b, c, n) <==> n / 0x1000000 == a && n / 0x10000 % 256 == b && n / 0x100 % 256 == c
  {
    var x := n / 0x100;
    assert n / 0x10000 == x / 256 && n / 0x1000000 == x / 256 / 256;
  }

  // ---- add_peer of the bridge ----

  /** The form of a WireGuard public key: 43 symbols of base64 and a pad */
  predicate KeyText(key: string) {
    |key| == 44 && key[43] == '=' && forall i :: 0 <= i < 43 ==> B.Value(key[i]).Some?
  }

  /** The status of the answer, and the address that was given to the peer */
  datatype Outcome = Outcome(status: int, ip: string)

  /**
   * `add_peer` for a key that was asked for with or without an address: `text` is the posture store, `peers` are
   * the keys that are known to WireGuard, and `obeys` says whether it takes the new peer.
   */
  function Add(six: Six, subnet: string, text: Option<string>, authorized: bool, key: string, fixedIp: string,
               peers: set<string>, obeys: bool): Outcome {
    if !authorized then Outcome(403, "")
    else if !KeyText(key) then Outcome(400, "")
    else if fixedIp != "" && !InSubnetText(subnet, fixedIp) then Outcome(400, "")
    else
      var target := if fixedIp != "" then Free(fixedIp) else Propose(six, subnet, text);
      match target
      case Crashed => Outcome(500, "")
      case Full => Outcome(507, "")
      case Free(ip) =>
        if key in peers then Outcome(409, "") else if !obeys then Outcome(500, "") else Outcome(201, ip)
  }

  /**
   * A peer is added exactly for an authorized request with a new, well-formed key and an address that is the
   * requested one in the subnet or else the least free one.
   */
  lemma AddedMeans(six: Six, subnet: string, text: Option<string>, authorized: bool, key: string, fixedIp: string,
                   peers: set<string>, obeys: bool, ip: string)
    requires Members(StoreOf(text)).Some?
    ensures Add(six, subnet, text, authorized, key, fixedIp, peers, obeys) == Outcome(201, ip) <==>
      && authorized && KeyText(key) && key !in peers && obeys
      && if fixedIp != "" then ip == fixedIp && InSubnetText(subnet, ip)
         else Least(subnet, Used(six, Members(StoreOf(text)).value), ip)
  {
    ProposalIsLeast(six, subnet, text);
  }

  /**
   * Why a request is refused, in the order of the checks: no right, a malformed key, an address outside the subnet, a
   * full subnet, a known key, and a WireGuard that does not take the peer.
   */
  lemma RefusedMeans(six: Six, subnet: string, text: Option<string>, authorized: bool, key: string, fixedIp: string,
                     peers: set<string>, obeys: bool)
    requires Members(StoreOf(text)).Some?
    ensures var o := Add(six, subnet, text, authorized, key, fixedIp, peers, obeys);
      var used := Used(six, Members(StoreOf(text)).value);
      var outside := fixedIp != "" && !(Parse4(fixedIp).Some? && subnet <= fixedIp);
      var full := fixedIp == "" && forall h: nat :: 10 <= h < 255 ==> Candidate(subnet, h) in used;
      && (o.status == 403 <==> !authorized)
      && (o.status == 400 <==> authorized && (!KeyText(key) || outside))
      && (o.status == 507 <==> authorized && KeyText(key) && !outside && full)
      && (o.status == 409 <==> authorized && KeyText(key) && !outside && !full && key in peers)
      && (o.status == 500 <==> authorized && KeyText(key) && !outside && !full && key !in peers && !obeys)
      && (o.status != 201 ==> o.ip == "")
  {
    FullMeans(six, subnet, text);
  }

  /** A store that cannot be iterated breaks acceptable requests without an address, and only those. */
  lemma CrashIsTold(six: Six, subnet: string, text: Option<string>, key: string, fixedIp: string, peers: set<string>)
    requires Members(StoreOf(text)).None? && KeyText(key) && key !in peers
    ensures fixedIp == "" ==> Add(six, subnet, text, true, key, fixedIp, peers, true) == Outcome(500, "")
    ensures fixedIp != "" && InSubnetText(subnet, fixedIp) ==>
      Add(six, subnet, text, true, key, fixedIp, peers, true) == Outcome(201, fixedIp)
  {}

  lemma FullMeans(six: Six, subnet: string, text: Option<string>)
    requires Members(StoreOf(text)).Some?
    ensures var (r, used) := (Propose(six, subnet, text), Used(six, Members(StoreOf(text)).value));
      !r.Crashed? && (r.Full? <==> forall h: nat :: 10 <= h < 255 ==> Candidate(subnet, h) in used)
  {
    var used := Used(six, Members(StoreOf(text)).value);
    FreeAre(subnet, used, 10);
    var free := Hosts(subnet, used);
    if free != [] { assert free[0] in free; }
    if h: nat :| 10 <= h < 255 && Candidate(subnet, h) !in used { assert h in free; }
  }

  /** Of the encodings of byte strings, exactly those of 32 bytes are in the form of a key. */
  lemma KeysOfBytes(b: seq<B.byte>)
    ensures KeyText(B.Encode(b)) <==> |b| == 32
  {
    B.EncodeSplits(b);
    B.SymbolsShape(b);
    var key, s := B.Encode(b), B.Symbols(b);
    assert |key| == 4 * ((|b| + 2) / 3);
    assert forall i :: 0 <= i < |key| ==> key[i] == if i < |s| then s[i] else '=';
    assert B.Value('=').None?;
    if |key| == 44 {
      assert |b| == 31 ==> key[42] == '=';
      assert |b| == 33 ==> key[43] == s[43];
    }
  }

  /** The keys that WireGuard knows after an outcome */
  function PeersThen(peers: set<string>, key: string, o: Outcome): set<string> {
    if o.status == 201 then peers + {key} else peers
  }

  /**
   * When a proposal repeats: for as long as the addresses in use only become more, the same address is proposed
   * again exactly while it is not among them.
   */
  lemma ProposalRepeats(six: Six, subnet: string, before: Option<string>, after: Option<string>, ip: string)
    requires Members(StoreOf(before)).Some? && Members(StoreOf(after)).Some?
    requires Used(six, Members(StoreOf(before)).value) <= Used(six, Members(StoreOf(after)).value)
    requires Propose(six, subnet, before) == Free(ip)
    ensures Propose(six, subnet, after) == Free(ip) <==> ip !in Used(six, Members(StoreOf(after)).value)
  {
    var used1, used2 := Used(six, Members(StoreOf(before)).value), Used(six, Members(StoreOf(after)).value);
    ProposalIsLeast(six, subnet, before);
    ProposalIsLeast(six, subnet, after);
    assert Least(subnet, used1, ip);
    var h: nat :| LeastHost(subnet, used1, h) && ip == Candidate(subnet, h);
    if ip !in used2 { assert LeastHost(subnet, used2, h); }
  }

  /**
   * When an address that was proposed to one peer is given to another one: with an acceptable request, exactly if it
   * is not in use yet, or if the request names it. A requested address is never compared with those in use.
   */
  lemma AddressIsGivenAgain(six: Six, subnet: string, before: Option<string>, after: Option<string>, ip: string,
                            authorized: bool, key: string, fixedIp: string, peers: set<string>, obeys: bool)
    requires Members(StoreOf(before)).Some? && Members(StoreOf(after)).Some?
    requires Used(six, Members(StoreOf(before)).value) <= Used(six, Members(StoreOf(after)).value)
    requires Propose(six, subnet, before) == Free(ip)
    ensures Add(six, subnet, after, authorized, key, fixedIp, peers, obeys) == Outcome(201, ip) <==>
      && authorized && KeyText(key) && key !in peers && obeys
      && if fixedIp == "" then ip !in Used(six, Members(StoreOf(after)).value)
         else fixedIp == ip && InSubnetText(subnet, ip)
  {
    ProposalRepeats(six, subnet, before, after, ip);
  }

  /** An address of the subnet that is in use already is given to every acceptable request that names it. */
  lemma UsedAddressIsGiven(six: Six, a: nat, b: nat, c: nat, h: nat, text: Option<string>, key: string, peers: set<string>)
    requires Three(a, b, c) && h <= 255 && KeyText(key) && key !in peers
    ensures var ip := Candidate(Subnet(a, b, c), h);
      Add(six, Subnet(a, b, c), text, true, key, ip, peers, true) == Outcome(201, ip)
  {
    CandidateIsAddress(a, b, c, h);
  }

  /**
   * Adding a peer does not register its address: on the same store the next peer without a requested address gets
   * the same one, which is the least free host. Once it is registered, it is not the next proposal.
   */
  lemma AddressIsReused(six: Six, a: nat, b: nat, c: nat, text: string, f: Fields, key1: string, key2: string,
                        peers: set<string>, d: Device)
    requires Three(a, b, c) && Loads(text) == Some(Obj(f)) && WfFields(f)
    requires KeyText(key1) && KeyText(key2) && key1 != key2 && key2 !in peers
    requires Add(six, Subnet(a, b, c), Some(text), true, key1, "", peers, true).status == 201
    ensures var subnet := Subnet(a, b, c);
      var first := Add(six, subnet, Some(text), true, key1, "", peers, true);
      var known := PeersThen(peers, key1, first);
      var registered := Provision(six, subnet, text, d).1;
      && Least(subnet, Used(six, KeyList(f)), first.ip)
      && Add(six, subnet, Some(text), true, key2, "", known, true) == first
      && Add(six, subnet, Some(registered), true, key2, "", known, true).ip != first.ip
  {
    var subnet := Subnet(a, b, c);
    var free := Hosts(subnet, Used(six, KeyList(f)));
    ProposalOf(six, subnet, text, f);
    FirstIsLeast(subnet, Used(six, KeyList(f)));
    assert LeastHost(subnet, Used(six, KeyList(f)), free[0]);
    RegisteredIsNotProposed(six, a, b, c, text, f, d);
    assert Candidate(subnet, free[0]) != "";
  }

  lemma RegisteredIsNotProposed(six: Six, a: nat, b: nat, c: nat, text: string, f: Fields, d: Device)
    requires Three(a, b, c) && Loads(text) == Some(Obj(f)) && WfFields(f)
    ensures var subnet := Subnet(a, b, c);
      var first := Propose(six, subnet, Some(text));
      first.Free? ==> Propose(six, subnet, Some(Provision(six, subnet, text, d).1)) !in {first, Crashed}
  {
    var subnet := Subnet(a, b, c);
    var free := Hosts(subnet, Used(six, KeyList(f)));
    ProposalOf(six, subnet, text, f);
    RoundTakesFirst(six, subnet, text, f, d);
    ProposalOf(six, subnet, Provision(six, subnet, text, d).1, AfterRound(subnet, free, f, d));
    RoundLeavesOthers(six, a, b, c, f, d);
    FreeAreIncreasing(subnet, Used(six, KeyList(f)), 10);
    if free != [] { SecondIsOther(subnet, free); }
  }

  lemma SecondIsOther(subnet: string, free: seq<nat>)
    requires free != [] && Increasing(free)
    ensures Pick(subnet, free[1..]) != Pick(subnet, free)
  {
    if |free| > 1 && Candidate(subnet, free[1]) == Candidate(subnet, free[0]) {
      CandidatesDiffer(subnet, free[1], free[0]);
    }
  }
}
