/**
 * Addresses for new peers: the bridge proposes the least free host of its subnet, and registration puts it into
 * the posture store, which is where the bridge looks for addresses in use.
 */
module Allocator {
  import opened Basics
  import opened Json
  import opened JsonPrefix
  import opened Ip
  import S = Store
  import P = Peers
  import T = Posture

  // ---- addresses in use ----

  /** How `ipaddress` reads and prints IPv6 addresses */
  datatype Six = Six(read: V6, show: nat -> string)

  function Printed(six: Six, a: Addr): string { if a.version.Four? then Print4(a.n) else six.show(a.n) }

  function AddrText(six: Six, v: Json): Option<string> {
    match P.DeviceAddr(six.read, v)
    case Some(a) => Some(Printed(six, a))
    case None => None
  }

  /** The values that `for x in store` goes over; `None` stands for `TypeError`. */
  function Members(store: Json): Option<seq<Json>> {
    match store
    case Obj(f) => Some(KeyList(f))
    case Arr(items) => Some(Elements(items))
    case Str(s) => Some(seq(|s|, i requires 0 <= i < |s| => Str([s[i]])))
    case _ => None
  }

  function KeyList(f: Fields): seq<Json> { if f.Empty? then [] else [Str(f.key)] + KeyList(f.rest) }

  /** The store that is read: empty if there is none, or none that can be parsed */
  function StoreOf(text: Option<string>): Json {
    if text.None? || Loads(text.value).None? then Obj(Empty) else Loads(text.value).value
  }

  function Used(six: Six, members: seq<Json>): set<string> {
    set v | v in members && AddrText(six, v).Some? :: AddrText(six, v).value
  }

  // ---- the proposal ----

  function Candidate(subnet: string, i: nat): string { subnet + ("." + Decimal(i)) }

  /** `Crashed` stands for an exception that nothing catches. */
  datatype Found = Crashed | Full | Free(ip: string)

  /** The free hosts from `i` on, in increasing order */
  function FreeFrom(subnet: string, used: set<string>, i: nat): seq<nat>
    decreases 255 - i
  {
    if i >= 255 then []
    else if Candidate(subnet, i) in used then FreeFrom(subnet, used, i + 1)
    else [i] + FreeFrom(subnet, used, i + 1)
  }

  function Hosts(subnet: string, used: set<string>): seq<nat> { FreeFrom(subnet, used, 10) }

  function Pick(subnet: string, free: seq<nat>): Found {
    if free == [] then Full else Free(Candidate(subnet, free[0]))
  }

  function Propose(six: Six, subnet: string, text: Option<string>): Found {
    match Members(StoreOf(text))
    case None => Crashed
    case Some(members) => Pick(subnet, Hosts(subnet, Used(six, members)))
  }

  /** `_next_available_ip` */
  method NextAvailableIp(six: Six, subnet: string, text: Option<string>) returns (r: Found)
    ensures r == Propose(six, subnet, text)
  {
    var members := Members(StoreOf(text));
    if members.None? { return Crashed; }
    var all, existing := members.value, {};
    for k := 0 to |all|
      invariant existing == Used(six, all[..k])
    {
      var t := AddrText(six, all[k]);
      UsedNext(six, all, k);
      if t.Some? { existing := existing + {t.value}; }
    }
    assert existing == Used(six, all) by { assert all[..|all|] == all; }
    for i := 10 to 255
      invariant Hosts(subnet, existing) == FreeFrom(subnet, existing, i)
    {
      var candidate := Candidate(subnet, i);
      if candidate !in existing { return Free(candidate); }
    }
    return Full;
  }

  lemma UsedNext(six: Six, members: seq<Json>, k: nat)
    requires k < |members|
    ensures var t := AddrText(six, members[k]);
      Used(six, members[..k + 1]) == Used(six, members[..k]) + if t.Some? then {t.value} else {}
  {
    assert members[..k + 1] == members[..k] + [members[k]];
  }

  // ---- what is proposed ----

  /** The free hosts are those from 10 to 254 whose address is not in use. */
  lemma {:induction false} FreeAre(subnet: string, used: set<string>, i: nat)
    ensures forall h :: h in FreeFrom(subnet, used, i) <==> i <= h < 255 && Candidate(subnet, h) !in used
    decreases 255 - i
  {
    if i < 255 { FreeAre(subnet, used, i + 1); }
  }

  predicate Increasing(hosts: seq<nat>) { forall j, k :: 0 <= j < k < |hosts| ==> hosts[j] < hosts[k] }

  lemma {:induction false} FreeAreIncreasing(subnet: string, used: set<string>, i: nat)
    ensures Increasing(FreeFrom(subnet, used, i))
    decreases 255 - i
  {
    if i < 255 {
      FreeAreIncreasing(subnet, used, i + 1);
      FreeAre(subnet, used, i + 1);
      var rest := FreeFrom(subnet, used, i + 1);
      assert forall k :: 0 <= k < |rest| ==> rest[k] in rest;
    }
  }

  lemma {:induction false} FreeAreCounted(subnet: string, used: set<string>, i: nat)
    requires i <= 255
    ensures |FreeFrom(subnet, used, i)| == 255 - i - |set h: nat | i <= h < 255 && Candidate(subnet, h) in used|
    decreases 255 - i
  {
    var taken := set h: nat | i <= h < 255 && Candidate(subnet, h) in used;
    if i == 255 {
      assert taken == {};
    } else {
      var rest := set h: nat | i + 1 <= h < 255 && Candidate(subnet, h) in used;
      FreeAreCounted(subnet, used, i + 1);
      assert taken == rest + if Candidate(subnet, i) in used then {i} else {};
    }
  }

  /** The address `ip` is the least host of the range that is not in use. */
  ghost predicate Least(subnet: string, used: set<string>, ip: string) {
    exists h: nat :: LeastHost(subnet, used, h) && ip == Candidate(subnet, h)
  }

  ghost predicate LeastHost(subnet: string, used: set<string>, h: nat) {
    10 <= h < 255 && Candidate(subnet, h) !in used && forall j :: 10 <= j < h ==> Candidate(subnet, j) in used
  }

  lemma FirstIsLeast(subnet: string, used: set<string>)
    ensures var free := Hosts(subnet, used);
      forall h: nat :: LeastHost(subnet, used, h) <==> free != [] && h == free[0]
  {
    var free := Hosts(subnet, used);
    FreeAre(subnet, used, 10);
    FreeAreIncreasing(subnet, used, 10);
    forall h: nat ensures LeastHost(subnet, used, h) <==> free != [] && h == free[0] {
      if LeastHost(subnet, used, h) {
        assert h in free && free[0] in free;
        var k :| 0 <= k < |free| && free[k] == h;
      }
      if free != [] && h == free[0] {
        assert h in free;
        assert forall j :: 10 <= j < h ==> Candidate(subnet, j) in used;
      }
    }
  }

  /** The proposal is the least free host, and there is none exactly when all 245 are in use. */
  lemma ProposalIsLeast(six: Six, subnet: string, text: Option<string>)
    requires Members(StoreOf(text)).Some?
    ensures var (used, r) := (Used(six, Members(StoreOf(text)).value), Propose(six, subnet, text));
      && (r == Full <==> |set h: nat | 10 <= h < 255 && Candidate(subnet, h) in used| == 245)
      && (forall ip :: r == Free(ip) <==> Least(subnet, used, ip))
  {
    var used := Used(six, Members(StoreOf(text)).value);
    FirstIsLeast(subnet, used);
    FreeAreCounted(subnet, used, 10);
    var free := Hosts(subnet, used);
    if free != [] { assert LeastHost(subnet, used, free[0]); }
  }

  // ---- allocate, register, allocate again ----

  predicate Three(a: nat, b: nat, c: nat) { a <= 255 && b <= 255 && c <= 255 }

  /** The subnet setting that names a network of 256 addresses */
  function Subnet(a: nat, b: nat, c: nat): string { Join([Decimal(a), Decimal(b), Decimal(c)], '.') }

  lemma CandidateIsAddress(a: nat, b: nat, c: nat, h: nat)
    requires Three(a, b, c) && h <= 255
    ensures Candidate(Subnet(a, b, c), h) == Print4(Quad(a, b, c, h))
    ensures Parse4(Candidate(Subnet(a, b, c), h)) == Some(Quad(a, b, c, h))
  {
    QuadDigits(a, b, c, h);
    var p, q, r, s := Decimal(a), Decimal(b), Decimal(c), Decimal(h);
    assert Octets(Quad(a, b, c, h)) == [p, q, r, s];
    JoinThree(p, q, r);
    JoinFour(p, q, r, s);
    assert p + ['.'] + (q + ['.'] + r) + ("." + s) == p + ['.'] + (q + ['.'] + (r + ['.'] + s));
    PrintedParses4(Quad(a, b, c, h));
  }

  lemma CandidatesDiffer(subnet: string, i: nat, j: nat)
    requires Candidate(subnet, i) == Candidate(subnet, j)
    ensures i == j
  {
    var n := |subnet| + 1;
    assert Candidate(subnet, i)[n..] == Decimal(i) && Candidate(subnet, j)[n..] == Decimal(j);
    DecimalReadsBack(i);
    DecimalReadsBack(j);
  }

  /** Once the least free host is in use, the free hosts are the others. */
  lemma {:induction false} TakeFirst(subnet: string, used: set<string>, i: nat)
    requires FreeFrom(subnet, used, i) != []
    ensures var free := FreeFrom(subnet, used, i);
      FreeFrom(subnet, used + {Candidate(subnet, free[0])}, i) == free[1..]
    decreases 255 - i
  {
    var free := FreeFrom(subnet, used, i);
    if Candidate(subnet, i) in used {
      TakeFirst(subnet, used, i + 1);
    } else {
      TakeOther(subnet, used, i, i + 1);
    }
  }

  lemma {:induction false} TakeOther(subnet: string, used: set<string>, h: nat, i: nat)
    requires h < i
    ensures FreeFrom(subnet, used + {Candidate(subnet, h)}, i) == FreeFrom(subnet, used, i)
    decreases 255 - i
  {
    if i < 255 {
      if Candidate(subnet, i) == Candidate(subnet, h) { CandidatesDiffer(subnet, i, h); }
      TakeOther(subnet, used, h, i + 1);
    }
  }

  /** Every printed IPv6 address has a colon. */
  ghost predicate Shows(six: Six) { forall n :: ':' in six.show(n) }

  /** An address of the subnet is in use exactly if the store has it as a key. */
  lemma InUseMeans(six: Six, a: nat, b: nat, c: nat, h: nat, f: Fields)
    requires Shows(six) && Three(a, b, c) && h <= 255
    ensures Candidate(Subnet(a, b, c), h) in Used(six, KeyList(f)) <==> Candidate(Subnet(a, b, c), h) in Keys(f)
  {
    var ip, n := Candidate(Subnet(a, b, c), h), Quad(a, b, c, h);
    CandidateIsAddress(a, b, c, h);
    QuadDigits(a, b, c, h);
    PlainText(n);
    KeyListIs(f);
    if ip in Keys(f) {
      assert Str(ip) in KeyList(f) && AddrText(six, Str(ip)) == Some(ip);
    }
    if ip in Used(six, KeyList(f)) {
      var v :| v in KeyList(f) && AddrText(six, v) == Some(ip);
      if Parse4(v.s).Some? { ParsePrint4(v.s, Parse4(v.s).value); }
    }
  }

  /** A member of the store means an address of the subnet if it is its text or its number. */
  lemma MemberMeans(six: Six, v: Json, n: nat)
    requires Shows(six) && 2 <= n < LIMIT4
    ensures AddrText(six, v) == Some(Print4(n)) <==> v == Str(Print4(n)) || v == Int(n)
  {
    PlainText(n);
    PrintedParses4(n);
    match v
    case Str(s) => if Parse4(s).Some? { ParsePrint4(s, Parse4(s).value); }
    case Int(m) => if 0 <= m < LIMIT4 { PrintedParses4(m); }
    case Bool(b) => PrintedParses4(if b then 1 else 0);
    case _ =>
  }

  /** A store that is a list has the addresses of its items in use; one that is a text has none. */
  lemma OtherStores(six: Six, a: nat, b: nat, c: nat, h: nat, items: Items, s: string)
    requires Shows(six) && Three(a, b, c) && 2 <= h <= 255
    ensures var (ip, n) := (Candidate(Subnet(a, b, c), h), Quad(a, b, c, h));
      && Members(Arr(items)).Some? && Members(Str(s)).Some?
      && (ip in Used(six, Members(Arr(items)).value) <==> Str(ip) in Elements(items) || Int(n) in Elements(items))
      && ip !in Used(six, Members(Str(s)).value)
  {
    var ip, n := Candidate(Subnet(a, b, c), h), Quad(a, b, c, h);
    CandidateIsAddress(a, b, c, h);
    QuadDigits(a, b, c, h);
    forall v ensures AddrText(six, v) == Some(ip) <==> v == Str(ip) || v == Int(n) { MemberMeans(six, v, n); }
    assert |ip| > 1 by { DecimalReadsBack(h); }
    assert forall v :: v in Members(Str(s)).value ==> v.Str? && |v.s| == 1;
  }

  /** The proposal raises an exception exactly on a document that cannot be iterated. */
  lemma CrashMeans(six: Six, subnet: string, text: Option<string>)
    ensures text.None? || Loads(text.value).None? ==> Propose(six, subnet, text) != Crashed
    ensures text.Some? && Loads(text.value).Some? ==>
      var v := Loads(text.value).value;
      Propose(six, subnet, text) == Crashed <==> v.Null? || v.Bool? || v.Int?
  {}

  /** Host `h` is the first one whose address is no key of the store. */
  predicate FirstFree(subnet: string, f: Fields, h: nat) {
    10 <= h < 255 && Candidate(subnet, h) !in Keys(f) && forall j: nat :: 10 <= j < h ==> Candidate(subnet, j) in Keys(f)
  }

  /**
   * The proposal from the text of the store: the first host from 10 to 254 whose address is no key, and none exactly
   * if all are keys.
   */
  lemma ProposalFromText(six: Six, a: nat, b: nat, c: nat, text: string, f: Fields)
    requires Shows(six) && Three(a, b, c) && Loads(text) == Some(Obj(f))
    ensures var (subnet, r) := (Subnet(a, b, c), Propose(six, Subnet(a, b, c), Some(text)));
      && (r == Full <==> forall h: nat :: 10 <= h < 255 ==> Candidate(subnet, h) in Keys(f))
      && (forall h: nat :: FirstFree(subnet, f, h) ==> r == Free(Candidate(subnet, h)))
      && (forall ip :: r == Free(ip) ==> exists h: nat :: FirstFree(subnet, f, h) && ip == Candidate(subnet, h))
  {
    ProposalOf(six, Subnet(a, b, c), text, f);
    FirstIsFree(six, a, b, c, f);
  }

  /** Without a store, or with one that cannot be parsed, the proposal is host 10. */
  lemma ProposalWithoutStore(six: Six, subnet: string, text: Option<string>)
    requires text.None? || Loads(text.value).None?
    ensures Propose(six, subnet, text) == Free(subnet + ".10")
  {
    assert Members(StoreOf(text)) == Some([]) && Used(six, []) == {} by { assert KeyList(Empty) == []; }
    assert Hosts(subnet, {})[0] == 10 by { FirstIsLeast(subnet, {}); }
    TenIsPrinted(subnet);
  }

  lemma TenIsPrinted(subnet: string)
    ensures Candidate(subnet, 10) == subnet + ".10"
  {
    DecimalIsPositional(1, 0);
    assert "." + Decimal(10) == ".10";
  }

  lemma FirstIsFree(six: Six, a: nat, b: nat, c: nat, f: Fields)
    requires Shows(six) && Three(a, b, c)
    ensures var (subnet, free) := (Subnet(a, b, c), Hosts(Subnet(a, b, c), Used(six, KeyList(f))));
      && (free == [] <==> forall h: nat :: 10 <= h < 255 ==> Candidate(subnet, h) in Keys(f))
      && (forall h: nat :: FirstFree(subnet, f, h) <==> free != [] && h == free[0])
  {
    var subnet, used := Subnet(a, b, c), Used(six, KeyList(f));
    var free := Hosts(subnet, used);
    forall h: nat | 10 <= h < 255 ensures Candidate(subnet, h) in used <==> Candidate(subnet, h) in Keys(f) {
      InUseMeans(six, a, b, c, h, f);
    }
    FreeAre(subnet, used, 10);
    FirstIsLeast(subnet, used);
    forall h: nat ensures FirstFree(subnet, f, h) <==> free != [] && h == free[0] {
      assert FirstFree(subnet, f, h) <==> LeastHost(subnet, used, h);
    }
    if free != [] { assert free[0] in free; }
    if h: nat :| 10 <= h < 255 && Candidate(subnet, h) !in Keys(f) { assert h in free; }
  }

  /** A device that is registered with the address proposed to it, under a name, for a user, at a time */
  datatype Device = Device(name: string, email: string, now: int)

  /** Propose an address and register it: what was proposed, and the store afterwards */
  function Provision(six: Six, subnet: string, text: string, d: Device): (Found, string) {
    var r := Propose(six, subnet, Some(text));
    if !r.Free? then (r, text)
    else
      var out := S.EnrolmentWrites(S.Enrolment(r.ip, d.name, d.email, d.now), Some(text));
      (r, if out.Some? then out.value else text)
  }

  function ProvisionAll(six: Six, subnet: string, text: string, devices: seq<Device>): seq<Found>
    decreases |devices|
  {
    if devices == [] then []
    else
      var (r, after) := Provision(six, subnet, text, devices[0]);
      [r] + ProvisionAll(six, subnet, after, devices[1..])
  }

  lemma {:induction false} KeyListIs(f: Fields)
    ensures forall v :: v in KeyList(f) <==> v.Str? && v.s in Keys(f)
  {
    if f.Field? { KeyListIs(f.rest); }
  }

  lemma UsedAfterPut(six: Six, f: Fields, ip: string, record: Json, n: nat)
    requires Parse4(ip) == Some(n)
    ensures Used(six, KeyList(Put(f, ip, record))) == Used(six, KeyList(f)) + {ip}
  {
    var g := Put(f, ip, record);
    KeyListIs(f);
    KeyListIs(g);
    ParsePrint4(ip, n);
    assert AddrText(six, Str(ip)) == Some(ip);
    forall t ensures t in Used(six, KeyList(g)) <==> t in Used(six, KeyList(f)) + {ip} {
      if t in Used(six, KeyList(g)) {
        var v :| v in KeyList(g) && AddrText(six, v) == Some(t);
        if v.s != ip { assert v in KeyList(f); }
      }
      if t in Used(six, KeyList(f)) {
        var v :| v in KeyList(f) && AddrText(six, v) == Some(t);
        assert v in KeyList(g);
      }
      if t == ip { assert Str(ip) in KeyList(g); }
    }
  }

  /** The store after a round that started from `f` with the free hosts `free` */
  function AfterRound(subnet: string, free: seq<nat>, f: Fields, d: Device): Fields {
    if free == [] then f
    else
      var ip := Candidate(subnet, free[0]);
      Put(f, ip, S.Enrolment(ip, d.name, d.email, d.now).Record())
  }

  lemma ProposalOf(six: Six, subnet: string, text: string, f: Fields)
    requires Loads(text) == Some(Obj(f))
    ensures Propose(six, subnet, Some(text)) == Pick(subnet, Hosts(subnet, Used(six, KeyList(f))))
  {}

  /** One round: the least free host is proposed and registered. */
  lemma RoundTakesFirst(six: Six, subnet: string, text: string, f: Fields, d: Device)
    requires Loads(text) == Some(Obj(f)) && WfFields(f)
    ensures var free := Hosts(subnet, Used(six, KeyList(f)));
      && Provision(six, subnet, text, d).0 == Pick(subnet, free)
      && Loads(Provision(six, subnet, text, d).1) == Some(Obj(AfterRound(subnet, free, f, d)))
      && WfFields(AfterRound(subnet, free, f, d))
  {
    var free := Hosts(subnet, Used(six, KeyList(f)));
    ProposalOf(six, subnet, text, f);
    if free != [] {
      var ip := Candidate(subnet, free[0]);
      RegistrationLoads(S.Enrolment(ip, d.name, d.email, d.now), text, f);
    }
  }

  /** What registration writes is the store that it read with one more record. */
  lemma RegistrationLoads(e: S.Enrolment, text: string, f: Fields)
    requires Loads(text) == Some(Obj(f)) && WfFields(f)
    ensures S.EnrolmentWrites(e, Some(text)).Some?
    ensures Loads(S.EnrolmentWrites(e, Some(text)).value) == Some(Obj(Put(f, e.ip, e.Record())))
    ensures WfFields(Put(f, e.ip, e.Record()))
  {
    T.RegistrationIsPlain(e.name, e.email, e.now);
    StoreReadsBack(f, e.ip, e.Record(), "\n");
  }

  /** After a round, the free hosts are the others. */
  lemma RoundLeavesOthers(six: Six, a: nat, b: nat, c: nat, f: Fields, d: Device)
    requires Three(a, b, c)
    ensures var (subnet, free) := (Subnet(a, b, c), Hosts(Subnet(a, b, c), Used(six, KeyList(f))));
      Hosts(subnet, Used(six, KeyList(AfterRound(subnet, free, f, d)))) == if free == [] then [] else free[1..]
  {
    var subnet, used := Subnet(a, b, c), Used(six, KeyList(f));
    var free := Hosts(subnet, used);
    if free != [] {
      FreeAre(subnet, used, 10);
      assert free[0] in free;
      var ip := Candidate(subnet, free[0]);
      CandidateIsAddress(a, b, c, free[0]);
      UsedAfterPut(six, f, ip, S.Enrolment(ip, d.name, d.email, d.now).Record(), Quad(a, b, c, free[0]));
      TakeFirst(subnet, used, 10);
    }
  }

  /** What the devices get when the free hosts are `free` */
  predicate InOrder(subnet: string, free: seq<nat>, got: seq<Found>) {
    forall k :: 0 <= k < |got| ==> got[k] == if k < |free| then Free(Candidate(subnet, free[k])) else Full
  }

  lemma {:induction false} DevicesGetFreeHosts(six: Six, a: nat, b: nat, c: nat, text: string, f: Fields,
                                               devices: seq<Device>)
    requires Three(a, b, c) && Loads(text) == Some(Obj(f)) && WfFields(f)
    ensures var (subnet, got) := (Subnet(a, b, c), ProvisionAll(six, Subnet(a, b, c), text, devices));
      |got| == |devices| && InOrder(subnet, Hosts(subnet, Used(six, KeyList(f))), got)
    decreases |devices|
  {
    if devices != [] {
      var subnet, d := Subnet(a, b, c), devices[0];
      var free := Hosts(subnet, Used(six, KeyList(f)));
      var after := Provision(six, subnet, text, d).1;
      RoundTakesFirst(six, subnet, text, f, d);
      RoundLeavesOthers(six, a, b, c, f, d);
      DevicesGetFreeHosts(six, a, b, c, after, AfterRound(subnet, free, f, d), devices[1..]);
      FirstInOrder(subnet, free, ProvisionAll(six, subnet, after, devices[1..]));
    }
  }

  lemma FirstInOrder(subnet: string, free: seq<nat>, rest: seq<Found>)
    requires InOrder(subnet, if free == [] then [] else free[1..], rest)
    ensures InOrder(subnet, free, [Pick(subnet, free)] + rest)
  {}

  /**
   * Repeated allocation: the devices get strictly increasing free hosts of the subnet until none is left, and the
   * number of devices that get one is 245 less the hosts already in use.
   */
  lemma AllocationIsExact(six: Six, a: nat, b: nat, c: nat, text: string, f: Fields, devices: seq<Device>)
    requires Three(a, b, c) && Loads(text) == Some(Obj(f)) && WfFields(f)
    ensures var (subnet, used) := (Subnet(a, b, c), Used(six, KeyList(f)));
      var (free, got) := (Hosts(subnet, used), ProvisionAll(six, subnet, text, devices));
      && |got| == |devices| && InOrder(subnet, free, got) && Increasing(free)
      && (forall h :: h in free <==> 10 <= h < 255 && Candidate(subnet, h) !in used)
      && |free| == 245 - |set h: nat | 10 <= h < 255 && Candidate(subnet, h) in used|
  {
    var subnet, used := Subnet(a, b, c), Used(six, KeyList(f));
    DevicesGetFreeHosts(six, a, b, c, text, f, devices);
    FreeAre(subnet, used, 10);
    FreeAreIncreasing(subnet, used, 10);
    FreeAreCounted(subnet, used, 10);
  }
}
