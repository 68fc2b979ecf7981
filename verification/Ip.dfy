/**
 * The address and network texts of Python's `ipaddress`, and containment by bit masks
 * (section 3.1 of RFC 4632). IPv4 is concrete; the reader of IPv6 addresses is a parameter.
 */
module Ip {
  import opened Basics

  // ---- bits ----

  function Pow2(n: nat): (r: nat)
    ensures r >= 1
  {
    if n == 0 then 1 else 2 * Pow2(n - 1)
  }

  function And(a: nat, b: nat): nat {
    if a == 0 || b == 0 then 0 else 2 * And(a / 2, b / 2) + (if a % 2 == 1 && b % 2 == 1 then 1 else 0)
  }

  function Xor(a: nat, b: nat): nat {
    if a == 0 then b else if b == 0 then a
    else 2 * Xor(a / 2, b / 2) + (if a % 2 != b % 2 then 1 else 0)
  }

  function Shr(a: nat, k: nat): nat {
    if k == 0 then a else Shr(a / 2, k - 1)
  }

  function AllOnes(bits: nat): nat { Pow2(bits) - 1 }

  /** `_ip_int_from_prefix` */
  function Mask(bits: nat, prefix: nat): nat { Xor(AllOnes(bits), Shr(AllOnes(bits), prefix)) }

  lemma {:induction false} ShrOnes(n: nat, k: nat)
    requires k <= n
    ensures Shr(AllOnes(n), k) == AllOnes(n - k)
  {
    if k > 0 {
      assert AllOnes(n) / 2 == AllOnes(n - 1);
      ShrOnes(n - 1, k - 1);
    }
  }

  lemma {:induction false} PowGrows(m: nat, n: nat)
    requires m <= n
    ensures Pow2(m) <= Pow2(n)
  {
    if m < n { PowGrows(m, n - 1); }
  }

  lemma {:induction false} XorOnes(n: nat, m: nat)
    requires m <= n
    ensures Xor(AllOnes(n), AllOnes(m)) == Pow2(n) - Pow2(m)
  {
    if m > 0 {
      assert AllOnes(n) / 2 == AllOnes(n - 1) && AllOnes(m) / 2 == AllOnes(m - 1);
      XorOnes(n - 1, m - 1);
    }
  }

  lemma MaskIs(bits: nat, prefix: nat)
    requires prefix <= bits
    ensures Mask(bits, prefix) == Pow2(bits) - Pow2(bits - prefix)
  {
    ShrOnes(bits, prefix);
    XorOnes(bits, bits - prefix);
  }

  lemma {:induction false} AndOnes(a: nat, n: nat)
    requires a < Pow2(n)
    ensures And(a, AllOnes(n)) == a
  {
    if a > 0 {
      assert AllOnes(n) / 2 == AllOnes(n - 1);
      AndOnes(a / 2, n - 1);
    }
  }

  lemma TwiceProduct(p: nat, s: nat)
    ensures 2 * p * s == 2 * (p * s)
  {}

  /** Masking clears the host bits. */
  lemma {:induction false} AndMask(a: nat, n: nat, h: nat, m: nat)
    requires a < Pow2(n) && h <= n && m == Pow2(n) - Pow2(h)
    ensures And(a, m) == Pow2(h) * Shr(a, h)
  {
    if h == 0 {
      AndOnes(a, n);
    } else {
      PowGrows(h - 1, n - 1);
      AndMask(a / 2, n - 1, h - 1, m / 2);
      TwiceProduct(Pow2(h - 1), Shr(a / 2, h - 1));
    }
  }

  lemma {:induction false} ShrBounds(a: nat, h: nat)
    ensures Pow2(h) * Shr(a, h) <= a < Pow2(h) * Shr(a, h) + Pow2(h)
  {
    if h > 0 {
      ShrBounds(a / 2, h - 1);
      TwiceProduct(Pow2(h - 1), Shr(a / 2, h - 1));
    }
  }

  lemma {:induction false} NextBlock(p: nat, s: nat, t: nat)
    requires s < t
    ensures p * s + p <= p * t
  {
    assert p * t == p * (t - 1) + p;
    if s < t - 1 { NextBlock(p, s, t - 1); }
  }

  lemma SameBlock(p: nat, s: nat, t: nat, x: nat)
    requires p * s <= x < p * s + p && p * t <= x < p * t + p
    ensures s == t
  {
    if s < t { NextBlock(p, s, t); }
    if t < s { NextBlock(p, t, s); }
  }

  /** Two addresses agree under a mask exactly when one lies in the block that starts at the other's masked value. */
  lemma MaskIsInterval(x: nat, a: nat, bits: nat, prefix: nat)
    requires x < Pow2(bits) && a < Pow2(bits) && prefix <= bits
    ensures var lo := And(a, Mask(bits, prefix));
      And(x, Mask(bits, prefix)) == lo <==> lo <= x < lo + Pow2(bits - prefix)
  {
    var h := bits - prefix;
    MaskIs(bits, prefix);
    AndMask(x, bits, h, Mask(bits, prefix));
    AndMask(a, bits, h, Mask(bits, prefix));
    ShrBounds(x, h);
    var lo := Pow2(h) * Shr(a, h);
    if lo <= x < lo + Pow2(h) { SameBlock(Pow2(h), Shr(x, h), Shr(a, h), x); }
  }

  // ---- IPv4 addresses ----

  predicate Octet(s: string) {
    && s != "" && AllDigits(s) && |s| <= 3
    && (s == "0" || s[0] != '0')
    && Numeral(s) <= 255
  }

  function Quad(a: nat, b: nat, c: nat, d: nat): nat { ((a * 256 + b) * 256 + c) * 256 + d }

  function Parse4(s: string): Option<nat> {
    var o := Split(s, '.');
    if |o| == 4 && Octet(o[0]) && Octet(o[1]) && Octet(o[2]) && Octet(o[3]) then
      Some(Quad(Numeral(o[0]), Numeral(o[1]), Numeral(o[2]), Numeral(o[3])))
    else None
  }

  function Octets(n: nat): seq<string> {
    [Decimal(n / 0x1000000), Decimal(n / 0x10000 % 256), Decimal(n / 0x100 % 256), Decimal(n % 256)]
  }

  function Print4(n: nat): string { Join(Octets(n), '.') }

  lemma JoinCons(first: string, rest: seq<string>, c: char)
    requires rest != []
    ensures Join([first] + rest, c) == first + [c] + Join(rest, c)
  {
    assert ([first] + rest)[1..] == rest;
  }

  lemma JoinGrows(x: char, parts: seq<string>, c: char)
    requires parts != []
    ensures Join([[x] + parts[0]] + parts[1..], c) == [x] + Join(parts, c)
  {
    assert ([[x] + parts[0]] + parts[1..])[1..] == parts[1..];
    if |parts| > 1 { Assoc([x], parts[0] + [c], Join(parts[1..], c)); }
  }

  lemma {:induction false} JoinSplit(s: string, c: char)
    ensures Join(Split(s, c), c) == s
  {
    if s != "" {
      JoinSplit(s[1..], c);
      JoinCons("", Split(s[1..], c), c);
      JoinGrows(s[0], Split(s[1..], c), c);
      assert "" + [c] + s[1..] == [c] + s[1..] && s == [s[0]] + s[1..];
    }
  }

  lemma DecimalIsOctet(n: nat)
    requires n <= 255
    ensures Octet(Decimal(n)) && Numeral(Decimal(n)) == n && '.' !in Decimal(n)
  {
    DecimalReadsBack(n);
    if n == 0 { assert Decimal(n) == "0"; }
    if n >= 10 { assert |Decimal(n / 10)| <= 2 by { if n / 10 >= 10 { assert |Decimal(n / 10 / 10)| == 1; } } }
  }

  lemma QuadDigits(a: nat, b: nat, c: nat, d: nat)
    requires a <= 255 && b <= 255 && c <= 255 && d <= 255
    ensures var n := Quad(a, b, c, d);
      n < 0x1_0000_0000 && n / 0x1000000 == a && n / 0x10000 % 256 == b && n / 0x100 % 256 == c && n % 256 == d
  {}

  lemma QuadOf(n: nat)
    requires n < 0x1_0000_0000
    ensures Quad(n / 0x1000000, n / 0x10000 % 256, n / 0x100 % 256, n % 256) == n
  {
    var x := n / 256;
    var y := x / 256;
    assert n / 0x10000 == y && n / 0x1000000 == y / 256;
  }

  lemma ParsedPrints4(s: string)
    requires Parse4(s).Some?
    ensures Parse4(s).value < 0x1_0000_0000 && Print4(Parse4(s).value) == s
  {
    var o := Split(s, '.');
    forall k | 0 <= k < 4 ensures Decimal(Numeral(o[k])) == o[k] { NumeralPrintsBack(o[k]); }
    QuadDigits(Numeral(o[0]), Numeral(o[1]), Numeral(o[2]), Numeral(o[3]));
    assert Octets(Parse4(s).value) == o;
    JoinSplit(s, '.');
  }

  lemma PrintedParses4(n: nat)
    requires n < 0x1_0000_0000
    ensures Parse4(Print4(n)) == Some(n)
  {
    DecimalIsOctet(n / 0x1000000);
    DecimalIsOctet(n / 0x10000 % 256);
    DecimalIsOctet(n / 0x100 % 256);
    DecimalIsOctet(n % 256);
    SplitJoin(Octets(n), '.');
    QuadOf(n);
  }

  /** An IPv4 address has exactly one text: reading and printing are inverse to each other. */
  lemma ParsePrint4(s: string, n: nat)
    ensures Parse4(s) == Some(n) <==> n < 0x1_0000_0000 && s == Print4(n)
  {
    if Parse4(s) == Some(n) { ParsedPrints4(s); }
    if n < 0x1_0000_0000 && s == Print4(n) { PrintedParses4(n); }
  }

  // ---- addresses and networks ----

  /** The reader of IPv6 address texts */
  type V6 = string -> Option<nat>

  const LIMIT4: nat := 0x1_0000_0000
  const LIMIT6: nat := 0x1_0000_0000_0000_0000_0000_0000_0000_0000

  ghost predicate Bounded(v6: V6) { forall s :: v6(s).Some? ==> v6(s).value < LIMIT6 }

  datatype Version = Four | Six {
    function Bits(): nat { if Four? then 32 else 128 }
  }

  datatype Addr = Addr(version: Version, n: nat)

  datatype Net = Net(version: Version, base: nat, prefix: nat)

  /** `ip_address(s)` for a string; `None` stands for `ValueError` */
  function ParseAddr(v6: V6, s: string): Option<Addr> {
    match Parse4(s)
    case Some(n) => Some(Addr(Four, n))
    case None =>
      match v6(s)
      case Some(n) => Some(Addr(Six, n))
      case None => None
  }

  /** `_prefix_from_prefix_string` */
  function PrefixDigits(s: string, bits: nat): Option<nat> {
    if s != "" && AllDigits(s) && Numeral(s) <= bits then Some(Numeral(s)) else None
  }

  /** `_count_righthand_zero_bits` */
  function TrailingZeros(n: nat, bits: nat): nat
    decreases n
  {
    if n == 0 then bits else if n % 2 == 1 then 0 else 1 + TrailingZeros(n / 2, bits)
  }

  /** `_prefix_from_ip_int` */
  function PrefixOfMask(n: nat, bits: nat): Option<nat> {
    var zeros := TrailingZeros(n, bits);
    if zeros <= bits && Shr(n, zeros) == AllOnes(bits - zeros) then Some(bits - zeros) else None
  }

  /** The netmask reading of a number, or else its hostmask reading */
  function PrefixOfEither(n: nat, bits: nat): Option<nat> {
    if PrefixOfMask(n, bits).Some? then PrefixOfMask(n, bits) else PrefixOfMask(Xor(n, AllOnes(bits)), bits)
  }

  /** `_prefix_from_ip_string` */
  function PrefixDotted(s: string): Option<nat> {
    match Parse4(s)
    case None => None
    case Some(n) => PrefixOfEither(n, 32)
  }

  function Prefix(version: Version, s: string): Option<nat> {
    if PrefixDigits(s, version.Bits()).Some? || version.Six? then PrefixDigits(s, version.Bits()) else PrefixDotted(s)
  }

  /** One attempt of `ip_network(s, strict=False)`, for the two sides of the slash */
  function MakeNet(version: Version, address: Option<nat>, parts: seq<string>): Option<Net>
    requires 1 <= |parts| <= 2
  {
    var prefix := if |parts| == 1 then Some(version.Bits()) else Prefix(version, parts[1]);
    if address.None? || prefix.None? then None
    else Some(Net(version, And(address.value, Mask(version.Bits(), prefix.value)), prefix.value))
  }

  /** `ip_network(s, strict=False)`; `None` stands for `ValueError` */
  function ParseNet(v6: V6, s: string): Option<Net> {
    var parts := Split(s, '/');
    if |parts| > 2 then None
    else if MakeNet(Four, Parse4(parts[0]), parts).Some? then MakeNet(Four, Parse4(parts[0]), parts)
    else MakeNet(Six, v6(parts[0]), parts)
  }

  /** `address in network` */
  predicate InNet(a: Addr, net: Net) {
    a.version == net.version && And(a.n, Mask(net.version.Bits(), net.prefix)) == net.base
  }

  // ---- what masks and networks mean ----

  lemma {:induction false} TrailingShr(n: nat, bits: nat)
    requires n > 0
    ensures n == Pow2(TrailingZeros(n, bits)) * Shr(n, TrailingZeros(n, bits))
  {
    if n % 2 == 0 {
      TrailingShr(n / 2, bits);
      var z := TrailingZeros(n / 2, bits);
      assert Pow2(z + 1) * Shr(n, z + 1) == 2 * (Pow2(z) * Shr(n / 2, z));
    }
  }

  lemma {:induction false} TrailingOfBlock(n: nat, h: nat, bits: nat)
    requires h < n
    ensures Pow2(n) > Pow2(h)
    ensures TrailingZeros(Pow2(n) - Pow2(h), bits) == h && Shr(Pow2(n) - Pow2(h), h) == AllOnes(n - h)
  {
    PowGrows(h, n - 1);
    if h > 0 {
      TrailingOfBlock(n - 1, h - 1, bits);
      assert (Pow2(n) - Pow2(h)) / 2 == Pow2(n - 1) - Pow2(h - 1);
    }
  }

  lemma {:induction false} PowSplits(a: nat, b: nat)
    ensures Pow2(a) * Pow2(b) == Pow2(a + b)
  {
    if a > 0 {
      PowSplits(a - 1, b);
      assert Pow2(a) * Pow2(b) == 2 * (Pow2(a - 1) * Pow2(b));
    }
  }

  /** A number is recognized as a netmask exactly when it is the mask of that prefix. */
  lemma PrefixOfMaskMeans(n: nat, prefix: nat, bits: nat)
    ensures PrefixOfMask(n, bits) == Some(prefix) <==> prefix <= bits && n == Mask(bits, prefix)
  {
    if prefix <= bits { MaskHasPrefix(prefix, bits); }
    if PrefixOfMask(n, bits) == Some(prefix) { PrefixHasMask(n, prefix, bits); }
  }

  lemma MaskHasPrefix(prefix: nat, bits: nat)
    requires prefix <= bits
    ensures PrefixOfMask(Mask(bits, prefix), bits) == Some(prefix)
  {
    var h := bits - prefix;
    MaskIs(bits, prefix);
    if h < bits { TrailingOfBlock(bits, h, bits); } else { ShrZero(bits); }
  }

  lemma {:induction false} ShrZero(k: nat)
    ensures Shr(0, k) == 0
  {
    if k > 0 { ShrZero(k - 1); }
  }

  lemma PrefixHasMask(n: nat, prefix: nat, bits: nat)
    requires PrefixOfMask(n, bits) == Some(prefix)
    ensures prefix <= bits && n == Mask(bits, prefix)
  {
    var h := bits - prefix;
    MaskIs(bits, prefix);
    if n > 0 {
      TrailingShr(n, bits);
      PowSplits(h, prefix);
      Distribute(Pow2(h), Pow2(prefix));
    }
  }

  lemma Distribute(p: nat, q: int)
    ensures p * (q - 1) == p * q - p
  {}

  lemma {:induction false} XorBits(a: nat, n: nat)
    requires a < Pow2(n)
    ensures Xor(a, AllOnes(n)) == AllOnes(n) - a
  {
    if a > 0 {
      assert AllOnes(n) / 2 == AllOnes(n - 1);
      XorBits(a / 2, n - 1);
    }
  }

  /** The number is the netmask of the prefix, or its hostmask, which is the complement. */
  predicate MeansPrefix(n: nat, prefix: nat, bits: nat) {
    && prefix <= bits
    && (n == Mask(bits, prefix) || (n == Pow2(bits - prefix) - 1 && 0 < prefix < bits))
  }

  lemma EitherMeans(n: nat, prefix: nat, bits: nat)
    requires n < Pow2(bits)
    ensures PrefixOfEither(n, bits) == Some(prefix) <==> MeansPrefix(n, prefix, bits)
  {
    if PrefixOfMask(n, bits).Some? { NetmaskMeans(n, prefix, bits); } else { HostmaskMeans(n, prefix, bits); }
  }

  lemma NetmaskMeans(n: nat, prefix: nat, bits: nat)
    requires PrefixOfMask(n, bits).Some?
    ensures PrefixOfMask(n, bits) == Some(prefix) <==> MeansPrefix(n, prefix, bits)
  {
    PrefixOfMaskMeans(n, prefix, bits);
    if prefix <= bits && n == Pow2(bits - prefix) - 1 {
      HostMaskIsNoMask(prefix, PrefixOfMask(n, bits).value, bits);
    }
  }

  lemma HostmaskMeans(n: nat, prefix: nat, bits: nat)
    requires n < Pow2(bits) && PrefixOfMask(n, bits).None?
    ensures PrefixOfMask(Xor(n, AllOnes(bits)), bits) == Some(prefix) <==> MeansPrefix(n, prefix, bits)
  {
    XorBits(n, bits);
    PrefixOfMaskMeans(n, prefix, bits);
    PrefixOfMaskMeans(AllOnes(bits) - n, prefix, bits);
    if prefix <= bits { ComplementOfMask(n, prefix, bits); }
  }

  lemma ComplementOfMask(n: nat, prefix: nat, bits: nat)
    requires n < Pow2(bits) && prefix <= bits && PrefixOfMask(n, bits).None?
    ensures AllOnes(bits) - n == Mask(bits, prefix) <==> n == Pow2(bits - prefix) - 1 && 0 < prefix < bits
  {
    MaskIs(bits, prefix);
    if prefix == 0 {
      MaskHasPrefix(bits, bits);
      MaskIs(bits, bits);
    } else if prefix == bits {
      MaskHasPrefix(0, bits);
      MaskIs(bits, 0);
    }
  }

  /** A block of ones at the low end is a netmask only if it is empty or full. */
  lemma HostMaskIsNoMask(prefix: nat, p: nat, bits: nat)
    requires prefix <= bits && PrefixOfMask(Pow2(bits - prefix) - 1, bits) == Some(p)
    ensures prefix == 0 || prefix == bits
  {
    PrefixOfMaskMeans(Pow2(bits - prefix) - 1, p, bits);
    MaskIs(bits, p);
    var k, h := bits - prefix, bits - p;
    if k < bits { PowGrows(k, bits - 1); }
    if h < bits { PowGrows(h, bits - 1); }
  }

  /** The dotted forms: a netmask names its own prefix; a hostmask that is no netmask names its complement's. */
  lemma DottedMeans(n: nat, prefix: nat)
    requires n < 0x1_0000_0000
    ensures PrefixDotted(Print4(n)) == Some(prefix) <==> MeansPrefix(n, prefix, 32)
  {
    DottedIs(n);
    EitherMeans(n, prefix, 32);
  }

  lemma DottedIs(n: nat)
    requires n < 0x1_0000_0000
    ensures PrefixDotted(Print4(n)) == PrefixOfEither(n, 32) && n < Pow2(32)
  {
    PrintedParses4(n);
    Limits();
  }

  lemma Doubling(n: nat, p: nat)
    requires Pow2(n) == p
    ensures Pow2(n + n) == p * p
  {
    PowSplits(n, n);
  }

  lemma Limits()
    ensures Pow2(32) == LIMIT4 && Pow2(128) == LIMIT6
  {
    assert Pow2(4) == 16;
    Doubling(4, 16);
    Doubling(8, 0x100);
    Doubling(16, 0x1_0000);
    Doubling(32, LIMIT4);
    Doubling(64, 0x1_0000_0000_0000_0000);
  }

  /** The base of a network is an address of its version under the network's mask. */
  ghost predicate IsMasked(net: Net) {
    && net.prefix <= net.version.Bits()
    && exists a: nat :: a < Pow2(net.version.Bits()) && net.base == And(a, Mask(net.version.Bits(), net.prefix))
  }

  lemma PrefixFits(version: Version, s: string)
    ensures Prefix(version, s).Some? ==> Prefix(version, s).value <= version.Bits()
  {}

  lemma MadeNet(version: Version, address: Option<nat>, parts: seq<string>)
    requires 1 <= |parts| <= 2 && MakeNet(version, address, parts).Some? && address.value < Pow2(version.Bits())
    ensures IsMasked(MakeNet(version, address, parts).value)
  {
    if |parts| == 2 { PrefixFits(version, parts[1]); }
  }

  lemma ParsedNet(v6: V6, s: string)
    requires Bounded(v6) && ParseNet(v6, s).Some?
    ensures IsMasked(ParseNet(v6, s).value)
  {
    var parts := Split(s, '/');
    Limits();
    if MakeNet(Four, Parse4(parts[0]), parts).Some? {
      ParsedPrints4(parts[0]);
      MadeNet(Four, Parse4(parts[0]), parts);
    } else {
      MadeNet(Six, v6(parts[0]), parts);
    }
  }

  predicate ValidAddr(a: Addr) { a.n < Pow2(a.version.Bits()) }

  lemma ParsedAddr(v6: V6, s: string)
    requires Bounded(v6) && ParseAddr(v6, s).Some?
    ensures ValidAddr(ParseAddr(v6, s).value)
  {
    Limits();
    if Parse4(s).Some? { ParsePrint4(s, Parse4(s).value); }
  }

  /** The block of 2^(bits - prefix) addresses of the network's version from its base on */
  predicate InBlock(x: Addr, net: Net)
    requires net.prefix <= net.version.Bits()
  {
    x.version == net.version && net.base <= x.n < net.base + Pow2(net.version.Bits() - net.prefix)
  }

  /** A network holds exactly the addresses of its block. */
  lemma NetIsInterval(v6: V6, s: string, x: Addr)
    requires Bounded(v6) && ParseNet(v6, s).Some? && ValidAddr(x)
    ensures var net := ParseNet(v6, s).value;
      net.prefix <= net.version.Bits() && (InNet(x, net) <==> InBlock(x, net))
  {
    var net := ParseNet(v6, s).value;
    ParsedNet(v6, s);
    var a: nat :| a < Pow2(net.version.Bits()) && net.base == And(a, Mask(net.version.Bits(), net.prefix));
    if x.version == net.version { MaskIsInterval(x.n, a, net.version.Bits(), net.prefix); }
  }

  // ---- what the texts of networks mean ----

  /** What is known of the IPv6 reader: an address fits into 128 bits, and its text has a colon and no slash. */
  ghost predicate Reader(v6: V6) {
    Bounded(v6) && forall s :: v6(s).Some? ==> ':' in s && '/' !in s
  }

  lemma {:induction false} JoinChars(parts: seq<string>, c: char)
    requires parts != []
    ensures forall x :: x in Join(parts, c) ==> x == c || exists p :: p in parts && x in p
  {
    if |parts| > 1 {
      JoinChars(parts[1..], c);
      forall x | x in Join(parts, c) ensures x == c || exists p :: p in parts && x in p {
        if x in parts[0] {
          assert parts[0] in parts;
        } else if x != c {
          var p :| p in parts[1..] && x in p;
          assert p in parts;
        }
      }
    }
  }

  /** The dotted text of four octets, most significant first */
  lemma DottedText(n: nat, a: nat, b: nat, c: nat, d: nat)
    requires a <= 255 && b <= 255 && c <= 255 && d <= 255
    requires n == a * 0x1000000 + b * 0x10000 + c * 0x100 + d
    ensures Print4(n) == Decimal(a) + "." + (Decimal(b) + "." + (Decimal(c) + "." + Decimal(d)))
  {
    assert Octets(n) == [Decimal(a), Decimal(b), Decimal(c), Decimal(d)] by { OctetsAre(n, a, b, c, d); }
    JoinFour(Decimal(a), Decimal(b), Decimal(c), Decimal(d));
  }

  lemma OctetsAre(n: nat, a: nat, b: nat, c: nat, d: nat)
    requires a <= 255 && b <= 255 && c <= 255 && d <= 255
    requires n == a * 0x1000000 + b * 0x10000 + c * 0x100 + d
    ensures Octets(n) == [Decimal(a), Decimal(b), Decimal(c), Decimal(d)]
  {
    assert n / 0x1000000 == a && n / 0x10000 % 256 == b && n / 0x100 % 256 == c && n % 256 == d by {
      assert n == Quad(a, b, c, d);
      QuadDigits(a, b, c, d);
    }
  }

  lemma JoinThree(p: string, q: string, r: string)
    ensures Join([p, q, r], '.') == p + ['.'] + (q + ['.'] + r)
  {
    assert [p, q, r][1..] == [q, r] && [q, r][1..] == [r];
    assert Join([q, r], '.') == q + ['.'] + r;
  }

  lemma JoinFour(p: string, q: string, r: string, s: string)
    ensures Join([p, q, r, s], '.') == p + ['.'] + (q + ['.'] + (r + ['.'] + s))
  {
    assert [p, q, r, s][1..] == [q, r, s];
    JoinThree(q, r, s);
  }

  lemma PlainText(n: nat)
    requires n < LIMIT4
    ensures Print4(n) != "" && forall c :: c in Print4(n) ==> IsDigit(c) || c == '.'
  {
    var o := Octets(n);
    DecimalReadsBack(n / 0x1000000);
    DecimalReadsBack(n / 0x10000 % 256);
    DecimalReadsBack(n / 0x100 % 256);
    DecimalReadsBack(n % 256);
    JoinChars(o, '.');
    assert forall p :: p in o ==> AllDigits(p);
  }

  lemma BlockIsQuotient(p: nat, s: nat, a: nat)
    requires p * s <= a < p * s + p
    ensures a / p == s
  {
    SameBlock(p, s, a / p, a);
  }

  lemma ShrIsDiv(a: nat, h: nat)
    ensures Shr(a, h) == a / Pow2(h)
  {
    ShrBounds(a, h);
    BlockIsQuotient(Pow2(h), Shr(a, h), a);
  }

  /** Two addresses agree under a mask exactly when they have the same quotient by the size of its blocks. */
  lemma MaskIsQuotient(x: nat, a: nat, bits: nat, prefix: nat)
    requires x < Pow2(bits) && a < Pow2(bits) && prefix <= bits
    ensures And(x, Mask(bits, prefix)) == And(a, Mask(bits, prefix))
      <==> x / Pow2(bits - prefix) == a / Pow2(bits - prefix)
  {
    var h := bits - prefix;
    MaskIs(bits, prefix);
    AndMask(x, bits, h, Mask(bits, prefix));
    AndMask(a, bits, h, Mask(bits, prefix));
    ShrIsDiv(x, h);
    ShrIsDiv(a, h);
    var s, t := Shr(x, h), Shr(a, h);
    if Pow2(h) * s == Pow2(h) * t { SameBlock(Pow2(h), s, t, Pow2(h) * s); }
  }

  lemma SlashText(s: string, t: string)
    requires '/' !in s && '/' !in t
    ensures Split(s + "/" + t, '/') == [s, t]
  {
    SplitCell(s, '/', t);
    SplitCell(t, '/', "");
    assert [s] + [t] == [s, t];
  }

  lemma NumeralPrefix(p: nat)
    ensures '/' !in Decimal(p)
    ensures Prefix(Four, Decimal(p)) == if p <= 32 then Some(p) else None
    ensures Prefix(Six, Decimal(p)) == if p <= 128 then Some(p) else None
  {
    DecimalReadsBack(p);
    SplitCell(Decimal(p), '.', "");
  }

  /** The network of an address and a prefix: none for a prefix beyond the bits, otherwise one block of addresses */
  predicate IsNetOf(net: Option<Net>, version: Version, n: nat, prefix: nat, x: Addr) {
    var bits := version.Bits();
    && (net.Some? <==> prefix <= bits)
    && (prefix <= bits ==>
          (InNet(x, net.value) <==> x.version == version && x.n / Pow2(bits - prefix) == n / Pow2(bits - prefix)))
  }

  lemma MadeNetIs(version: Version, n: nat, prefix: nat, x: Addr)
    requires n < Pow2(version.Bits()) && ValidAddr(x) && prefix <= version.Bits()
    ensures IsNetOf(Some(Net(version, And(n, Mask(version.Bits(), prefix)), prefix)), version, n, prefix, x)
  {
    if x.version == version { MaskIsQuotient(x.n, n, version.Bits(), prefix); }
  }

  /** Which addresses the text of an IPv4 network holds, with a prefix and without */
  lemma Cidr4Means(v6: V6, n: nat, prefix: nat, x: Addr)
    requires Reader(v6) && n < LIMIT4 && ValidAddr(x)
    ensures IsNetOf(ParseNet(v6, Print4(n) + "/" + Decimal(prefix)), Four, n, prefix, x)
    ensures ParseNet(v6, Print4(n)).Some? && (InNet(x, ParseNet(v6, Print4(n)).value) <==> x == Addr(Four, n))
  {
    var s := Print4(n);
    assert '/' !in s && ':' !in s by { PlainText(n); }
    assert v6(s).None?;
    assert Parse4(s) == Some(n) by { PrintedParses4(n); }
    assert n < Pow2(32) by { Limits(); }
    NetOfText4(v6, s, n, prefix, x);
    NetOfBare4(v6, s, n, x);
    assert Pow2(0) == 1;
  }

  lemma NetOfText4(v6: V6, s: string, n: nat, prefix: nat, x: Addr)
    requires '/' !in s && v6(s).None? && Parse4(s) == Some(n) && n < Pow2(32) && ValidAddr(x)
    ensures IsNetOf(ParseNet(v6, s + "/" + Decimal(prefix)), Four, n, prefix, x)
  {
    NumeralPrefix(prefix);
    if prefix <= 32 { NetOfParts4(v6, s, Decimal(prefix), n, prefix, x); } else { NoNetOfParts(v6, s, Decimal(prefix)); }
  }

  lemma NetOfParts4(v6: V6, s: string, t: string, n: nat, prefix: nat, x: Addr)
    requires '/' !in s && '/' !in t && Prefix(Four, t) == Some(prefix) && prefix <= 32
    requires Parse4(s) == Some(n) && n < Pow2(32) && ValidAddr(x)
    ensures IsNetOf(ParseNet(v6, s + "/" + t), Four, n, prefix, x)
  {
    SlashText(s, t);
    MadeNetIs(Four, n, prefix, x);
  }

  lemma NoNetOfParts(v6: V6, s: string, t: string)
    requires '/' !in s && '/' !in t
    requires (Parse4(s).None? || Prefix(Four, t).None?) && (v6(s).None? || Prefix(Six, t).None?)
    ensures ParseNet(v6, s + "/" + t) == None
  {
    SlashText(s, t);
  }

  lemma NetOfBare4(v6: V6, s: string, n: nat, x: Addr)
    requires '/' !in s && Parse4(s) == Some(n) && n < Pow2(32) && ValidAddr(x)
    ensures IsNetOf(ParseNet(v6, s), Four, n, 32, x)
  {
    SplitCell(s, '/', "");
    MadeNetIs(Four, n, 32, x);
  }

  /** The same for every text that is an IPv6 address */
  lemma Cidr6Means(v6: V6, s: string, n: nat, prefix: nat, x: Addr)
    requires Reader(v6) && v6(s) == Some(n) && ValidAddr(x)
    ensures IsNetOf(ParseNet(v6, s + "/" + Decimal(prefix)), Six, n, prefix, x)
    ensures ParseNet(v6, s).Some? && (InNet(x, ParseNet(v6, s).value) <==> x == Addr(Six, n))
  {
    if Parse4(s).Some? {
      ParsedPrints4(s);
      PlainText(Parse4(s).value);
    }
    assert n < Pow2(128) by { Limits(); }
    NetOfText6(v6, s, n, prefix, x);
    NetOfBare6(v6, s, n, x);
    assert Pow2(0) == 1;
  }

  lemma NetOfText6(v6: V6, s: string, n: nat, prefix: nat, x: Addr)
    requires '/' !in s && Parse4(s).None? && v6(s) == Some(n) && n < Pow2(128) && ValidAddr(x)
    ensures IsNetOf(ParseNet(v6, s + "/" + Decimal(prefix)), Six, n, prefix, x)
  {
    NumeralPrefix(prefix);
    if prefix <= 128 { NetOfParts6(v6, s, Decimal(prefix), n, prefix, x); } else { NoNetOfParts(v6, s, Decimal(prefix)); }
  }

  lemma NetOfParts6(v6: V6, s: string, t: string, n: nat, prefix: nat, x: Addr)
    requires '/' !in s && '/' !in t && Prefix(Six, t) == Some(prefix) && prefix <= 128
    requires Parse4(s).None? && v6(s) == Some(n) && n < Pow2(128) && ValidAddr(x)
    ensures IsNetOf(ParseNet(v6, s + "/" + t), Six, n, prefix, x)
  {
    SlashText(s, t);
    MadeNetIs(Six, n, prefix, x);
  }

  lemma NetOfBare6(v6: V6, s: string, n: nat, x: Addr)
    requires '/' !in s && Parse4(s).None? && v6(s) == Some(n) && n < Pow2(128) && ValidAddr(x)
    ensures IsNetOf(ParseNet(v6, s), Six, n, 128, x)
  {
    SplitCell(s, '/', "");
    MadeNetIs(Six, n, 128, x);
  }

  // ---- other texts after the slash ----

  /** A dotted mask after an IPv4 address: the network of the prefix that the mask means, or none if it means none */
  lemma Dotted4Means(v6: V6, n: nat, m: nat, prefix: nat, x: Addr)
    requires Reader(v6) && n < LIMIT4 && m < LIMIT4 && ValidAddr(x)
    ensures PrefixDotted(Print4(m)) == Some(prefix) ==>
      prefix <= 32 && IsNetOf(ParseNet(v6, Print4(n) + "/" + Print4(m)), Four, n, prefix, x)
    ensures PrefixDotted(Print4(m)) == None ==> ParseNet(v6, Print4(n) + "/" + Print4(m)) == None
  {
    var s, t := Print4(n), Print4(m);
    assert '/' !in s && ':' !in s by { PlainText(n); }
    assert v6(s).None?;
    assert Parse4(s) == Some(n) by { PrintedParses4(n); }
    assert '/' !in t && '.' in t by {
      PlainText(m);
      DottedHasDot(m);
    }
    assert n < Pow2(32) by { Limits(); }
    DottedMeans(m, prefix);
    assert Prefix(Four, t) == PrefixDotted(t) by { DotIsNoDigit(t); }
    if PrefixDotted(t) == Some(prefix) { NetOfParts4(v6, s, t, n, prefix, x); }
    if PrefixDotted(t) == None { NoNetOfParts(v6, s, t); }
  }

  lemma DotIsNoDigit(t: string)
    requires '.' in t
    ensures Prefix(Four, t) == PrefixDotted(t)
  {
    var i :| 0 <= i < |t| && t[i] == '.';
  }

  lemma DottedHasDot(m: nat)
    ensures '.' in Print4(m)
  {
    var o := Octets(m);
    assert Join(o, '.') == o[0] + ['.'] + Join(o[1..], '.');
    assert Print4(m)[|o[0]|] == '.';
  }

  /** After an IPv6 address anything but a numeral makes no network, dotted masks included. */
  lemma OnlyNumerals6(v6: V6, s: string, t: string)
    requires Reader(v6) && v6(s).Some? && '/' !in t && (t == "" || !AllDigits(t))
    ensures ParseNet(v6, s + "/" + t) == None
  {
    if Parse4(s).Some? {
      ParsedPrints4(s);
      PlainText(Parse4(s).value);
    }
    NoNetOfParts(v6, s, t);
  }
}
