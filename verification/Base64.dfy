/**
 * Bytes and their base64 forms: the encoders of sections 4 and 5 of RFC 4648, and the decoder of
 * Python's `base64` module, which skips characters outside the alphabet and stops at complete padding.
 */
module Base64 {
  import opened Basics

  type byte = n: nat | n < 256

  /** `s.encode()` for ASCII text */
  function Ascii(s: string): seq<byte>
    requires IsAscii(s)
  {
    seq(|s|, i requires 0 <= i < |s| => s[i] as int)
  }

  // ---- UTF-8 ----

  predicate IsTail(b: byte) { 0x80 <= b < 0xC0 }

  /** `b.decode("utf-8")`; `None` stands for `UnicodeDecodeError` */
  function DecodeUtf8(b: seq<byte>): Option<string>
    decreases |b|
  {
    if b == [] then Some("")
    else
      match FirstScalar(b)
      case None => None
      case Some((c, n)) =>
        match DecodeUtf8(b[n..])
        case None => None
        case Some(s) => Some([c] + s)
  }

  /** The first character of a UTF-8 text and the number of bytes it takes (section 3 of RFC 3629) */
  function FirstScalar(b: seq<byte>): (r: Option<(char, nat)>)
    requires b != []
    ensures r.Some? ==> 1 <= r.value.1 <= |b|
  {
    if b[0] < 0x80 then Some((b[0] as char, 1))
    else if 0xC2 <= b[0] < 0xE0 && |b| >= 2 && IsTail(b[1]) then
      Some((((b[0] as int - 0xC0) * 0x40 + (b[1] as int - 0x80)) as char, 2))
    else if 0xE0 <= b[0] < 0xF0 && |b| >= 3 && IsTail(b[1]) && IsTail(b[2]) then
      var n := (b[0] as int - 0xE0) * 0x1000 + (b[1] as int - 0x80) * 0x40 + (b[2] as int - 0x80);
      if 0x800 <= n < 0xD800 || 0xE000 <= n then Some((n as char, 3)) else None
    else if 0xF0 <= b[0] < 0xF5 && |b| >= 4 && IsTail(b[1]) && IsTail(b[2]) && IsTail(b[3]) then
      var n := (b[0] as int - 0xF0) * 0x40000 + (b[1] as int - 0x80) * 0x1000
               + (b[2] as int - 0x80) * 0x40 + (b[3] as int - 0x80);
      if 0x10000 <= n < 0x110000 then Some((n as char, 4)) else None
    else None
  }

  lemma {:induction false} Utf8Ascii(s: string)
    requires IsAscii(s)
    ensures DecodeUtf8(Ascii(s)) == Some(s)
  {
    if s != "" {
      Utf8Ascii(s[1..]);
      assert Ascii(s)[1..] == Ascii(s[1..]);
      assert [s[0]] + s[1..] == s;
    }
  }

  /** `c.encode()`: section 3 of RFC 3629 */
  function EncodeScalar(c: char): (r: seq<byte>)
    ensures 1 <= |r| <= 4
  {
    var n := c as int;
    if n < 0x80 then [n]
    else if n < 0x800 then [0xC0 + n / 0x40, 0x80 + n % 0x40]
    else if n < 0x10000 then [0xE0 + n / 0x1000, 0x80 + n / 0x40 % 0x40, 0x80 + n % 0x40]
    else [0xF0 + n / 0x40000, 0x80 + n / 0x1000 % 0x40, 0x80 + n / 0x40 % 0x40, 0x80 + n % 0x40]
  }

  function EncodeUtf8(s: string): seq<byte> {
    if s == "" then [] else EncodeScalar(s[0]) + EncodeUtf8(s[1..])
  }

  lemma ScalarIsRead(c: char, rest: seq<byte>)
    ensures FirstScalar(EncodeScalar(c) + rest) == Some((c, |EncodeScalar(c)|))
  {
    var n := c as int;
    var b := EncodeScalar(c) + rest;
    assert b[0] == EncodeScalar(c)[0];
    if 0x800 <= n < 0x10000 {
      assert n == n / 0x1000 * 0x1000 + n / 0x40 % 0x40 * 0x40 + n % 0x40 by { assert n / 0x1000 == n / 0x40 / 0x40; }
    } else if n >= 0x10000 {
      FourPlaces(n);
    }
  }

  lemma FourPlaces(n: nat)
    ensures n == n / 0x40000 * 0x40000 + n / 0x1000 % 0x40 * 0x1000 + n / 0x40 % 0x40 * 0x40 + n % 0x40
  {
    var x := n / 0x40;
    var y := x / 0x40;
    assert n / 0x1000 == y && n / 0x40000 == y / 0x40;
  }

  lemma ReadScalarIsEncoded(b: seq<byte>)
    requires b != [] && FirstScalar(b).Some?
    ensures var (c, n) := FirstScalar(b).value; EncodeScalar(c) == b[..n]
  {
    var (c, n) := FirstScalar(b).value;
    if n == 3 { ThreeDigits(b[0] - 0xE0, b[1] - 0x80, b[2] - 0x80); }
    if n == 4 { FourDigits(b[0] - 0xF0, b[1] - 0x80, b[2] - 0x80, b[3] - 0x80); }
  }

  lemma ThreeDigits(p: nat, q: nat, r: nat)
    requires q < 0x40 && r < 0x40
    ensures var n := p * 0x1000 + q * 0x40 + r; n / 0x1000 == p && n / 0x40 % 0x40 == q && n % 0x40 == r
  {
    var n := p * 0x1000 + q * 0x40 + r;
    assert n / 0x40 == p * 0x40 + q;
  }

  lemma FourDigits(o: nat, p: nat, q: nat, r: nat)
    requires p < 0x40 && q < 0x40 && r < 0x40
    ensures var n := o * 0x40000 + p * 0x1000 + q * 0x40 + r;
      n / 0x40000 == o && n / 0x1000 % 0x40 == p && n / 0x40 % 0x40 == q && n % 0x40 == r
  {
    var n := o * 0x40000 + p * 0x1000 + q * 0x40 + r;
    assert n / 0x40 == o * 0x1000 + p * 0x40 + q;
    assert n / 0x1000 == o * 0x40 + p;
  }

  /** A byte string decodes to a text exactly if it is the encoding of that text. */
  lemma {:induction false} Utf8Means(b: seq<byte>, s: string)
    ensures DecodeUtf8(b) == Some(s) <==> b == EncodeUtf8(s)
    decreases |b| + |s|
  {
    if s != "" && b == EncodeUtf8(s) {
      var rest := EncodeUtf8(s[1..]);
      ScalarIsRead(s[0], rest);
      assert b[|EncodeScalar(s[0])|..] == rest;
      Utf8Means(rest, s[1..]);
      assert [s[0]] + s[1..] == s;
    }
    if b != [] && DecodeUtf8(b) == Some(s) {
      ReadScalarIsEncoded(b);
      var (c, n) := FirstScalar(b).value;
      var t := DecodeUtf8(b[n..]).value;
      assert s == [c] + t && s[1..] == t;
      Utf8Means(b[n..], t);
      assert b == b[..n] + b[n..];
    }
  }

  // ---- the alphabet ----

  function Symbol(i: nat): char
    requires i < 64
  {
    if i < 26 then (65 + i) as char
    else if i < 52 then (71 + i) as char
    else if i < 62 then (i - 4) as char
    else if i == 62 then '+' else '/'
  }

  function Value(c: char): (r: Option<nat>)
    ensures r.Some? ==> r.value < 64
  {
    if 'A' <= c <= 'Z' then Some(c as int - 65)
    else if 'a' <= c <= 'z' then Some(c as int - 71)
    else if '0' <= c <= '9' then Some(c as int + 4)
    else if c == '+' then Some(62)
    else if c == '/' then Some(63)
    else None
  }

  /** The alphabet of section 4 of RFC 4648 */
  lemma SymbolsAre(i: nat)
    ensures i < 26 ==> Symbol(i) == "ABCDEFGHIJKLMNOPQRSTUVWXYZ"[i] && Symbol(26 + i) == "abcdefghijklmnopqrstuvwxyz"[i]
    ensures i < 10 ==> Symbol(52 + i) == "0123456789"[i]
    ensures Symbol(62) == '+' && Symbol(63) == '/'
  {
    var upper, low, digits := "ABCDEFGHIJKLMNOPQRSTUVWXYZ", "abcdefghijklmnopqrstuvwxyz", "0123456789";
    assert forall k :: 0 <= k < 26 ==> upper[k] as int == 65 + k && low[k] as int == 97 + k;
    assert forall k :: 0 <= k < 10 ==> digits[k] as int == 48 + k;
  }

  lemma SymbolValue(i: nat)
    requires i < 64
    ensures Value(Symbol(i)) == Some(i)
  {}

  /** A character of the URL-safe alphabet */
  predicate IsUrlSafe(c: char) {
    'A' <= c <= 'Z' || 'a' <= c <= 'z' || '0' <= c <= '9' || c == '-' || c == '_'
  }

  function ToUrl(s: string): (r: string)
    ensures |r| == |s|
  {
    seq(|s|, i requires 0 <= i < |s| => if s[i] == '+' then '-' else if s[i] == '/' then '_' else s[i])
  }

  function FromUrl(s: string): (r: string)
    ensures |r| == |s|
  {
    seq(|s|, i requires 0 <= i < |s| => if s[i] == '-' then '+' else if s[i] == '_' then '/' else s[i])
  }

  // ---- encoding ----

  /** The symbols of a byte string up to its last incomplete group, whose padding is `one` or `two` */
  function Group(b: seq<byte>, one: string, two: string): string {
    if b == [] then ""
    else if |b| == 1 then [Symbol(b[0] / 4)] + ([Symbol(b[0] % 4 * 16)] + two)
    else
      var rest :=
        if |b| == 2 then [Symbol(b[1] % 16 * 4)] + one
        else [Symbol(b[1] % 16 * 4 + b[2] / 64)] + ([Symbol(b[2] % 64)] + Group(b[3..], one, two));
      [Symbol(b[0] / 4)] + ([Symbol(b[0] % 4 * 16 + b[1] / 16)] + rest)
  }

  /** `base64.b64encode(b).decode()` */
  function Encode(b: seq<byte>): string { Group(b, "=", "==") }

  /** The symbols without padding */
  function Symbols(b: seq<byte>): string { Group(b, "", "") }

  function Pads(n: nat): (r: string)
    ensures |r| == n && forall i :: 0 <= i < n ==> r[i] == '='
  {
    seq(n, i => '=')
  }

  /** `base64.urlsafe_b64encode(b).decode()` */
  function UrlEncode(b: seq<byte>): string { ToUrl(Encode(b)) }

  /** `s.rstrip("=")` */
  function StripPads(s: string): string {
    if s != "" && s[|s| - 1] == '=' then StripPads(s[..|s| - 1]) else s
  }

  // ---- decoding ----

  /** `binascii.a2b_base64` from a state with `quad` symbols of a group read, `left` bits kept and `pads` seen */
  function Scan(s: string, quad: nat, left: nat, pads: nat): Option<seq<byte>>
    requires quad < 4 && left < 64
    requires (quad == 2 ==> left < 16) && (quad == 3 ==> left < 4)
  {
    if s == "" then if quad == 0 then Some([]) else None
    else if s[0] == '=' then
      if quad >= 2 && quad + pads + 1 >= 4 then Some([])
      else Scan(s[1..], quad, left, if quad >= 2 then pads + 1 else pads)
    else
      match Value(s[0])
      case None => Scan(s[1..], quad, left, pads)
      case Some(v) =>
        if quad == 0 then Scan(s[1..], 1, v, 0)
        else if quad == 1 then Emit(left * 4 + v / 16, Scan(s[1..], 2, v % 16, 0))
        else if quad == 2 then Emit(left * 16 + v / 4, Scan(s[1..], 3, v % 4, 0))
        else Emit(left * 64 + v, Scan(s[1..], 0, 0, 0))
  }

  function Emit(b: byte, rest: Option<seq<byte>>): Option<seq<byte>> {
    match rest
    case Some(r) => Some([b] + r)
    case None => None
  }

  /** `base64.b64decode(s)`; `None` stands for the exceptions it raises */
  function Decode(s: string): Option<seq<byte>> {
    if IsAscii(s) then Scan(s, 0, 0, 0) else None
  }

  /** `base64.urlsafe_b64decode(s)` */
  function UrlDecode(s: string): Option<seq<byte>> {
    if IsAscii(s) then Scan(FromUrl(s), 0, 0, 0) else None
  }

  // ---- the round trip ----

  lemma {:induction false} SymbolsShape(b: seq<byte>)
    ensures |Symbols(b)| == 4 * (|b| / 3) + (if |b| % 3 == 0 then 0 else |b| % 3 + 1)
    ensures forall i :: 0 <= i < |Symbols(b)| ==> Value(Symbols(b)[i]).Some?
  {
    if |b| >= 3 { SymbolsShape(b[3..]); }
    forall i: nat | i < 64 ensures Value(Symbol(i)) == Some(i) { SymbolValue(i); }
  }

  /** One symbol of the alphabet in each of the four states */
  lemma ScanSymbol(v: nat, left: nat, pads: nat, k: string)
    requires v < 64 && left < 64
    ensures Scan([Symbol(v)] + k, 0, left, pads) == Scan(k, 1, v, 0)
    ensures Scan([Symbol(v)] + k, 1, left, pads) == Emit(left * 4 + v / 16, Scan(k, 2, v % 16, 0))
    ensures left < 16 ==> Scan([Symbol(v)] + k, 2, left, pads) == Emit(left * 16 + v / 4, Scan(k, 3, v % 4, 0))
    ensures left < 4 ==> Scan([Symbol(v)] + k, 3, left, pads) == Emit(left * 64 + v, Scan(k, 0, 0, 0))
  {
    SymbolValue(v);
    assert ([Symbol(v)] + k)[1..] == k;
  }

  lemma PadsDecode(left: nat)
    requires left < 16
    ensures Scan("==", 2, left, 0) == Some([])
    ensures left < 4 ==> Scan("=", 3, left, 0) == Some([])
  {
    assert "=="[1..] == "=";
    assert Scan("=", 2, left, 1) == Some([]);
  }

  /** The two symbols that carry a byte, in front of any text */
  lemma FirstByte(x: byte, m: nat, k: string)
    requires m < 16
    ensures Scan([Symbol(x / 4)] + ([Symbol(x % 4 * 16 + m)] + k), 0, 0, 0) == Emit(x, Scan(k, 2, m, 0))
  {
    var a, b := x / 4, x % 4 * 16 + m;
    ScanSymbol(a, 0, 0, [Symbol(b)] + k);
    ScanSymbol(b, a, 0, k);
    assert b / 16 == x % 4 && b % 16 == m && a * 4 + x % 4 == x;
  }

  lemma SecondByte(y: byte, m: nat, k: string)
    requires m < 4
    ensures Scan([Symbol(y % 16 * 4 + m)] + k, 2, y / 16, 0) == Emit(y, Scan(k, 3, m, 0))
  {
    var v := y as int % 16 * 4 + m;
    ScanSymbol(v, y / 16, 0, k);
    assert v / 4 == y as int % 16 && v % 4 == m && y as int / 16 * 16 + y as int % 16 == y as int;
  }

  lemma ThirdByte(z: byte, k: string)
    ensures Scan([Symbol(z % 64)] + k, 3, z / 64, 0) == Emit(z, Scan(k, 0, 0, 0))
  {
    ScanSymbol(z % 64, z / 64, 0, k);
  }

  lemma ScanOne(b: seq<byte>)
    requires |b| == 1
    ensures Scan(Encode(b), 0, 0, 0) == Some(b)
  {
    FirstByte(b[0], 0, "==");
    PadsDecode(0);
    assert [b[0]] + [] == b;
  }

  lemma ScanTwo(b: seq<byte>)
    requires |b| == 2
    ensures Scan(Encode(b), 0, 0, 0) == Some(b)
  {
    FirstByte(b[0], b[1] / 16, [Symbol(b[1] % 16 * 4)] + "=");
    SecondByte(b[1], 0, "=");
    PadsDecode(0);
    assert [b[0]] + ([b[1]] + []) == b;
  }

  lemma ScanGroup(b: seq<byte>)
    requires |b| >= 3
    ensures Scan(Encode(b), 0, 0, 0) == Emit(b[0], Emit(b[1], Emit(b[2], Scan(Encode(b[3..]), 0, 0, 0))))
  {
    var third := [Symbol(b[2] % 64)] + Encode(b[3..]);
    FirstByte(b[0], b[1] / 16, [Symbol(b[1] % 16 * 4 + b[2] / 64)] + third);
    SecondByte(b[1], b[2] / 64, third);
    ThirdByte(b[2], Encode(b[3..]));
  }

  lemma {:induction false} ScanEncode(b: seq<byte>)
    ensures Scan(Encode(b), 0, 0, 0) == Some(b)
  {
    if |b| == 1 {
      ScanOne(b);
    } else if |b| == 2 {
      ScanTwo(b);
    } else if |b| >= 3 {
      ScanEncode(b[3..]);
      ScanGroup(b);
      assert [b[0]] + ([b[1]] + ([b[2]] + b[3..])) == b;
    }
  }

  lemma {:induction false} EncodeSplits(b: seq<byte>)
    ensures Encode(b) == Symbols(b) + Pads((3 - |b| % 3) % 3)
  {
    if |b| >= 3 { EncodeSplits(b[3..]); }
  }

  lemma EncodeIsAscii(b: seq<byte>)
    ensures IsAscii(Encode(b)) && IsAscii(UrlEncode(b))
    ensures |Encode(b)| % 4 == 0
  {
    SymbolsShape(b);
    EncodeSplits(b);
    forall i | 0 <= i < |Encode(b)| ensures Encode(b)[i] as int < 128 {
      if i < |Symbols(b)| { assert Value(Symbols(b)[i]).Some?; }
    }
  }

  lemma DecodeEncode(b: seq<byte>)
    ensures Decode(Encode(b)) == Some(b)
    ensures UrlDecode(UrlEncode(b)) == Some(b)
  {
    EncodeIsAscii(b);
    ScanEncode(b);
    SymbolsShape(b);
    EncodeSplits(b);
    forall i | 0 <= i < |Encode(b)| ensures FromUrl(ToUrl(Encode(b)))[i] == Encode(b)[i] {
      if i < |Symbols(b)| { assert Value(Symbols(b)[i]).Some?; }
    }
    assert FromUrl(ToUrl(Encode(b))) == Encode(b);
  }

  /** Two byte strings with the same base64 text are equal. */
  /** Three bytes are four symbols of six bits each; one or two bytes are padded to four symbols with zero bits. */
  lemma GroupMeans(x: byte, y: byte, z: byte, rest: seq<byte>, p: nat, q: nat, r: nat, s: nat)
    requires p < 64 && q < 64 && r < 64 && s < 64
    ensures x * 0x10000 + y * 0x100 + z == ((p * 64 + q) * 64 + r) * 64 + s ==>
      Encode([x, y, z] + rest) == [Symbol(p)] + ([Symbol(q)] + ([Symbol(r)] + ([Symbol(s)] + Encode(rest))))
    ensures x * 0x10000 + y * 0x100 == ((p * 64 + q) * 64 + r) * 64 ==>
      Encode([x, y]) == [Symbol(p)] + ([Symbol(q)] + ([Symbol(r)] + "="))
    ensures x * 0x10000 == (p * 64 + q) * 0x1000 ==> Encode([x]) == [Symbol(p)] + ([Symbol(q)] + "==")
  {
    if x * 0x10000 + y * 0x100 + z == ((p * 64 + q) * 64 + r) * 64 + s {
      SixBits(x, y, z, p, q, r, s);
      assert ([x, y, z] + rest)[3..] == rest;
    }
    if x * 0x10000 + y * 0x100 == ((p * 64 + q) * 64 + r) * 64 { SixBits(x, y, 0, p, q, r, 0); }
    if x * 0x10000 == (p * 64 + q) * 0x1000 { SixBits(x, 0, 0, p, q, 0, 0); }
  }

  lemma SixBits(x: byte, y: byte, z: byte, p: nat, q: nat, r: nat, s: nat)
    requires p < 64 && q < 64 && r < 64 && s < 64
    requires x * 0x10000 + y * 0x100 + z == p * 0x40000 + q * 0x1000 + r * 0x40 + s
    ensures x / 4 == p && x % 4 * 16 + y / 16 == q && y % 16 * 4 + z / 64 == r && z % 64 == s
  {
    var n := x * 0x10000 + y * 0x100 + z;
    assert n / 0x40000 == p && n / 0x1000 == p * 64 + q && n / 0x40 == p * 0x1000 + q * 64 + r;
  }

  lemma {:induction false} ScanSkips(s: string, c: char, t: string, quad: nat, left: nat, pads: nat)
    requires quad < 4 && left < 64 && (quad == 2 ==> left < 16) && (quad == 3 ==> left < 4)
    requires Value(c).None? && c != '='
    ensures Scan(s + [c] + t, quad, left, pads) == Scan(s + t, quad, left, pads)
  {
    var u := s + [c] + t;
    if s == "" {
      assert u[0] == c && u[1..] == t && s + t == t;
    } else {
      assert u[0] == s[0] && u[1..] == s[1..] + [c] + t;
      assert (s + t)[0] == s[0] && (s + t)[1..] == s[1..] + t;
      if s[0] == '=' {
        if quad < 2 || quad + pads + 1 < 4 { ScanSkips(s[1..], c, t, quad, left, if quad >= 2 then pads + 1 else pads); }
      } else if Value(s[0]).None? {
        ScanSkips(s[1..], c, t, quad, left, pads);
      } else {
        var v := Value(s[0]).value;
        ScanSkips(s[1..], c, t, (quad + 1) % 4,
                  if quad == 0 then v else if quad == 1 then v % 16 else if quad == 2 then v % 4 else 0, 0);
      }
    }
  }

  /** A character outside the alphabet changes nothing wherever it stands, if it is ASCII; any other one is an error. */
  lemma JunkIsSkipped(s: string, c: char, t: string)
    requires Value(c).None? && c != '='
    ensures c as int < 128 ==> Decode(s + [c] + t) == Decode(s + t)
    ensures c as int >= 128 ==> Decode(s + [c] + t) == None
  {
    var u := s + [c] + t;
    assert u[|s|] == c;
    ScanSkips(s, c, t, 0, 0, 0);
    assert forall i :: 0 <= i < |s + t| ==> (s + t)[i] == u[if i < |s| then i else i + 1];
    assert forall i :: 0 <= i < |u| && i != |s| ==> u[i] == (s + t)[if i < |s| then i else i - 1];
  }

  /** Symbols without padding that do not fill their last group are an error. */
  lemma {:induction false} PartialGroupFails(s: string, quad: nat, left: nat, pads: nat)
    requires quad < 4 && left < 64 && (quad == 2 ==> left < 16) && (quad == 3 ==> left < 4)
    requires (forall i :: 0 <= i < |s| ==> Value(s[i]).Some?) && (quad + |s|) % 4 != 0
    ensures Scan(s, quad, left, pads) == None
  {
    if s != "" {
      var v := Value(s[0]).value;
      PartialGroupFails(s[1..], (quad + 1) % 4,
                        if quad == 0 then v else if quad == 1 then v % 16 else if quad == 2 then v % 4 else 0, 0);
    }
  }

  /** What the URL-safe form has instead of the last two symbols */
  lemma UrlSymbols()
    ensures ToUrl([Symbol(62), Symbol(63), 'A', '=']) == ['-', '_', 'A', '=']
    ensures FromUrl(['-', '_', 'A', '=']) == [Symbol(62), Symbol(63), 'A', '=']
  {}

  lemma EncodeIsInjective(a: seq<byte>, b: seq<byte>)
    requires Encode(a) == Encode(b)
    ensures a == b
  {
    ScanEncode(a);
    ScanEncode(b);
  }

  lemma StripOne(t: string)
    ensures StripPads(t + ['=']) == StripPads(t)
  {
    assert (t + ['='])[..|t|] == t;
  }

  lemma {:induction false} StripAppended(s: string, n: nat)
    requires s == "" || s[|s| - 1] != '='
    ensures StripPads(s + Pads(n)) == s
  {
    if n == 0 {
      assert s + Pads(0) == s;
    } else {
      StripAppended(s, n - 1);
      Assoc(s, Pads(n - 1), ['=']);
      assert Pads(n) == Pads(n - 1) + ['='];
      StripOne(s + Pads(n - 1));
    }
  }

  lemma UrlEncodeSplits(b: seq<byte>)
    ensures UrlEncode(b) == ToUrl(Symbols(b)) + Pads((3 - |b| % 3) % 3)
    ensures forall i :: 0 <= i < |Symbols(b)| ==> IsUrlSafe(ToUrl(Symbols(b))[i])
  {
    SymbolsShape(b);
    EncodeSplits(b);
    forall i | 0 <= i < |Symbols(b)| ensures IsUrlSafe(ToUrl(Symbols(b))[i]) {
      assert Value(Symbols(b)[i]).Some?;
    }
  }

  /**
   * Unpadded base64url (section 2 and appendix C of RFC 7515): only URL-safe characters are left, the length
   * is never 1 modulo 4, and `(4 - len % 4) % 4` padding characters restore what was stripped.
   */
  lemma StrippedShape(b: seq<byte>)
    ensures var p := StripPads(UrlEncode(b));
      && (forall i :: 0 <= i < |p| ==> IsUrlSafe(p[i]))
      && |p| % 4 != 1
      && p + Pads((4 - |p| % 4) % 4) == UrlEncode(b)
  {
    UrlEncodeSplits(b);
    var p, n := ToUrl(Symbols(b)), (3 - |b| % 3) % 3;
    assert |p| % 4 != 1 && (4 - |p| % 4) % 4 == n by { SymbolsShape(b); }
    StripAppended(p, n);
  }

  /** Decoding undoes encoding even when the padding was stripped in between. */
  lemma StrippedDecodes(b: seq<byte>)
    ensures var p := StripPads(UrlEncode(b)); UrlDecode(p + Pads((4 - |p| % 4) % 4)) == Some(b)
  {
    StrippedShape(b);
    DecodeEncode(b);
  }
}
