/** Who the user is: `check_identity` of the authorization bridge, from the proxy's answer to its claims. */
module Identity {
  import opened Basics
  import opened Json
  import opened Jwt

  // ---- Python's printed forms ----

  /** Which characters beyond ASCII `repr` leaves as they are is a table of the Unicode standard. */
  type Printable = char -> bool

  function Hex(n: nat, digits: nat): string {
    if digits == 0 then "" else Hex(n / 16, digits - 1) + [HexDigit(n % 16)]
  }

  function ReprChar(c: char, quote: char, printable: Printable): string {
    if c == quote || c == '\\' then ['\\', c]
    else if c == '\n' then "\\n"
    else if c == '\r' then "\\r"
    else if c == '\t' then "\\t"
    else if ' ' <= c <= '~' || (c as int >= 128 && printable(c)) then [c]
    else if c as int < 0x100 then "\\x" + Hex(c as int, 2)
    else if c as int < 0x10000 then "\\u" + Hex(c as int, 4)
    else "\\U" + Hex(c as int, 8)
  }

  function ReprChars(s: string, quote: char, printable: Printable): string {
    if s == "" then "" else ReprChar(s[0], quote, printable) + ReprChars(s[1..], quote, printable)
  }

  /** `repr(s)`: single quotes unless the text has single quotes only */
  function ReprStr(s: string, printable: Printable): string {
    var quote := if '\'' in s && '"' !in s then '"' else '\'';
    [quote] + (ReprChars(s, quote, printable) + [quote])
  }

  function Repr(v: Json, printable: Printable): string {
    match v
    case Null => "None"
    case Bool(b) => if b then "True" else "False"
    case Int(n) => PrintInt(n, "")
    case Str(s) => ReprStr(s, printable)
    case Arr(items) => "[" + (ReprItems(items, printable) + "]")
    case Obj(f) => "{" + (ReprFields(f, printable) + "}")
  }

  function ReprItems(items: Items, printable: Printable): string {
    if items.Nil? then ""
    else if items.tail.Nil? then Repr(items.head, printable)
    else Repr(items.head, printable) + (", " + ReprItems(items.tail, printable))
  }

  function ReprFields(f: Fields, printable: Printable): string {
    if f.Empty? then ""
    else
      var entry := ReprStr(f.key, printable) + (": " + Repr(f.value, printable));
      if f.rest.Empty? then entry else entry + (", " + ReprFields(f.rest, printable))
  }

  /** `str(v)` */
  function PyStr(v: Json, printable: Printable): string {
    if v.Str? then v.s else Repr(v, printable)
  }

  // ---- claims ----

  function HasItem(items: Items, v: Json): bool {
    items.Cons? && (items.head == v || HasItem(items.tail, v))
  }

  /** `name in v`; `None` stands for `TypeError` */
  function MemberOf(name: string, v: Json): Option<bool> {
    match v
    case Arr(items) => Some(HasItem(items, Str(name)))
    case Str(s) => Some(Contains(s, name))
    case Obj(f) => Some(name in Keys(f))
    case _ => None
  }

  /** `"webauthn" in amr or "mfa" in str(amr).lower()` */
  function MfaVerified(amr: Json, printable: Printable): Option<bool> {
    match MemberOf("webauthn", amr)
    case None => None
    case Some(b) => Some(b || Contains(Lower(PyStr(amr, printable)), "mfa"))
  }

  /** The digits of an `int(s)` literal, where single underscores may separate digits */
  function Digits(s: string): (r: Option<string>)
    ensures r.Some? ==> AllDigits(r.value)
  {
    if s == "" || !IsDigit(s[0]) then None
    else if |s| == 1 then Some(s)
    else
      var rest := if s[1] == '_' then s[2..] else s[1..];
      match Digits(rest)
      case Some(d) => Some([s[0]] + d)
      case None => None
  }

  /** `int(s)` for a string; `None` stands for `ValueError` */
  function IntOf(s: string): Option<int> {
    var t := Strip(s);
    var signed := t != "" && (t[0] == '-' || t[0] == '+');
    match Digits(if signed then t[1..] else t)
    case None => None
    case Some(d) => var n: int := Numeral(d); Some(if t[0] == '-' then -n else n)
  }

  /** `int(v or 0)` */
  function AuthTime(v: Json): Option<int> {
    match v
    case Null => Some(0)
    case Bool(b) => Some(if b then 1 else 0)
    case Int(n) => Some(n)
    case Str(s) => if s == "" then Some(0) else IntOf(s)
    case Arr(items) => if items.Nil? then Some(0) else None
    case Obj(f) => if f.Empty? then Some(0) else None
  }

  /** What oauth2-proxy answers to the session check; `Unreachable` covers every failure of the request. */
  datatype ProxyReply = Unreachable | ProxyReply(status: int, authorization: string, email: string)

  /** `Failed` stands for an exception that nothing catches. */
  datatype Identity =
    | Failed
    | Anonymous
    | User(email: Json, mfa: bool, authTime: int, groups: Json, isAdmin: bool)

  function CheckIdentity(reply: ProxyReply, printable: Printable): Identity {
    if reply.Unreachable? || reply.status != 202 then Anonymous
    else
      var token := DecodeIdToken(reply.authorization);
      if !token.Obj? then Failed else FromClaims(token.fields, reply.email, printable)
  }

  function FromClaims(claims: Fields, email: string, printable: Printable): Identity {
    var amr := GetOr(claims, "amr", Arr(Nil));
    var groups := GetOr(claims, "groups", Arr(Nil));
    match (MemberOf("admins", groups), MfaVerified(amr, printable), AuthTime(GetOr(claims, "auth_time", Int(0))))
    case (Some(admin), Some(mfa), Some(authTime)) =>
      User(GetOr(claims, "email", Str(email)), mfa, authTime, groups, admin)
    case _ => Failed
  }

  // ---- which tokens give which identity ----

  /** The literals of `int(s)` without sign: groups of digits with single underscores between them */
  predicate IsLiteral(s: string) { forall p :: p in Split(s, '_') ==> p != "" && AllDigits(p) }

  function Joined(parts: seq<string>): string { if parts == [] then "" else parts[0] + Joined(parts[1..]) }

  lemma {:induction false} DigitsMean(s: string)
    ensures Digits(s).Some? <==> IsLiteral(s)
    ensures Digits(s).Some? ==> Digits(s).value == Joined(Split(s, '_'))
    decreases |s|
  {
    if s == "" {
      assert "" in Split(s, '_');
    } else if s[0] == '_' {
      assert "" in Split(s, '_');
    } else {
      var tail := Split(s[1..], '_');
      var parts := Split(s, '_');
      assert parts == [[s[0]] + tail[0]] + tail[1..];
      if !IsDigit(s[0]) {
        assert parts[0] in parts && parts[0][0] == s[0];
      } else if |s| == 1 {
        assert s[1..] == "" && [s[0]] + "" == s;
        assert parts == [s] && parts[1..] == [];
      } else if s[1] == '_' {
        DigitsMean(s[2..]);
        assert s[1..][1..] == s[2..] && tail == [""] + Split(s[2..], '_');
        assert [s[0]] + tail[0] == [s[0]] && tail[1..] == Split(s[2..], '_');
        GroupStarts(s[0], Split(s[2..], '_'), parts);
      } else {
        DigitsMean(s[1..]);
        GroupGrows(s[0], tail, parts);
      }
    }
  }

  lemma GroupStarts(c: char, rest: seq<string>, parts: seq<string>)
    requires IsDigit(c) && parts == [[c]] + rest
    ensures (forall p :: p in parts ==> p != "" && AllDigits(p)) <==> (forall p :: p in rest ==> p != "" && AllDigits(p))
    ensures Joined(parts) == [c] + Joined(rest)
  {
    assert parts[1..] == rest && parts[0] == [c];
    assert forall p :: p in parts <==> p == [c] || p in rest;
  }

  lemma GroupGrows(c: char, tail: seq<string>, parts: seq<string>)
    requires IsDigit(c) && tail != [] && tail[0] != "" && parts == [[c] + tail[0]] + tail[1..]
    ensures (forall p :: p in parts ==> p != "" && AllDigits(p)) <==> (forall p :: p in tail ==> p != "" && AllDigits(p))
    ensures Joined(parts) == [c] + Joined(tail)
  {
    assert parts[1..] == tail[1..];
    assert parts[0][1..] == tail[0];
    assert forall p :: p in tail <==> p == tail[0] || p in tail[1..];
    assert forall p :: p in parts <==> p == parts[0] || p in tail[1..];
    assert AllDigits(parts[0]) <==> AllDigits(tail[0]) by {
      assert forall i :: 0 <= i < |tail[0]| ==> parts[0][i + 1] == tail[0][i];
    }
    assert tail[0] in tail && parts[0] in parts;
    Assoc([c], tail[0], Joined(tail[1..]));
  }

  function Unsigned(s: string): string { if s != "" && (s[0] == '-' || s[0] == '+') then s[1..] else s }

  /** Which texts are numbers, and which ones */
  lemma IntOfMeans(s: string)
    ensures IntOf(s).Some? <==> IsLiteral(Unsigned(Strip(s)))
    ensures IntOf(s).Some? ==> AllDigits(Joined(Split(Unsigned(Strip(s)), '_')))
    ensures IntOf(s).Some? ==>
      var n: int := Numeral(Joined(Split(Unsigned(Strip(s)), '_')));
      IntOf(s).value == if Strip(s)[..1] == "-" then -n else n
  {
    DigitsMean(Unsigned(Strip(s)));
    SignedLiteral(Strip(s), s);
  }

  lemma SignedLiteral(t: string, s: string)
    requires t == Strip(s)
    ensures IntOf(s).Some? <==> Digits(Unsigned(t)).Some?
    ensures IntOf(s).Some? ==>
      var n: int := Numeral(Digits(Unsigned(t)).value);
      IntOf(s).value == if t[..1] == "-" then -n else n
  {
    assert Digits("").None?;
  }

  /** The login times that `int(v or 0)` reads; everything that is false counts as 0. */
  predicate TimeReads(v: Json) {
    match v
    case Str(s) => s == "" || IsLiteral(Unsigned(Strip(s)))
    case Arr(items) => items.Nil?
    case Obj(f) => f.Empty?
    case _ => true
  }

  /** The values in which `in` can look for a name */
  predicate Searchable(v: Json) { v.Arr? || v.Str? || v.Obj? }

  /** The name is an item of a list, a key of a dict or a part of a text. */
  ghost predicate Holds(name: string, v: Json) {
    match v
    case Arr(items) => Str(name) in Elements(items)
    case Obj(f) => name in Keys(f)
    case Str(s) => exists a, b :: s == a + name + b
    case _ => false
  }

  lemma {:induction false} HasItemMeans(items: Items, v: Json)
    ensures HasItem(items, v) <==> v in Elements(items)
  {
    if items.Cons? { HasItemMeans(items.tail, v); }
  }

  lemma MemberMeans(name: string, v: Json)
    ensures MemberOf(name, v).Some? <==> Searchable(v)
    ensures MemberOf(name, v) == Some(true) <==> Holds(name, v)
  {
    match v
    case Arr(items) =>
      HasItemMeans(items, Str(name));
      assert MemberOf(name, v) == Some(HasItem(items, Str(name)));
    case Str(s) =>
      ContainsMeans(s, name);
      assert MemberOf(name, v) == Some(Contains(s, name));
    case Obj(f) =>
      assert MemberOf(name, v) == Some(name in Keys(f));
    case _ =>
  }

  lemma AuthTimeMeans(v: Json)
    ensures AuthTime(v).Some? <==> TimeReads(v)
    ensures v in {Null, Bool(false), Str(""), Arr(Nil), Obj(Empty)} ==> AuthTime(v) == Some(0)
    ensures AuthTime(Bool(true)) == Some(1) && (v.Int? ==> AuthTime(v) == Some(v.n))
    ensures v.Str? && v.s != "" ==> AuthTime(v) == IntOf(v.s)
  {
    if v.Str? { IntOfMeans(v.s); }
  }

  /**
   * The identity behind an answer of 202: an exception exactly if the token's payload is no dict, or its groups or
   * methods cannot be searched, or its login time is no number; otherwise the user that the claims describe.
   */
  lemma SignedInMeans(authorization: string, email: string, printable: Printable)
    ensures var id := CheckIdentity(ProxyReply(202, authorization, email), printable);
      var token := DecodeIdToken(authorization);
      && !id.Anonymous?
      && (!id.Failed? <==> (
            && token.Obj? && Searchable(GetOr(token.fields, "groups", Arr(Nil)))
            && Searchable(GetOr(token.fields, "amr", Arr(Nil))) && TimeReads(GetOr(token.fields, "auth_time", Int(0)))))
      && (id.User? ==>
            && id.email == GetOr(token.fields, "email", Str(email))
            && id.groups == GetOr(token.fields, "groups", Arr(Nil))
            && (id.isAdmin <==> Holds("admins", id.groups))
            && Some(id.authTime) == AuthTime(GetOr(token.fields, "auth_time", Int(0)))
            && var amr := GetOr(token.fields, "amr", Arr(Nil)); (id.mfa <==> Holds("webauthn", amr) || Mentions(amr)))
  {
    var token := DecodeIdToken(authorization);
    if token.Obj? {
      MemberMeans("admins", GetOr(token.fields, "groups", Arr(Nil)));
      MfaOfAny(GetOr(token.fields, "amr", Arr(Nil)), printable);
      AuthTimeMeans(GetOr(token.fields, "auth_time", Int(0)));
    }
  }

  /**
   * An answer of 202 without claims, because the header is no bearer token or its payload cannot be decoded, makes an
   * ordinary user with the proxy's email, without methods and login time.
   */
  lemma WithoutClaims(authorization: string, email: string, printable: Printable)
    requires Payload(authorization).None? || Payload(authorization) == Some(Obj(Empty))
    ensures CheckIdentity(ProxyReply(202, authorization, email), printable) == User(Str(email), false, 0, Arr(Nil), false)
  {
    MfaMeans([], printable);
    assert Names([]) == Nil;
  }

  lemma {:induction false} DigitsReadBack(s: string)
    requires s != "" && AllDigits(s)
    ensures Digits(s) == Some(s)
  {
    if |s| > 1 {
      DigitsReadBack(s[1..]);
      assert [s[0]] + s[1..] == s && IsDigit(s[1]);
    }
  }

  /** A login time given as text means the number that it prints. */
  lemma PrintedTimeIsRead(n: int)
    ensures AuthTime(Str(PrintInt(n, ""))) == Some(n)
  {
    var m: nat := if n < 0 then -n else n;
    DecimalReadsBack(m);
    assert Decimal(m) + "" == Decimal(m);
    if n < 0 { NegativeIsRead(Decimal(m)); } else { NumeralIsRead(Decimal(m)); }
  }

  lemma NumeralIsRead(d: string)
    requires d != "" && AllDigits(d)
    ensures IntOf(d) == Some(Numeral(d))
  {
    DigitsReadBack(d);
    assert !IsBlank(d[0]) && !IsBlank(d[|d| - 1]);
  }

  lemma NegativeIsRead(d: string)
    requires d != "" && AllDigits(d)
    ensures var n: int := Numeral(d); IntOf("-" + d) == Some(-n)
  {
    DigitsReadBack(d);
    var s := "-" + d;
    assert s[1..] == d && s[..1] == "-" && Strip(s) == s by { assert s[0] == '-' && s[|s| - 1] == d[|d| - 1]; }
    SignedLiteral(s, s);
  }

  /** The dict that `check_identity` returns */
  function Dict(id: Identity): Fields
    requires !id.Failed?
  {
    if id.Anonymous? then Field("authenticated", Bool(false), Empty)
    else
      Field("authenticated", Bool(true), Field("email", id.email, Field("mfa_verified", Bool(id.mfa),
        Field("auth_time", Int(id.authTime), Field("groups", id.groups, Field("is_admin", Bool(id.isAdmin), Empty))))))
  }

  /** What the dict holds for a user, and that it holds nothing but the flag for anybody else */
  lemma DictSays(id: Identity)
    requires !id.Failed?
    ensures Get(Dict(id), "authenticated") == Some(Bool(id.User?))
    ensures id.User? ==> Get(Dict(id), "email") == Some(id.email) && Get(Dict(id), "mfa_verified") == Some(Bool(id.mfa))
    ensures id.User? ==> Get(Dict(id), "auth_time") == Some(Int(id.authTime)) && Get(Dict(id), "groups") == Some(id.groups)
    ensures id.User? ==> Get(Dict(id), "is_admin") == Some(Bool(id.isAdmin))
    ensures !id.User? ==> Keys(Dict(id)) == {"authenticated"}
  {
    if id.User? {
      var f1 := Field("is_admin", Bool(id.isAdmin), Empty);
      var f2 := Field("groups", id.groups, f1);
      var f3 := Field("auth_time", Int(id.authTime), f2);
      var f4 := Field("mfa_verified", Bool(id.mfa), f3);
      assert Get(f2, "is_admin") == Get(f1, "is_admin") == Some(f1.value);
      assert Get(f3, "is_admin") == Some(f1.value) && Get(f3, "groups") == Get(f2, "groups") == Some(f2.value);
      assert Get(f4, "is_admin") == Some(f1.value) && Get(f4, "groups") == Some(f2.value);
      assert Get(f4, "auth_time") == Get(f3, "auth_time") == Some(f3.value);
      assert Get(Field("email", id.email, f4), "mfa_verified") == Get(f4, "mfa_verified") == Some(f4.value);
    } else {
      assert Keys(Field("authenticated", Bool(false), Empty)) == {"authenticated"};
    }
  }

  /** No identity has a role. */
  lemma DictHasNoRole(id: Identity)
    requires !id.Failed?
    ensures "role" !in Keys(Dict(id))
  {
    if id.User? {
      var f1 := Field("is_admin", Bool(id.isAdmin), Empty);
      var f2 := Field("groups", id.groups, f1);
      var f3 := Field("auth_time", Int(id.authTime), f2);
      var f4 := Field("mfa_verified", Bool(id.mfa), f3);
      assert Keys(f1) == {"is_admin"} && Keys(f2) == {"groups", "is_admin"};
      assert Keys(f3) == {"auth_time", "groups", "is_admin"};
      assert Keys(f4) == {"mfa_verified", "auth_time", "groups", "is_admin"};
    }
  }

  // ---- the MFA test on lists of method names ----

  function Names(names: seq<string>): Items {
    if names == [] then Nil else Cons(Str(names[0]), Names(names[1..]))
  }

  predicate Letter(c: char) { c == 'm' || c == 'f' || c == 'a' }

  predicate HasMfa(s: string) { Contains(Lower(s), "mfa") }

  /** The lower-cased text starts with `p`. */
  predicate LowStarts(s: string, p: string) {
    p == "" || (s != "" && LowerChar(s[0]) == p[0] && LowStarts(s[1..], p[1..]))
  }

  lemma {:induction false} LowStartsIsPrefix(s: string, p: string)
    ensures LowStarts(s, p) <==> p <= Lower(s)
  {
    if p != "" && s != "" {
      LowStartsIsPrefix(s[1..], p[1..]);
      assert Lower(s)[1..] == Lower(s[1..]);
      assert p <= Lower(s) <==> p[0] == Lower(s)[0] && p[1..] <= Lower(s)[1..];
    }
  }

  lemma HasMfaUnfold(s: string)
    ensures HasMfa(s) <==> s != "" && (LowStarts(s, "mfa") || HasMfa(s[1..]))
  {
    LowStartsIsPrefix(s, "mfa");
    if s != "" { assert Lower(s)[1..] == Lower(s[1..]); }
  }

  /** A match does not run over a character that is not one of its letters. */
  lemma {:induction false} StopsAtSeparator(s: string, c: char, t: string, p: string)
    requires !Letter(LowerChar(c)) && forall x :: x in p ==> Letter(x)
    ensures LowStarts(s + [c] + t, p) <==> LowStarts(s, p)
  {
    var u := s + [c] + t;
    if s == "" {
      assert u[0] == c;
    } else if p != "" {
      StopsAtSeparator(s[1..], c, t, p[1..]);
      assert u[1..] == s[1..] + [c] + t;
    }
  }

  /** Around a separator, the text has a match exactly when one of its two sides does. */
  lemma {:induction false} MfaSplits(s: string, c: char, t: string)
    requires !Letter(LowerChar(c))
    ensures HasMfa(s + [c] + t) <==> HasMfa(s) || HasMfa(t)
  {
    var u := s + [c] + t;
    HasMfaUnfold(u);
    HasMfaUnfold(s);
    StopsAtSeparator(s, c, t, "mfa");
    if s == "" {
      assert u[1..] == t;
    } else {
      MfaSplits(s[1..], c, t);
      assert u[1..] == s[1..] + [c] + t;
    }
  }

  /** No match starts in text without the letter m. */
  lemma {:induction false} NoMatchBefore(e: string, t: string)
    requires forall x :: x in e ==> LowerChar(x) != 'm'
    ensures HasMfa(e + t) <==> HasMfa(t)
  {
    if e == "" {
      assert e + t == t;
    } else {
      HasMfaUnfold(e + t);
      assert (e + t)[1..] == e[1..] + t;
      NoMatchBefore(e[1..], t);
    }
  }

  lemma {:induction false} HexHasNoM(n: nat, digits: nat)
    ensures forall x :: x in Hex(n, digits) ==> LowerChar(x) != 'm'
  {
    if digits > 0 { HexHasNoM(n / 16, digits - 1); }
  }

  predicate Quote(c: char) { c == '\'' || c == '"' }

  /** Escapes contain no m, and the letters are never escaped. */
  lemma ReprCharShape(c: char, quote: char, printable: Printable)
    requires Quote(quote)
    ensures ReprChar(c, quote, printable) == [c] || (!Letter(LowerChar(c)) && ReprChar(c, quote, printable)[..1] == "\\"
      && forall x :: x in ReprChar(c, quote, printable) ==> LowerChar(x) != 'm')
  {
    HexHasNoM(c as int, 2);
    HexHasNoM(c as int, 4);
    HexHasNoM(c as int, 8);
  }

  lemma {:induction false} ReprStarts(s: string, quote: char, printable: Printable, p: string)
    requires Quote(quote) && forall x :: x in p ==> Letter(x)
    ensures LowStarts(ReprChars(s, quote, printable), p) <==> LowStarts(s, p)
  {
    if s != "" && p != "" {
      ReprCharShape(s[0], quote, printable);
      var e, rest := ReprChar(s[0], quote, printable), ReprChars(s[1..], quote, printable);
      if e == [s[0]] {
        assert (e + rest)[1..] == rest;
        ReprStarts(s[1..], quote, printable, p[1..]);
      } else {
        assert (e + rest)[0] == e[..1][0] == '\\';
        assert Letter(p[0]);
      }
    }
  }

  lemma {:induction false} ReprCharsMfa(s: string, quote: char, printable: Printable)
    requires Quote(quote)
    ensures HasMfa(ReprChars(s, quote, printable)) <==> HasMfa(s)
  {
    if s != "" {
      ReprCharsMfa(s[1..], quote, printable);
      ReprCharShape(s[0], quote, printable);
      ReprStarts(s, quote, printable, "mfa");
      HasMfaUnfold(s);
      var e, rest := ReprChar(s[0], quote, printable), ReprChars(s[1..], quote, printable);
      if e == [s[0]] {
        HasMfaUnfold(e + rest);
        assert (e + rest)[1..] == rest;
      } else {
        NoMatchBefore(e, rest);
      }
    }
  }

  lemma ReprStrMfa(s: string, printable: Printable)
    ensures HasMfa(ReprStr(s, printable)) <==> HasMfa(s)
  {
    var quote := if '\'' in s && '"' !in s then '"' else '\'';
    var body := ReprChars(s, quote, printable);
    ReprCharsMfa(s, quote, printable);
    NoMatchBefore([quote], body + [quote]);
    MfaSplits(body, quote, "");
    assert body + [quote] + "" == body + [quote];
    HasMfaUnfold("");
  }

  lemma JoinedMfa(first: string, others: string)
    ensures HasMfa(first + (", " + others)) <==> HasMfa(first) || HasMfa(others)
  {
    MfaSplits(first, ',', " " + others);
    NoMatchBefore(" ", others);
    assert first + [','] + (" " + others) == first + (", " + others);
  }

  lemma AnyHasMfa(names: seq<string>)
    requires names != []
    ensures (exists i :: 0 <= i < |names| && HasMfa(names[i])) <==>
      HasMfa(names[0]) || exists i :: 0 <= i < |names[1..]| && HasMfa(names[1..][i])
  {
    if i :| 0 <= i < |names| && HasMfa(names[i]) {
      if i > 0 { assert HasMfa(names[1..][i - 1]); }
    }
    if i :| 0 <= i < |names[1..]| && HasMfa(names[1..][i]) { assert HasMfa(names[i + 1]); }
  }

  lemma {:induction false} ReprNamesMfa(names: seq<string>, printable: Printable)
    ensures HasMfa(ReprItems(Names(names), printable)) <==> exists i :: 0 <= i < |names| && HasMfa(names[i])
  {
    if names == [] {
      HasMfaUnfold("");
    } else {
      var rest := names[1..];
      ReprStrMfa(names[0], printable);
      ReprNamesMfa(rest, printable);
      AnyHasMfa(names);
      if rest != [] { JoinedMfa(ReprStr(names[0], printable), ReprItems(Names(rest), printable)); }
    }
  }

  lemma {:induction false} HasName(names: seq<string>, name: string)
    ensures HasItem(Names(names), Str(name)) <==> name in names
  {
    if names != [] { HasName(names[1..], name); }
  }

  /**
   * For every list of method names (section 2 of RFC 8176), the test on the printed list means what it should:
   * some method is "webauthn" or contains "mfa" in any case. No match runs over a separator, quote or escape.
   */
  lemma MfaMeans(names: seq<string>, printable: Printable)
    ensures MfaVerified(Arr(Names(names)), printable) ==
      Some("webauthn" in names || exists i :: 0 <= i < |names| && HasMfa(names[i]))
  {
    HasName(names, "webauthn");
    ReprNamesMfa(names, printable);
    var body := ReprItems(Names(names), printable);
    NoMatchBefore("[", body + "]");
    MfaSplits(body, ']', "");
    assert body + [']'] + "" == body + "]";
    HasMfaUnfold("");
  }

  // ---- the MFA test on any claim ----

  /** Some text in the value, at any depth and as a key or a value, has "mfa" in it in any case. */
  predicate Mentions(v: Json) {
    match v
    case Str(s) => HasMfa(s)
    case Arr(items) => MentionsItems(items)
    case Obj(f) => MentionsFields(f)
    case _ => false
  }

  predicate MentionsItems(items: Items) { items.Cons? && (Mentions(items.head) || MentionsItems(items.tail)) }

  predicate MentionsFields(f: Fields) {
    f.Field? && (HasMfa(f.key) || Mentions(f.value) || MentionsFields(f.rest))
  }

  lemma InBracketsMfa(open: string, body: string, close: char)
    requires !Letter(LowerChar(close)) && forall x :: x in open ==> LowerChar(x) != 'm'
    ensures HasMfa(open + (body + [close])) <==> HasMfa(body)
  {
    NoMatchBefore(open, body + [close]);
    MfaSplits(body, close, "");
    assert body + [close] + "" == body + [close];
    HasMfaUnfold("");
  }

  lemma WithoutM(s: string)
    requires forall x :: x in s ==> LowerChar(x) != 'm'
    ensures !HasMfa(s)
  {
    NoMatchBefore(s, "");
    assert s + "" == s;
    HasMfaUnfold("");
  }

  lemma {:induction false} ReprMfa(v: Json, printable: Printable)
    ensures HasMfa(Repr(v, printable)) <==> Mentions(v)
    decreases v
  {
    match v
    case Null => WithoutM("None");
    case Bool(b) => WithoutM(if b then "True" else "False");
    case Int(n) => NumberMfa(n);
    case Str(s) => ReprStrMfa(s, printable);
    case Arr(items) =>
      ReprItemsMfa(items, printable);
      InBracketsMfa("[", ReprItems(items, printable), ']');
      assert ReprItems(items, printable) + [']'] == ReprItems(items, printable) + "]";
    case Obj(f) =>
      ReprFieldsMfa(f, printable);
      InBracketsMfa("{", ReprFields(f, printable), '}');
      assert ReprFields(f, printable) + ['}'] == ReprFields(f, printable) + "}";
  }

  lemma NumberMfa(n: int)
    ensures !HasMfa(PrintInt(n, ""))
  {
    DecimalReadsBack(if n < 0 then -n else n);
    WithoutM(PrintInt(n, ""));
  }

  lemma {:induction false} ReprItemsMfa(items: Items, printable: Printable)
    ensures HasMfa(ReprItems(items, printable)) <==> MentionsItems(items)
    decreases items
  {
    if items.Nil? {
      HasMfaUnfold("");
    } else {
      ReprMfa(items.head, printable);
      ReprItemsMfa(items.tail, printable);
      if items.tail.Cons? { JoinedMfa(Repr(items.head, printable), ReprItems(items.tail, printable)); }
    }
  }

  lemma EntryMfa(key: string, value: string)
    ensures HasMfa(key + (": " + value)) <==> HasMfa(key) || HasMfa(value)
  {
    MfaSplits(key, ':', " " + value);
    NoMatchBefore(" ", value);
    assert key + [':'] + (" " + value) == key + (": " + value);
  }

  lemma {:induction false} ReprFieldsMfa(f: Fields, printable: Printable)
    ensures HasMfa(ReprFields(f, printable)) <==> MentionsFields(f)
    decreases f
  {
    if f.Empty? {
      HasMfaUnfold("");
    } else {
      var entry := ReprStr(f.key, printable) + (": " + Repr(f.value, printable));
      ReprStrMfa(f.key, printable);
      ReprMfa(f.value, printable);
      EntryMfa(ReprStr(f.key, printable), Repr(f.value, printable));
      ReprFieldsMfa(f.rest, printable);
      if f.rest.Field? { JoinedMfa(entry, ReprFields(f.rest, printable)); }
    }
  }

  /** The test on any value of the claim: it names "webauthn", or some text in it has "mfa" in it. */
  lemma MfaOfAny(amr: Json, printable: Printable)
    ensures MfaVerified(amr, printable) ==
      if Searchable(amr) then Some(Holds("webauthn", amr) || Mentions(amr)) else None
  {
    MemberMeans("webauthn", amr);
    if !amr.Str? { ReprMfa(amr, printable); }
  }
}
