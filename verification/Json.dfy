/**
 * The JSON values that the programs exchange, `json.dumps` in its three layouts, and `json.loads`.
 * Texts are sequences of Unicode scalar values; numbers are integers.
 */
module Json {
  import opened Basics

  datatype Json =
    | Null
    | Bool(b: bool)
    | Int(n: int)
    | Str(s: string)
    | Arr(items: Items)
    | Obj(fields: Fields)

  datatype Items = Nil | Cons(head: Json, tail: Items)

  /** A Python dict in insertion order. */
  datatype Fields = Empty | Field(key: string, value: Json, rest: Fields)

  function Elements(items: Items): seq<Json> {
    if items.Nil? then [] else [items.head] + Elements(items.tail)
  }

  // ---- dictionaries ----

  function Keys(f: Fields): set<string> {
    match f
    case Empty => {}
    case Field(k, _, rest) => {k} + Keys(rest)
  }

  function Get(f: Fields, key: string): (r: Option<Json>)
    ensures r.Some? <==> key in Keys(f)
  {
    match f
    case Empty => None
    case Field(k, v, rest) => if k == key then Some(v) else Get(rest, key)
  }

  function GetOr(f: Fields, key: string, default: Json): Json {
    match Get(f, key)
    case Some(v) => v
    case None => default
  }

  /** `d[key] = value`: an existing key keeps its place. */
  function Put(f: Fields, key: string, value: Json): (r: Fields)
    ensures Keys(r) == Keys(f) + {key}
    ensures forall k :: Get(r, k) == if k == key then Some(value) else Get(f, k)
  {
    match f
    case Empty => Field(key, value, Empty)
    case Field(k, v, rest) => if k == key then Field(k, value, rest) else Field(k, v, Put(rest, key, value))
  }

  /** `{**f, **g}` */
  function Merge(f: Fields, g: Fields): (r: Fields)
    ensures Keys(r) == Keys(f) + Keys(g)
    decreases g
  {
    match g
    case Empty => f
    case Field(k, v, rest) => Merge(Put(f, k, v), rest)
  }

  function Remove(f: Fields, key: string): (r: Fields)
    ensures Keys(r) == Keys(f) - {key}
    ensures forall k :: Get(r, k) == if k == key then None else Get(f, k)
  {
    match f
    case Empty => Empty
    case Field(k, v, rest) => if k == key then Remove(rest, key) else Field(k, v, Remove(rest, key))
  }

  /** The values that Python can hold: no dict has a key twice. */
  ghost predicate Wf(v: Json) {
    match v
    case Arr(items) => WfItems(items)
    case Obj(fields) => WfFields(fields)
    case _ => true
  }

  ghost predicate WfItems(items: Items) {
    items.Cons? ==> Wf(items.head) && WfItems(items.tail)
  }

  ghost predicate WfFields(f: Fields) {
    f.Field? ==> f.key !in Keys(f.rest) && Wf(f.value) && WfFields(f.rest)
  }

  lemma {:induction false} WfPut(f: Fields, key: string, value: Json)
    requires WfFields(f) && Wf(value)
    ensures WfFields(Put(f, key, value))
  {
    if f.Field? && f.key != key { WfPut(f.rest, key, value); }
  }

  lemma {:induction false} WfMerge(f: Fields, g: Fields)
    requires WfFields(f) && WfFields(g)
    ensures WfFields(Merge(f, g))
    decreases g
  {
    if g.Field? {
      WfPut(f, g.key, g.value);
      WfMerge(Put(f, g.key, g.value), g.rest);
    }
  }

  lemma {:induction false} WfRemove(f: Fields, key: string)
    requires WfFields(f)
    ensures WfFields(Remove(f, key))
  {
    if f.Field? { WfRemove(f.rest, key); }
  }

  lemma {:induction false} WfGet(f: Fields, key: string)
    requires WfFields(f) && key in Keys(f)
    ensures Wf(Get(f, key).value)
  {
    if f.key != key { WfGet(f.rest, key); }
  }

  /** In a merged dict the second dict's entries win and the first dict's other entries stay. */
  lemma {:induction false} MergeGet(f: Fields, g: Fields, key: string)
    requires WfFields(g)
    ensures Get(Merge(f, g), key) == if key in Keys(g) then Get(g, key) else Get(f, key)
    decreases g
  {
    if g.Field? {
      MergeGet(Put(f, g.key, g.value), g.rest, key);
    }
  }

  // ---- printing ----

  /** `separators=(",", ":")`, the default separators, and `indent=2`. */
  datatype Layout = Compact | Plain | Indented

  function Spaces(n: nat): string {
    if n == 0 then "" else " " + Spaces(n - 1)
  }

  function Break(l: Layout, level: nat): string {
    if l.Indented? then "\n" + Spaces(2 * level) else ""
  }

  function Gap(l: Layout, level: nat): string {
    if l.Plain? then " " else Break(l, level)
  }

  function Colon(l: Layout): string {
    if l.Compact? then ":" else ": "
  }

  function HexDigit(d: nat): char
    requires d < 16
  {
    if d < 10 then (48 + d) as char else (87 + d) as char
  }

  function Hex4(n: nat): string
    requires n < 0x10000
  {
    [HexDigit(n / 0x1000), HexDigit(n / 0x100 % 16), HexDigit(n / 16 % 16), HexDigit(n % 16)]
  }

  function ShortEscape(c: char): Option<char> {
    if c == '"' || c == '\\' then Some(c)
    else if c == '\n' then Some('n')
    else if c == '\r' then Some('r')
    else if c == '\t' then Some('t')
    else if c as int == 12 then Some('f')
    else if c as int == 8 then Some('b')
    else None
  }

  /** `ensure_ascii`: everything outside printable ASCII is escaped, beyond U+FFFF as a surrogate pair. */
  function Escape(c: char): string {
    if ShortEscape(c).Some? then ['\\', ShortEscape(c).value]
    else if ' ' <= c <= '~' then [c]
    else if c as int < 0x10000 then "\\u" + Hex4(c as int)
    else
      var n := c as int - 0x10000;
      "\\u" + Hex4(0xD800 + n / 0x400) + "\\u" + Hex4(0xDC00 + n % 0x400)
  }

  function PrintChars(s: string, k: string): string {
    if s == "" then "\"" + k else Escape(s[0]) + PrintChars(s[1..], k)
  }

  function PrintInt(n: int, k: string): string {
    if n < 0 then "-" + (Decimal(-n) + k) else Decimal(n) + k
  }

  /** The text of `v`, followed by `k`. */
  function Print(v: Json, l: Layout, level: nat, k: string): string
    decreases v, 0
  {
    match v
    case Null => "null" + k
    case Bool(b) => (if b then "true" else "false") + k
    case Int(n) => PrintInt(n, k)
    case Str(s) => "\"" + PrintChars(s, k)
    case Arr(Nil) => "[" + ("]" + k)
    case Arr(Cons(h, t)) =>
      "[" + (Break(l, level + 1) + Print(h, l, level + 1, PrintItems(t, l, level + 1, Break(l, level) + ("]" + k))))
    case Obj(Empty) => "{" + ("}" + k)
    case Obj(Field(_, _, _)) =>
      "{" + (Break(l, level + 1) + PrintField(v.fields, l, level + 1, Break(l, level) + ("}" + k)))
  }

  function PrintItems(items: Items, l: Layout, level: nat, k: string): string
    decreases items, 0
  {
    match items
    case Nil => k
    case Cons(h, t) => "," + (Gap(l, level) + Print(h, l, level, PrintItems(t, l, level, k)))
  }

  function PrintField(f: Fields, l: Layout, level: nat, k: string): string
    requires f.Field?
    decreases f, 0
  {
    "\"" + PrintChars(f.key, Colon(l) + Print(f.value, l, level, PrintFields(f.rest, l, level, k)))
  }

  function PrintFields(f: Fields, l: Layout, level: nat, k: string): string
    decreases f, 1
  {
    if f.Empty? then k else "," + (Gap(l, level) + PrintField(f, l, level, k))
  }

  /** `json.dumps(v)` in the given layout */
  function Dumps(v: Json, l: Layout): string { Print(v, l, 0, "") }

  // ---- parsing ----

  function SkipSpace(s: string): (r: string)
    ensures |r| <= |s| && (r != "" ==> !IsSpace(r[0]))
  {
    if s != "" && IsSpace(s[0]) then SkipSpace(s[1..]) else s
  }

  function HexValue(c: char): (r: Option<nat>)
    ensures r.Some? ==> r.value < 16
  {
    if '0' <= c <= '9' then Some(c as int - 48)
    else if 'a' <= c <= 'f' then Some(c as int - 87)
    else if 'A' <= c <= 'F' then Some(c as int - 55)
    else None
  }

  function ReadHex4(s: string): (r: Option<nat>)
    ensures r.Some? ==> r.value < 0x10000 && |s| >= 4
  {
    if |s| < 4 then None
    else
      match (HexValue(s[0]), HexValue(s[1]), HexValue(s[2]), HexValue(s[3]))
      case (Some(a), Some(b), Some(c), Some(d)) => Some(0x1000 * a + 0x100 * b + 16 * c + d)
      case _ => None
  }

  function Unescape(c: char): Option<char> {
    if c == '"' || c == '\\' || c == '/' then Some(c)
    else if c == 'b' then Some(8 as char)
    else if c == 'f' then Some(12 as char)
    else if c == 'n' then Some('\n')
    else if c == 'r' then Some('\r')
    else if c == 't' then Some('\t')
    else None
  }

  predicate IsSurrogate(u: nat) { 0xD800 <= u < 0xE000 }

  function Pair(hi: nat, lo: nat): char
    requires 0xD800 <= hi < 0xDC00 && 0xDC00 <= lo < 0xE000
  {
    (0x10000 + 0x400 * (hi - 0xD800) + (lo - 0xDC00)) as char
  }

  function Prepend(c: char, r: Option<(string, string)>): Option<(string, string)> {
    match r
    case Some((s, rest)) => Some(([c] + s, rest))
    case None => None
  }

  /** The rest of a string literal after its opening quote. */
  function ReadChars(s: string): (r: Option<(string, string)>)
    ensures r.Some? ==> |r.value.1| < |s|
    decreases |s|
  {
    if s == "" || s[0] < ' ' then None
    else if s[0] == '"' then Some(("", s[1..]))
    else if s[0] != '\\' then Prepend(s[0], ReadChars(s[1..]))
    else if |s| < 2 then None
    else if s[1] != 'u' then
      match Unescape(s[1])
      case Some(c) => Prepend(c, ReadChars(s[2..]))
      case None => None
    else
      match ReadHex4(s[2..])
      case None => None
      case Some(u) =>
        if !IsSurrogate(u) then Prepend(u as char, ReadChars(s[6..]))
        else if u < 0xDC00 && |s| >= 12 && s[6] == '\\' && s[7] == 'u' then
          match ReadHex4(s[8..])
          case Some(lo) => if 0xDC00 <= lo < 0xE000 then Prepend(Pair(u, lo), ReadChars(s[12..])) else None
          case None => None
        else None
  }

  /** The longest prefix of digits, and what follows it. */
  function Span(s: string): (r: (string, string))
    ensures AllDigits(r.0) && s == r.0 + r.1 && (r.1 != "" ==> !IsDigit(r.1[0]))
  {
    if s != "" && IsDigit(s[0]) then
      var (d, rest) := Span(s[1..]);
      ([s[0]] + d, rest)
    else ("", s)
  }

  /** A number without sign: "0" or digits not starting with "0"; fractions and exponents are not modelled. */
  function ReadNat(s: string): (r: Option<(int, string)>)
    ensures r.Some? ==> |r.value.1| < |s|
  {
    if s == "" || !IsDigit(s[0]) then None
    else
      var (d, rest) := if s[0] == '0' then ("0", s[1..]) else Span(s);
      if rest != "" && rest[0] in ".eE" then None else Some((Numeral(d), rest))
  }

  function ReadInt(s: string): (r: Option<(Json, string)>)
    ensures r.Some? ==> r.value.0.Int? && |r.value.1| < |s|
  {
    if s != "" && s[0] == '-' then
      match ReadNat(s[1..])
      case Some((n, rest)) => Some((Int(-n), rest))
      case None => None
    else
      match ReadNat(s)
      case Some((n, rest)) => Some((Int(n), rest))
      case None => None
  }

  /** `dict(pairs)` for a first pair and the dict of the others: the last value of a key wins, at its first place. */
  function Add(key: string, x: Json, rest: Fields): Fields {
    match Get(rest, key)
    case Some(last) => Field(key, last, Remove(rest, key))
    case None => Field(key, x, rest)
  }

  predicate Starts(s: string, c: char) { s != "" && s[0] == c }

  function Read(s: string): (r: Option<(Json, string)>)
    ensures r.Some? ==> |r.value.1| < |s|
    decreases |s|, 0
  {
    if s == "" then None
    else if s[0] == '"' then
      match ReadChars(s[1..])
      case Some((t, rest)) => Some((Str(t), rest))
      case None => None
    else if s[0] == '[' then ReadArray(SkipSpace(s[1..]))
    else if s[0] == '{' then ReadDict(SkipSpace(s[1..]))
    else if s[0] == '-' || IsDigit(s[0]) then ReadInt(s)
    else ReadWord(s)
  }

  function ReadWord(s: string): (r: Option<(Json, string)>)
    ensures r.Some? ==> |r.value.1| < |s|
  {
    if "null" <= s then Some((Null, s[4..]))
    else if "true" <= s then Some((Bool(true), s[4..]))
    else if "false" <= s then Some((Bool(false), s[5..]))
    else None
  }

  /** An array after its opening bracket and white space */
  function ReadArray(s: string): (r: Option<(Json, string)>)
    ensures r.Some? ==> |r.value.1| < |s|
    decreases |s|, 2
  {
    if Starts(s, ']') then Some((Arr(Nil), s[1..]))
    else
      match ReadItems(s)
      case Some((items, rest)) => Some((Arr(items), rest))
      case None => None
  }

  /** A dict after its opening brace and white space */
  function ReadDict(s: string): (r: Option<(Json, string)>)
    ensures r.Some? ==> |r.value.1| < |s|
    decreases |s|, 3
  {
    if Starts(s, '}') then Some((Obj(Empty), s[1..]))
    else
      match ReadFields(s)
      case Some((fields, rest)) => Some((Obj(fields), rest))
      case None => None
  }

  function ReadItems(s: string): (r: Option<(Items, string)>)
    ensures r.Some? ==> |r.value.1| < |s|
    decreases |s|, 1
  {
    match Read(s)
    case None => None
    case Some((v, r0)) =>
      var r := SkipSpace(r0);
      if Starts(r, ']') then Some((Cons(v, Nil), r[1..]))
      else if Starts(r, ',') then
        match ReadItems(SkipSpace(r[1..]))
        case Some((items, rest)) => Some((Cons(v, items), rest))
        case None => None
      else None
  }

  /** A key, a colon and a value, and what follows them after white space */
  function ReadField(s: string): (r: Option<(string, Json, string)>)
    ensures r.Some? ==> |r.value.2| < |s|
    decreases |s|, 1
  {
    if !Starts(s, '"') then None
    else
      match ReadChars(s[1..])
      case None => None
      case Some((key, r0)) =>
        var r := SkipSpace(r0);
        if !Starts(r, ':') then None
        else
          match Read(SkipSpace(r[1..]))
          case None => None
          case Some((x, rest)) => Some((key, x, SkipSpace(rest)))
  }

  function ReadFields(s: string): (r: Option<(Fields, string)>)
    ensures r.Some? ==> |r.value.1| < |s|
    decreases |s|, 2
  {
    match ReadField(s)
    case None => None
    case Some((key, x, r)) =>
      if Starts(r, '}') then Some((Field(key, x, Empty), r[1..]))
      else if Starts(r, ',') then
        match ReadFields(SkipSpace(r[1..]))
        case Some((fields, rest)) => Some((Add(key, x, fields), rest))
        case None => None
      else None
  }

  /** `json.loads(s)`, where `None` stands for `JSONDecodeError` */
  function Loads(s: string): Option<Json> {
    match Read(SkipSpace(s))
    case Some((v, rest)) => if SkipSpace(rest) == "" then Some(v) else None
    case None => None
  }
}
