/** `json.loads` undoes `json.dumps`, in every layout. */
module JsonRoundTrip {
  import opened Basics
  import opened Json

  lemma HexReadsBack(d: nat)
    requires d < 16
    ensures HexValue(HexDigit(d)) == Some(d)
  {}

  lemma DigitsReadBack(a: nat, b: nat, c: nat, d: nat, k: string)
    requires a < 16 && b < 16 && c < 16 && d < 16
    ensures ReadHex4([HexDigit(a), HexDigit(b), HexDigit(c), HexDigit(d)] + k) == Some(0x1000 * a + 0x100 * b + 16 * c + d)
  {
    HexReadsBack(a);
    HexReadsBack(b);
    HexReadsBack(c);
    HexReadsBack(d);
  }

  lemma Hex4ReadsBack(n: nat, k: string)
    requires n < 0x10000
    ensures ReadHex4(Hex4(n) + k) == Some(n)
  {
    DigitsReadBack(n / 0x1000, n / 0x100 % 16, n / 16 % 16, n % 16, k);
    var h := n / 16;
    assert n / 0x100 == h / 16 && n / 0x1000 == h / 16 / 16;
  }

  /** A `\u` escape of one character of the basic plane */
  lemma UnicodeReadsBack(n: nat, k: string)
    requires n < 0x10000 && !IsSurrogate(n)
    ensures ReadChars("\\u" + Hex4(n) + k) == Prepend(n as char, ReadChars(k))
  {
    var s := "\\u" + Hex4(n) + k;
    Hex4ReadsBack(n, k);
    assert s[0] == '\\' && s[1] == 'u' && s[2..] == Hex4(n) + k && s[6..] == k;
  }

  lemma PairReadsBack(hi: nat, lo: nat, k: string)
    requires 0xD800 <= hi < 0xDC00 && 0xDC00 <= lo < 0xE000
    ensures ReadChars("\\u" + Hex4(hi) + "\\u" + Hex4(lo) + k) == Prepend(Pair(hi, lo), ReadChars(k))
  {
    var s := "\\u" + Hex4(hi) + "\\u" + Hex4(lo) + k;
    Hex4ReadsBack(hi, "\\u" + Hex4(lo) + k);
    Hex4ReadsBack(lo, k);
    assert s[0] == '\\' && s[1] == 'u' && s[2..] == Hex4(hi) + ("\\u" + Hex4(lo) + k);
    assert s[6] == '\\' && s[7] == 'u' && s[8..] == Hex4(lo) + k && s[12..] == k;
  }

  lemma ShortReadsBack(x: char, c: char, k: string)
    requires x != 'u' && Unescape(x) == Some(c)
    ensures ReadChars(['\\', x] + k) == Prepend(c, ReadChars(k))
  {
    assert (['\\', x] + k)[2..] == k;
  }

  lemma PlainReadsBack(c: char, k: string)
    requires c >= ' ' && c != '"' && c != '\\'
    ensures ReadChars([c] + k) == Prepend(c, ReadChars(k))
  {
    assert ([c] + k)[1..] == k;
  }

  lemma EscapeReadsBack(c: char, k: string)
    ensures ReadChars(Escape(c) + k) == Prepend(c, ReadChars(k))
  {
    var n := c as int;
    if ShortEscape(c).Some? {
      ShortReadsBack(ShortEscape(c).value, c, k);
    } else if ' ' <= c <= '~' {
      PlainReadsBack(c, k);
    } else if n < 0x10000 {
      UnicodeReadsBack(n, k);
    } else {
      PairReadsBack(0xD800 + (n - 0x10000) / 0x400, 0xDC00 + (n - 0x10000) % 0x400, k);
    }
  }

  lemma {:induction false} CharsReadBack(s: string, k: string)
    ensures ReadChars(PrintChars(s, k)) == Some((s, k))
  {
    if s == "" {
      assert PrintChars(s, k)[1..] == k;
    } else {
      CharsReadBack(s[1..], k);
      EscapeReadsBack(s[0], PrintChars(s[1..], k));
      assert [s[0]] + s[1..] == s;
    }
  }

  lemma {:induction false} SpanDigits(d: string, k: string)
    requires AllDigits(d) && (k != "" ==> !IsDigit(k[0]))
    ensures Span(d + k) == (d, k)
  {
    if d == "" {
      assert d + k == k;
    } else {
      SpanDigits(d[1..], k);
      assert (d + k)[1..] == d[1..] + k;
      assert [d[0]] + d[1..] == d;
    }
  }

  /** What may follow a number without changing it. */
  predicate Ends(k: string) { k != "" ==> !IsDigit(k[0]) && k[0] !in ".eE" }

  lemma NatReadsBack(n: nat, k: string)
    requires Ends(k)
    ensures ReadNat(Decimal(n) + k) == Some((n, k))
  {
    DecimalReadsBack(n);
    SpanDigits(Decimal(n), k);
    if n == 0 { assert (Decimal(n) + k)[1..] == k; }
  }

  lemma IntReadsBack(n: int, k: string)
    requires Ends(k)
    ensures Read(PrintInt(n, k)) == Some((Int(n), k))
  {
    var m := if n < 0 then -n else n;
    NatReadsBack(m, k);
    DecimalReadsBack(m);
    var s := Decimal(m) + k;
    assert IsDigit(s[0]);
    if n < 0 { assert ("-" + s)[1..] == s; }
  }

  lemma {:induction false} SkipSpaces(w: string, k: string)
    requires AllSpace(w)
    ensures SkipSpace(w + k) == SkipSpace(k)
  {
    if w == "" {
      assert w + k == k;
    } else {
      SkipSpaces(w[1..], k);
      assert (w + k)[1..] == w[1..] + k;
    }
  }

  lemma {:induction false} SpacesAreSpace(n: nat)
    ensures AllSpace(Spaces(n))
  {
    if n > 0 { SpacesAreSpace(n - 1); }
  }

  lemma LayoutIsSpace(l: Layout, level: nat, k: string)
    ensures SkipSpace(Break(l, level) + k) == SkipSpace(k)
    ensures AllSpace(Gap(l, level))
    ensures Ends(Break(l, level) + ("]" + k)) && Ends(Break(l, level) + ("}" + k))
  {
    SpacesAreSpace(2 * level);
    SkipSpaces(Break(l, level), k);
  }

  /** Every printed value starts with a character that is neither white space nor a closing bracket. */
  lemma PrintStarts(v: Json, l: Layout, level: nat, k: string)
    ensures var s := Print(v, l, level, k);
      s != "" && !IsSpace(s[0]) && s[0] != ']' && s[0] != '}'
  {
    if v.Int? { DecimalReadsBack(if v.n < 0 then -v.n else v.n); }
  }

  lemma ReadOfArray(t: string, items: Items, k: string)
    requires !(Starts(SkipSpace(t), ']')) && ReadItems(SkipSpace(t)) == Some((items, k))
    ensures Read("[" + t) == Some((Arr(items), k))
  {
    assert ("[" + t)[1..] == t;
  }

  lemma ReadOfDict(t: string, f: Fields, k: string)
    requires !(Starts(SkipSpace(t), '}')) && ReadFields(SkipSpace(t)) == Some((f, k))
    ensures Read("{" + t) == Some((Obj(f), k))
  {
    assert ("{" + t)[1..] == t;
  }

  lemma SimpleReadsBack(v: Json, l: Layout, level: nat, k: string)
    requires v.Null? || v.Bool? || v.Str? || v == Arr(Nil) || v == Obj(Empty)
    ensures Read(Print(v, l, level, k)) == Some((v, k))
  {
    var s := Print(v, l, level, k);
    if v.Null? {
      assert s[4..] == k;
    } else if v.Bool? {
      assert s[0] == if v.b then 't' else 'f';
      if v.b { assert s[4..] == k; } else { assert s[5..] == k; }
    } else if v.Str? {
      CharsReadBack(v.s, k);
      assert s[0] == '"' && s[1..] == PrintChars(v.s, k);
    } else {
      var close := if v.Arr? then "]" else "}";
      assert s[0] == if v.Arr? then '[' else '{';
      assert s[1..] == close + k && (close + k)[1..] == k;
    }
  }

  /** `Read` undoes `Print` in every layout and at every depth, and leaves what follows. */
  lemma {:induction false} ReadsBack(v: Json, l: Layout, level: nat, k: string)
    requires Wf(v) && (v.Int? ==> Ends(k))
    ensures Read(Print(v, l, level, k)) == Some((v, k))
    decreases v, 0
  {
    match v
    case Int(n) => IntReadsBack(n, k);
    case Arr(Cons(h, t)) =>
      var after := PrintItems(t, l, level + 1, Break(l, level) + ("]" + k));
      var body := Print(h, l, level + 1, after);
      LayoutIsSpace(l, level + 1, body);
      PrintStarts(h, l, level + 1, after);
      ItemsReadBack(v.items, l, level, k);
      ReadOfArray(Break(l, level + 1) + body, v.items, k);
    case Obj(Field(_, _, _)) =>
      var body := PrintField(v.fields, l, level + 1, Break(l, level) + ("}" + k));
      LayoutIsSpace(l, level + 1, body);
      FieldsReadBack(v.fields, l, level, k);
      ReadOfDict(Break(l, level + 1) + body, v.fields, k);
    case _ => SimpleReadsBack(v, l, level, k);
  }

  lemma ReadLastItem(s: string, v: Json, r: string, k: string)
    requires Read(s) == Some((v, r)) && SkipSpace(r) == "]" + k
    ensures ReadItems(s) == Some((Cons(v, Nil), k))
  {
    assert ("]" + k)[1..] == k;
  }

  lemma ReadMoreItems(s: string, v: Json, gap: string, next: string, items: Items, k: string)
    requires Read(s) == Some((v, "," + (gap + next))) && AllSpace(gap)
    requires next != "" && !IsSpace(next[0]) && ReadItems(next) == Some((items, k))
    ensures ReadItems(s) == Some((Cons(v, items), k))
  {
    assert ("," + (gap + next))[1..] == gap + next;
    SkipSpaces(gap, next);
  }

  lemma {:induction false} ItemsReadBack(items: Items, l: Layout, level: nat, k: string)
    requires WfItems(items) && items.Cons?
    ensures var k' := Break(l, level) + ("]" + k);
      ReadItems(Print(items.head, l, level + 1, PrintItems(items.tail, l, level + 1, k'))) == Some((items, k))
    decreases items, 0
  {
    var k' := Break(l, level) + ("]" + k);
    var h, t := items.head, items.tail;
    var after := PrintItems(t, l, level + 1, k');
    var s := Print(h, l, level + 1, after);
    LayoutIsSpace(l, level, k);
    LayoutIsSpace(l, level, "]" + k);
    ReadsBack(h, l, level + 1, after);
    if t.Nil? {
      ReadLastItem(s, h, after, k);
    } else {
      var next := Print(t.head, l, level + 1, PrintItems(t.tail, l, level + 1, k'));
      LayoutIsSpace(l, level + 1, next);
      PrintStarts(t.head, l, level + 1, PrintItems(t.tail, l, level + 1, k'));
      ItemsReadBack(t, l, level, k);
      ReadMoreItems(s, h, Gap(l, level + 1), next, t, k);
    }
  }

  lemma ReadMoreFields(s: string, key: string, x: Json, gap: string, next: string, f: Fields, k: string)
    requires ReadField(s) == Some((key, x, "," + (gap + next))) && AllSpace(gap)
    requires next != "" && !IsSpace(next[0]) && ReadFields(next) == Some((f, k))
    ensures ReadFields(s) == Some((Add(key, x, f), k))
  {
    assert ("," + (gap + next))[1..] == gap + next;
    SkipSpaces(gap, next);
  }

  lemma FirstFieldReadsBack(key: string, x: Json, c: string, value: string, r: string)
    requires c == ":" || c == ": "
    requires value != "" && !IsSpace(value[0]) && Read(value) == Some((x, r))
    ensures ReadField("\"" + PrintChars(key, c + value)) == Some((key, x, SkipSpace(r)))
  {
    var s := "\"" + PrintChars(key, c + value);
    assert s[1..] == PrintChars(key, c + value);
    CharsReadBack(key, c + value);
    assert c + value == ":" + (c[1..] + value) && (c + value)[1..] == c[1..] + value;
    SkipSpaces(c[1..], value);
  }

  /** The first field of a printed dict, and what is left after it */
  lemma {:induction false} FieldReadsBack(f: Fields, l: Layout, level: nat, k: string)
    requires WfFields(f) && f.Field? && Ends(PrintFields(f.rest, l, level, k))
    ensures ReadField(PrintField(f, l, level, k)) == Some((f.key, f.value, SkipSpace(PrintFields(f.rest, l, level, k))))
    decreases f, 0
  {
    var after := PrintFields(f.rest, l, level, k);
    PrintStarts(f.value, l, level, after);
    ReadsBack(f.value, l, level, after);
    FirstFieldReadsBack(f.key, f.value, Colon(l), Print(f.value, l, level, after), after);
  }

  lemma {:induction false} FieldsReadBack(f: Fields, l: Layout, level: nat, k: string)
    requires WfFields(f) && f.Field?
    ensures ReadFields(PrintField(f, l, level + 1, Break(l, level) + ("}" + k))) == Some((f, k))
    decreases f, 1
  {
    var k' := Break(l, level) + ("}" + k);
    var after := PrintFields(f.rest, l, level + 1, k');
    assert Ends(after) && SkipSpace(k') == "}" + k by {
      LayoutIsSpace(l, level, k);
      LayoutIsSpace(l, level, "}" + k);
    }
    FieldReadsBack(f, l, level + 1, k');
    if f.rest.Empty? {
      assert ("}" + k)[1..] == k;
    } else {
      MoreFieldsReadBack(f, l, level, k);
    }
  }

  lemma {:induction false} MoreFieldsReadBack(f: Fields, l: Layout, level: nat, k: string)
    requires WfFields(f) && f.Field? && f.rest.Field?
    requires var k' := Break(l, level) + ("}" + k);
      ReadField(PrintField(f, l, level + 1, k')) == Some((f.key, f.value, SkipSpace(PrintFields(f.rest, l, level + 1, k'))))
    ensures ReadFields(PrintField(f, l, level + 1, Break(l, level) + ("}" + k))) == Some((f, k))
    decreases f, 0
  {
    var k' := Break(l, level) + ("}" + k);
    LayoutIsSpace(l, level + 1, "");
    FieldsReadBack(f.rest, l, level, k);
    ReadMoreFields(PrintField(f, l, level + 1, k'), f.key, f.value,
                   Gap(l, level + 1), PrintField(f.rest, l, level + 1, k'), f.rest, k);
  }

  /** `json.loads(json.dumps(v)) == v`, key order included, with any white space after the text. */
  lemma LoadsDumps(v: Json, l: Layout, tail: string)
    requires Wf(v) && AllSpace(tail)
    ensures Loads(Dumps(v, l)) == Some(v)
    ensures Loads(Print(v, l, 0, tail)) == Some(v)
  {
    ReadsBack(v, l, 0, "");
    PrintStarts(v, l, 0, "");
    ReadsBack(v, l, 0, tail);
    PrintStarts(v, l, 0, tail);
    SkipSpaces(tail, "");
    assert tail + "" == tail;
  }
}
