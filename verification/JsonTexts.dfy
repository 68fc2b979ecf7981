/** The layouts and escapes of `json.dumps`, character by character, and texts that only `json.loads` meets. */
module JsonTexts {
  import opened Basics
  import opened Json
  import opened JsonRoundTrip
  import opened JsonPrefix
  import opened Canonical

  /** A key that is printed as it is */
  predicate PlainKey(c: char) { ' ' <= c <= '~' && c != '"' && c != '\\' }

  lemma KeyText(c: char, k: string)
    requires PlainKey(c)
    ensures PrintChars([c], k) == [c] + ("\"" + k)
  {
    assert Escape(c) == [c] && [c][1..] == "";
    assert PrintChars([c], k) == Escape(c) + PrintChars("", k);
    assert PrintChars("", k) == "\"" + k;
  }

  /** What stands between the parts of a text: nothing, single blanks, or line breaks and two blanks for each level */
  lemma LayoutMeans(level: nat)
    ensures Colon(Compact) == ":" && Colon(Plain) == ": " && Colon(Indented) == ": "
    ensures Break(Compact, level) == "" && Break(Plain, level) == ""
    ensures Gap(Compact, level) == "" && Gap(Plain, level) == " " && Gap(Indented, level) == Break(Indented, level)
    ensures var b := Break(Indented, level);
      |b| == 1 + 2 * level && b[0] == '\n' && forall i :: 1 <= i < |b| ==> b[i] == ' '
  {
    BlanksMean(2 * level);
  }

  lemma {:induction false} BlanksMean(n: nat)
    ensures |Spaces(n)| == n && forall i :: 0 <= i < n ==> Spaces(n)[i] == ' '
  {
    if n > 0 { BlanksMean(n - 1); }
  }

  /** A list of two items, followed by `k` */
  lemma TwoItems(x: Json, y: Json, l: Layout, level: nat, k: string)
    ensures var close := Break(l, level) + ("]" + k);
      Print(Arr(Cons(x, Cons(y, Nil))), l, level, k)
        == "[" + (Break(l, level + 1)
             + Print(x, l, level + 1, "," + (Gap(l, level + 1) + Print(y, l, level + 1, close))))
  {
    var close := Break(l, level) + ("]" + k);
    assert PrintItems(Cons(y, Nil), l, level + 1, close)
      == "," + (Gap(l, level + 1) + Print(y, l, level + 1, PrintItems(Nil, l, level + 1, close)));
  }

  lemma OneField(c: char, v: Json, rest: Fields, l: Layout, level: nat, k: string)
    requires PlainKey(c)
    ensures PrintField(Field([c], v, rest), l, level, k)
      == "\"" + ([c] + ("\"" + (Colon(l) + Print(v, l, level, PrintFields(rest, l, level, k)))))
  {
    KeyText(c, Colon(l) + Print(v, l, level, PrintFields(rest, l, level, k)));
  }

  /** A dict of two entries with short keys */
  lemma TwoFields(a: char, x: Json, b: char, y: Json, l: Layout)
    requires PlainKey(a) && PlainKey(b)
    ensures var second := "\"" + ([b] + ("\"" + (Colon(l) + Print(y, l, 1, Break(l, 0) + ("}" + "")))));
      Dumps(Obj(Field([a], x, Field([b], y, Empty))), l)
        == "{" + (Break(l, 1) + ("\"" + ([a] + ("\"" + (Colon(l) + Print(x, l, 1, "," + (Gap(l, 1) + second)))))))
  {
    var close := Break(l, 0) + ("}" + "");
    var g := Field([b], y, Empty);
    OneField(b, y, Empty, l, 1, close);
    OneField(a, x, g, l, 1, close);
    assert PrintFields(g, l, 1, close) == "," + (Gap(l, 1) + PrintField(g, l, 1, close));
  }

  /** What is signed for a dict that was filled in the order b, a: the compact text with the keys in ascending order */
  lemma SignedSample(m: int, n: int)
    ensures SignedText(Obj(Field("b", Int(m), Field("a", Int(n), Empty))))
      == "{\"a\":" + PrintInt(n, ",\"b\":" + PrintInt(m, "}"))
  {
    SortedSample(m, n);
    TwoFields('a', Int(n), 'b', Int(m), Compact);
    assert "}" + "" == "}" && "" + "}" == "}";
    var last := PrintInt(m, "}");
    assert "," + ("" + ("\"" + ("b" + ("\"" + (":" + last))))) == ",\"b\":" + last;
    var first := PrintInt(n, ",\"b\":" + last);
    assert "{" + ("" + ("\"" + ("a" + ("\"" + (":" + first))))) == "{\"a\":" + first;
  }

  lemma SortedSample(m: int, n: int)
    ensures Canon(Obj(Field("b", Int(m), Field("a", Int(n), Empty))))
      == Obj(Field("a", Int(n), Field("b", Int(m), Empty)))
  {
    var g := Field("a", Int(n), Empty);
    assert CanonFields(g) == Insert("a", Int(n), CanonFields(Empty)) == g;
    assert !Before("b", "a");
    assert Insert("b", Int(m), g) == Field("a", Int(n), Insert("b", Int(m), Empty));
    assert CanonFields(Field("b", Int(m), g)) == Insert("b", Int(m), CanonFields(g));
  }

  /** Short escapes, and the characters that are printed as they are */
  lemma ShortEscapes()
    ensures Escape('"') == ['\\', '"'] && Escape('\\') == ['\\', '\\'] && Escape('\n') == ['\\', 'n']
    ensures Escape('\r') == ['\\', 'r'] && Escape('\t') == ['\\', 't']
    ensures Escape(8 as char) == ['\\', 'b'] && Escape(12 as char) == ['\\', 'f']
    ensures forall c :: PlainKey(c) ==> Escape(c) == [c]
  {}

  /** All other characters: their code in four hexadecimal digits, or those of a surrogate pair */
  lemma LongEscapes(c: char)
    requires ShortEscape(c).None? && (c < ' ' || c > '~')
    ensures c as int < 0x10000 ==> Escape(c) == "\\u" + Hex4(c as int)
    ensures c as int >= 0x10000 ==> exists hi, lo ::
      && 0xD800 <= hi < 0xDC00 && 0xDC00 <= lo < 0xE000 && c as int == 0x10000 + (hi - 0xD800) * 0x400 + (lo - 0xDC00)
      && Escape(c) == "\\u" + Hex4(hi) + "\\u" + Hex4(lo)
  {
    if c as int >= 0x10000 {
      var n := c as int - 0x10000;
      var hi, lo := 0xD800 + n / 0x400, 0xDC00 + n % 0x400;
      assert Escape(c) == "\\u" + Hex4(hi) + "\\u" + Hex4(lo);
    }
  }

  lemma HexPlaces(n: nat, a: nat, b: nat, c: nat, d: nat)
    requires a < 16 && b < 16 && c < 16 && d < 16 && n == a * 0x1000 + b * 0x100 + c * 0x10 + d
    ensures n / 0x1000 == a && n / 0x100 % 16 == b && n / 16 % 16 == c && n % 16 == d
  {
    assert n / 0x100 == a * 16 + b;
    assert n / 16 == a * 256 + b * 16 + c;
  }

  lemma HexMeans(n: nat, a: nat, b: nat, c: nat, d: nat)
    requires a < 16 && b < 16 && c < 16 && d < 16 && n == a * 0x1000 + b * 0x100 + c * 0x10 + d
    ensures n < 0x10000 && Hex4(n) == [HexDigit(a), HexDigit(b), HexDigit(c), HexDigit(d)]
    ensures HexDigit(d) == "0123456789abcdef"[d]
  {
    HexPlaces(n, a, b, c, d);
    var digits := "0123456789abcdef";
    assert digits[d] as int == if d < 10 then 48 + d else 87 + d;
  }

  /** A number and its minus sign */
  lemma NumberTexts()
    ensures Dumps(Int(-407), Plain) == "-407" && Dumps(Int(0), Plain) == "0"
  {
    DecimalIsPositional(40, 7);
    DecimalIsPositional(4, 0);
  }

  // ---- texts that are not printed ----

  lemma OnlyDocument(s: string, v: Json, r: string)
    requires s != "" && !IsSpace(s[0]) && Read(s) == Some((v, r))
    ensures Loads(s) == if SkipSpace(r) == "" then Some(v) else None
  {}

  /** After a document nothing but white space may follow. */
  lemma JunkIsMalformed(f: Fields, l: Layout, junk: string)
    requires WfFields(f) && junk != "" && junk[0] !in {' ', '\t', '\n', '\r'}
    ensures Loads(Dumps(Obj(f), l) + junk) == None
  {
    var text := Dumps(Obj(f), l);
    assert Read(text) == Some((Obj(f), "")) by { ReadsBack(Obj(f), l, 0, ""); }
    assert text != "" && text[0] == '{' by { DictInBraces(f, l); }
    ReadExtends(text, junk);
    assert "" + junk == junk && (text + junk)[0] == '{';
    OnlyDocument(text + junk, Obj(f), junk);
  }

  /** Of the blanks, only the four white space characters may come before it. */
  lemma BlanksBefore(text: string, c: char)
    ensures c in {' ', '\t', '\n', '\r'} ==> Loads([c] + text) == Loads(text)
    ensures c as int == 11 || c as int == 12 || 28 <= c as int <= 31 ==> Loads([c] + text) == None
  {
    assert ([c] + text)[1..] == text;
  }

  /** Of a repeated key the last value counts. */
  lemma RepeatedKey(key: string, x: Json, y: Json, l: Layout)
    requires Wf(x) && Wf(y)
    ensures Loads(Dumps(Obj(Field(key, x, Field(key, y, Empty))), l)) == Some(Obj(Field(key, y, Empty)))
  {
    var g := Field(key, y, Empty);
    var close := Break(l, 0) + ("}" + "");
    var first := PrintField(Field(key, x, g), l, 1, close);
    DictText(Field(key, x, g), l);
    TwiceReads(key, x, y, l, close);
    BraceReads(Break(l, 1), first, g, l);
  }

  lemma TwiceReads(key: string, x: Json, y: Json, l: Layout, close: string)
    requires Wf(x) && Wf(y) && close == Break(l, 0) + ("}" + "")
    ensures ReadFields(PrintField(Field(key, x, Field(key, y, Empty)), l, 1, close)) == Some((Field(key, y, Empty), ""))
  {
    var g := Field(key, y, Empty);
    var first, second := PrintField(Field(key, x, g), l, 1, close), PrintField(g, l, 1, close);
    assert ReadFields(second) == Some((g, "")) by {
      assert WfFields(Empty) && WfFields(g);
      FieldsReadBack(g, l, 0, "");
    }
    assert AllSpace(Gap(l, 1)) by { LayoutIsSpace(l, 1, ""); }
    FieldBeforeOthers(key, x, g, l, close);
    assert Starts(second, '"');
    LastWins(key, x, y);
    ReadMoreFields(first, key, x, Gap(l, 1), second, g, "");
  }

  lemma LastWins(key: string, x: Json, y: Json)
    ensures Add(key, x, Field(key, y, Empty)) == Field(key, y, Empty)
  {
    assert Remove(Field(key, y, Empty), key) == Empty;
  }

  lemma DictText(f: Fields, l: Layout)
    requires f.Field?
    ensures Dumps(Obj(f), l) == "{" + (Break(l, 1) + PrintField(f, l, 1, Break(l, 0) + ("}" + "")))
  {}

  lemma BraceReads(gap: string, first: string, g: Fields, l: Layout)
    requires gap == Break(l, 1) && Starts(first, '"') && ReadFields(first) == Some((g, ""))
    ensures Loads("{" + (gap + first)) == Some(Obj(g))
  {
    LayoutIsSpace(l, 1, first);
    assert SkipSpace(first) == first;
    ReadOfDict(gap + first, g, "");
    OnlyDocument("{" + (gap + first), Obj(g), "");
  }

  lemma FieldBeforeOthers(key: string, x: Json, g: Fields, l: Layout, close: string)
    requires Wf(x) && g.Field?
    ensures ReadField(PrintField(Field(key, x, g), l, 1, close))
      == Some((key, x, "," + (Gap(l, 1) + PrintField(g, l, 1, close))))
  {
    var after := PrintFields(g, l, 1, close);
    assert after == "," + (Gap(l, 1) + PrintField(g, l, 1, close)) && after[0] == ',';
    PrintStarts(x, l, 1, after);
    ReadsBack(x, l, 1, after);
    FirstFieldReadsBack(key, x, Colon(l), Print(x, l, 1, after), after);
    assert SkipSpace(after) == after;
  }

  /** Escapes and digits that are read besides those that are printed, and characters that no string may contain */
  lemma OtherStrings(c: char, k: string)
    ensures ReadChars(['\\', '/'] + k) == Prepend('/', ReadChars(k))
    ensures c < ' ' ==> ReadChars([c] + k) == None
    ensures c !in {'"', '\\', '/', 'b', 'f', 'n', 'r', 't', 'u'} ==> ReadChars(['\\', c] + k) == None
  {
    assert (['\\', '/'] + k)[2..] == k;
  }

  lemma HexValues(i: nat)
    requires i < 16
    ensures HexValue("0123456789abcdef"[i]) == Some(i) && HexValue("0123456789ABCDEF"[i]) == Some(i)
  {
    var low, upper := "0123456789abcdef", "0123456789ABCDEF";
    assert low[i] as int == if i < 10 then 48 + i else 87 + i;
    assert upper[i] as int == if i < 10 then 48 + i else 55 + i;
  }

  /** A numeral with a leading zero is malformed, and so are bare words other than the three. */
  lemma OtherDocuments(c: char, k: string)
    ensures IsDigit(c) ==> Loads(['0', c] + k) == None
    ensures c !in {'"', '[', '{', '-', 'n', 't', 'f', ' ', '\t', '\n', '\r'} && !IsDigit(c) ==> Loads([c] + k) == None
  {
    var s := ['0', c] + k;
    assert s[1..] == [c] + k;
  }
}
