/**
 * What a reader can see of a text that is not, or not yet, a whole document: a value that was read keeps
 * its meaning when more text follows, so no part of a document reads as a different document.
 */
module JsonPrefix {
  import opened Basics
  import opened Json
  import opened JsonRoundTrip

  lemma DropExtends(s: string, t: string, n: nat)
    requires n <= |s|
    ensures (s + t)[n..] == s[n..] + t
  {}

  lemma {:induction false} CharsExtend(s: string, t: string)
    requires ReadChars(s).Some?
    ensures var (v, r) := ReadChars(s).value; ReadChars(s + t) == Some((v, r + t))
    decreases |s|
  {
    if s[0] == '"' {
      DropExtends(s, t, 1);
    } else if s[0] != '\\' {
      CharsExtend(s[1..], t);
      DropExtends(s, t, 1);
    } else if s[1] != 'u' {
      CharsExtend(s[2..], t);
      DropExtends(s, t, 2);
    } else {
      HexExtends(s[2..], t);
      DropExtends(s, t, 2);
      var u := ReadHex4(s[2..]).value;
      if !IsSurrogate(u) {
        CharsExtend(s[6..], t);
        DropExtends(s, t, 6);
      } else {
        HexExtends(s[8..], t);
        DropExtends(s, t, 8);
        CharsExtend(s[12..], t);
        DropExtends(s, t, 12);
      }
    }
  }

  lemma HexExtends(s: string, t: string)
    requires ReadHex4(s).Some?
    ensures ReadHex4(s + t) == ReadHex4(s)
  {}

  lemma {:induction false} SpanExtends(s: string, t: string)
    requires Span(s).1 != ""
    ensures Span(s + t) == (Span(s).0, Span(s).1 + t)
  {
    if IsDigit(s[0]) {
      SpanExtends(s[1..], t);
      assert (s + t)[1..] == s[1..] + t;
    }
  }

  lemma NatExtends(s: string, t: string)
    requires ReadNat(s).Some? && ReadNat(s).value.1 != ""
    ensures var (n, r) := ReadNat(s).value; ReadNat(s + t) == Some((n, r + t))
  {
    if s[0] == '0' {
      assert (s + t)[1..] == s[1..] + t;
    } else {
      SpanExtends(s, t);
    }
  }

  lemma IntExtends(s: string, t: string)
    requires ReadInt(s).Some? && ReadInt(s).value.1 != ""
    ensures var (n, r) := ReadInt(s).value; ReadInt(s + t) == Some((n, r + t))
  {
    if s[0] == '-' {
      NatExtends(s[1..], t);
      assert (s + t)[1..] == s[1..] + t;
    } else {
      NatExtends(s, t);
    }
  }

  lemma {:induction false} SpaceExtends(s: string, t: string)
    requires SkipSpace(s) != ""
    ensures SkipSpace(s + t) == SkipSpace(s) + t
  {
    if IsSpace(s[0]) {
      SpaceExtends(s[1..], t);
      assert (s + t)[1..] == s[1..] + t;
    }
  }

  /** Reading is not changed by what follows, except that digits may follow a number that ends the text. */
  lemma {:induction false} ReadExtends(s: string, t: string)
    requires Read(s).Some? && (Read(s).value.0.Int? ==> Read(s).value.1 != "")
    ensures var (v, r) := Read(s).value; Read(s + t) == Some((v, r + t))
    decreases |s|, 0
  {
    assert (s + t)[1..] == s[1..] + t;
    if s[0] == '"' {
      CharsExtend(s[1..], t);
    } else if s[0] == '[' {
      SpaceExtends(s[1..], t);
      ArrayExtends(SkipSpace(s[1..]), t);
    } else if s[0] == '{' {
      SpaceExtends(s[1..], t);
      DictExtends(SkipSpace(s[1..]), t);
    } else if s[0] == '-' || IsDigit(s[0]) {
      IntExtends(s, t);
    } else {
      WordExtends(s, t);
    }
  }

  lemma WordExtends(s: string, t: string)
    requires ReadWord(s).Some?
    ensures var (v, r) := ReadWord(s).value; ReadWord(s + t) == Some((v, r + t))
  {
    var n := if s[0] == 'f' then 5 else 4;
    assert (s + t)[n..] == s[n..] + t;
  }

  lemma {:induction false} ArrayExtends(s: string, t: string)
    requires ReadArray(s).Some?
    ensures var (v, r) := ReadArray(s).value; ReadArray(s + t) == Some((v, r + t))
    decreases |s|, 2
  {
    assert (s + t)[1..] == s[1..] + t;
    if !Starts(s, ']') { ItemsExtend(s, t); }
  }

  lemma {:induction false} DictExtends(s: string, t: string)
    requires ReadDict(s).Some?
    ensures var (v, r) := ReadDict(s).value; ReadDict(s + t) == Some((v, r + t))
    decreases |s|, 3
  {
    assert (s + t)[1..] == s[1..] + t;
    if !Starts(s, '}') { FieldsExtend(s, t); }
  }

  lemma {:induction false} ItemsExtend(s: string, t: string)
    requires ReadItems(s).Some?
    ensures var (v, r) := ReadItems(s).value; ReadItems(s + t) == Some((v, r + t))
    decreases |s|, 1
  {
    var (v, r0) := Read(s).value;
    var r := SkipSpace(r0);
    ReadExtends(s, t);
    SpaceExtends(r0, t);
    assert (r + t)[1..] == r[1..] + t;
    if Starts(r, ',') {
      SpaceExtends(r[1..], t);
      ItemsExtend(SkipSpace(r[1..]), t);
    }
  }

  lemma {:induction false} FieldExtends(s: string, t: string)
    requires ReadField(s).Some? && ReadField(s).value.2 != ""
    ensures var (key, x, r) := ReadField(s).value; ReadField(s + t) == Some((key, x, r + t))
    decreases |s|, 1
  {
    var (key, r0) := ReadChars(s[1..]).value;
    DropExtends(s, t, 1);
    CharsExtend(s[1..], t);
    var r := SkipSpace(r0);
    SpaceExtends(r0, t);
    DropExtends(r, t, 1);
    var c := SkipSpace(r[1..]);
    SpaceExtends(r[1..], t);
    ReadExtends(c, t);
    SpaceExtends(Read(c).value.1, t);
  }

  lemma {:induction false} FieldsExtend(s: string, t: string)
    requires ReadFields(s).Some?
    ensures var (v, r) := ReadFields(s).value; ReadFields(s + t) == Some((v, r + t))
    decreases |s|, 2
  {
    FieldExtends(s, t);
    var r := ReadField(s).value.2;
    assert (r + t)[1..] == r[1..] + t;
    if Starts(r, ',') {
      SpaceExtends(r[1..], t);
      FieldsExtend(SkipSpace(r[1..]), t);
    }
  }

  lemma TakeDrop(s: string, n: nat)
    requires n <= |s|
    ensures s[..n] + s[n..] == s
  {}

  /** The dict at the start of a text that begins with a brace, if there is a whole one */
  function Leading(text: string): Option<Json> {
    if Starts(text, '{') && Read(text).Some? then Some(Read(text).value.0) else None
  }

  /**
   * A torn read. Whatever part of a text a reader catches, it finds a malformed document or exactly the
   * dict that the text begins with.
   */
  lemma TornRead(text: string, n: nat)
    requires n <= |text| && Leading(text).Some?
    ensures Loads(text[..n]) == None || Loads(text[..n]) == Leading(text)
  {
    var p := text[..n];
    if Loads(p).Some? {
      assert n > 0 && p[0] == '{' && SkipSpace(p) == p;
      ReadExtends(p, text[n..]);
      TakeDrop(text, n);
    }
  }

  /** No part of a printed dict but the whole reads as a document. */
  lemma ProperPrefixIsMalformed(f: Fields, l: Layout, n: nat)
    requires WfFields(f) && n < |Dumps(Obj(f), l)|
    ensures Loads(Dumps(Obj(f), l)[..n]) == None
  {
    var text := Dumps(Obj(f), l);
    var p := text[..n];
    ReadsBack(Obj(f), l, 0, "");
    if Loads(p).Some? {
      assert n > 0 && p[0] == text[0] == '{' && SkipSpace(p) == p;
      ReadExtends(p, text[n..]);
      TakeDrop(text, n);
    }
  }

  /** A dict into which one more entry was put reads back from its text, with or without whitespace after it. */
  lemma StoreReadsBack(f: Fields, key: string, x: Json, tail: string)
    requires WfFields(f) && Wf(x) && AllSpace(tail)
    ensures WfFields(Put(f, key, x))
    ensures Loads(Dumps(Obj(Put(f, key, x)), Indented)) == Some(Obj(Put(f, key, x)))
    ensures Loads(Dumps(Obj(Put(f, key, x)), Indented) + tail) == Some(Obj(Put(f, key, x)))
  {
    WfPut(f, key, x);
    LoadsDumps(Obj(Put(f, key, x)), Indented, "");
    DictReadsBack(Put(f, key, x), Indented, tail);
  }

  lemma DictReadsBack(f: Fields, l: Layout, tail: string)
    requires WfFields(f) && AllSpace(tail)
    ensures Loads(Dumps(Obj(f), l) + tail) == Some(Obj(f))
  {
    var text := Dumps(Obj(f), l);
    ReadsBack(Obj(f), l, 0, "");
    ReadExtends(text, tail);
    assert text[0] == '{' && (text + tail)[0] == '{';
    assert "" + tail == tail;
    assert SkipSpace(tail) == "" by {
      SkipSpaces(tail, "");
      assert tail + "" == tail;
    }
  }

  // ---- the text of a dict stands between braces ----

  predicate EndsIn(s: string, c: char) { s != "" && s[|s| - 1] == c }

  /** A text ends as what follows it ends. */
  lemma {:induction false} PrintEnds(v: Json, l: Layout, level: nat, k: string, c: char)
    requires EndsIn(k, c)
    ensures EndsIn(Print(v, l, level, k), c)
    decreases v, 0
  {
    match v
    case Str(s) => CharsEnd(s, k, c);
    case Arr(Cons(h, t)) =>
      var close := Break(l, level) + ("]" + k);
      ItemsEnd(t, l, level + 1, close, c);
      PrintEnds(h, l, level + 1, PrintItems(t, l, level + 1, close), c);
    case Obj(Field(_, _, _)) => FieldEnds(v.fields, l, level + 1, Break(l, level) + ("}" + k), c);
    case _ =>
  }

  lemma {:induction false} CharsEnd(s: string, k: string, c: char)
    requires EndsIn(k, c)
    ensures EndsIn(PrintChars(s, k), c)
  {
    if s != "" { CharsEnd(s[1..], k, c); }
  }

  lemma {:induction false} ItemsEnd(items: Items, l: Layout, level: nat, k: string, c: char)
    requires EndsIn(k, c)
    ensures EndsIn(PrintItems(items, l, level, k), c)
    decreases items, 0
  {
    if items.Cons? {
      ItemsEnd(items.tail, l, level, k, c);
      PrintEnds(items.head, l, level, PrintItems(items.tail, l, level, k), c);
    }
  }

  lemma {:induction false} FieldEnds(f: Fields, l: Layout, level: nat, k: string, c: char)
    requires f.Field? && EndsIn(k, c)
    ensures EndsIn(PrintField(f, l, level, k), c)
    decreases f, 0
  {
    var after := PrintFields(f.rest, l, level, k);
    if f.rest.Field? { FieldEnds(f.rest, l, level, k, c); }
    PrintEnds(f.value, l, level, after, c);
    CharsEnd(f.key, Colon(l) + Print(f.value, l, level, after), c);
  }

  lemma DictInBraces(f: Fields, l: Layout)
    ensures var text := Dumps(Obj(f), l); text != "" && text[0] == '{' && text[|text| - 1] == '}'
  {
    if f.Field? { FieldEnds(f, l, 1, Break(l, 0) + ("}" + ""), '}'); }
  }

  // ---- what is read is well formed ----

  lemma {:induction false} ReadIsWf(s: string)
    requires Read(s).Some?
    ensures Wf(Read(s).value.0)
    decreases |s|, 0
  {
    if Starts(s, '[') && ReadArray(SkipSpace(s[1..])).value.0 != Arr(Nil) {
      ItemsAreWf(SkipSpace(s[1..]));
    } else if Starts(s, '{') && ReadDict(SkipSpace(s[1..])).value.0 != Obj(Empty) {
      FieldsAreWf(SkipSpace(s[1..]));
    }
  }

  lemma {:induction false} ItemsAreWf(s: string)
    requires ReadItems(s).Some?
    ensures WfItems(ReadItems(s).value.0)
    decreases |s|, 1
  {
    ReadIsWf(s);
    var r := SkipSpace(Read(s).value.1);
    if Starts(r, ',') { ItemsAreWf(SkipSpace(r[1..])); }
  }

  lemma {:induction false} FieldsAreWf(s: string)
    requires ReadFields(s).Some?
    ensures WfFields(ReadFields(s).value.0)
    decreases |s|, 1
  {
    var (key, x, r) := ReadField(s).value;
    ReadIsWf(SkipSpace(SkipSpace(ReadChars(s[1..]).value.1)[1..]));
    if Starts(r, ',') {
      FieldsAreWf(SkipSpace(r[1..]));
      var rest := ReadFields(SkipSpace(r[1..])).value.0;
      WfRemove(rest, key);
      if key in Keys(rest) { WfGet(rest, key); }
    }
  }

  lemma LoadsIsWf(s: string)
    requires Loads(s).Some?
    ensures Wf(Loads(s).value)
  {
    ReadIsWf(SkipSpace(s));
  }
}
