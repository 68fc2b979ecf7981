/** `json.dumps` prints ASCII only, so encoding its result to bytes cannot fail. */
module JsonAscii {
  import opened Basics
  import opened Json
  import opened JsonRoundTrip

  lemma {:induction false} PrintIsAscii(v: Json, l: Layout, level: nat, k: string)
    requires IsAscii(k)
    ensures IsAscii(Print(v, l, level, k))
    decreases v, 0
  {
    if v.Arr? && v.items.Cons? {
      ArrayIsAscii(v.items, l, level, k);
    } else if v.Obj? && v.fields.Field? {
      DictIsAscii(v.fields, l, level, k);
    } else {
      PlainIsAscii(v, l, level, k);
    }
  }

  lemma PlainIsAscii(v: Json, l: Layout, level: nat, k: string)
    requires IsAscii(k) && !(v.Arr? && v.items.Cons?) && !(v.Obj? && v.fields.Field?)
    ensures IsAscii(Print(v, l, level, k))
  {
    if v.Int? { DecimalReadsBack(if v.n < 0 then -v.n else v.n); }
    if v.Str? { CharsAreAscii(v.s, k); }
  }

  lemma {:induction false} ArrayIsAscii(items: Items, l: Layout, level: nat, k: string)
    requires items.Cons? && IsAscii(k)
    ensures IsAscii(Print(Arr(items), l, level, k))
    decreases items, 1
  {
    var close := Break(l, level) + ("]" + k);
    assert IsAscii(close) by { BreakIsAscii(l, level); }
    var after := PrintItems(items.tail, l, level + 1, close);
    ItemsAreAscii(items.tail, l, level + 1, close);
    var first := Print(items.head, l, level + 1, after);
    PrintIsAscii(items.head, l, level + 1, after);
    OpenIsAscii("[", l, level + 1, first);
    assert Print(Arr(items), l, level, k) == "[" + (Break(l, level + 1) + first);
  }

  lemma {:induction false} DictIsAscii(f: Fields, l: Layout, level: nat, k: string)
    requires f.Field? && IsAscii(k)
    ensures IsAscii(Print(Obj(f), l, level, k))
    decreases f, 2
  {
    var close := Break(l, level) + ("}" + k);
    BreakIsAscii(l, level);
    FieldIsAscii(f, l, level + 1, close);
    OpenIsAscii("{", l, level + 1, PrintField(f, l, level + 1, close));
  }

  lemma OpenIsAscii(open: string, l: Layout, level: nat, k: string)
    requires IsAscii(open) && IsAscii(k)
    ensures IsAscii(open + (Break(l, level) + k)) && IsAscii(open + (Gap(l, level) + k))
  {
    BreakIsAscii(l, level);
  }

  lemma {:induction false} ItemsAreAscii(items: Items, l: Layout, level: nat, k: string)
    requires IsAscii(k)
    ensures IsAscii(PrintItems(items, l, level, k))
    decreases items, 0
  {
    if items.Cons? {
      var after := PrintItems(items.tail, l, level, k);
      ItemsAreAscii(items.tail, l, level, k);
      PrintIsAscii(items.head, l, level, after);
      OpenIsAscii(",", l, level, Print(items.head, l, level, after));
    }
  }

  lemma {:induction false} FieldIsAscii(f: Fields, l: Layout, level: nat, k: string)
    requires f.Field? && IsAscii(k)
    ensures IsAscii(PrintField(f, l, level, k))
    decreases f, 0
  {
    var after := PrintFields(f.rest, l, level, k);
    FieldsAreAscii(f.rest, l, level, k);
    PrintIsAscii(f.value, l, level, after);
    CharsAreAscii(f.key, Colon(l) + Print(f.value, l, level, after));
  }

  lemma {:induction false} FieldsAreAscii(f: Fields, l: Layout, level: nat, k: string)
    requires IsAscii(k)
    ensures IsAscii(PrintFields(f, l, level, k))
    decreases f, 1
  {
    if f.Field? {
      FieldIsAscii(f, l, level, k);
      OpenIsAscii(",", l, level, PrintField(f, l, level, k));
    }
  }

  lemma BreakIsAscii(l: Layout, level: nat)
    ensures IsAscii(Break(l, level)) && IsAscii(Gap(l, level))
  {
    SpacesAreSpace(2 * level);
  }

  lemma {:induction false} CharsAreAscii(s: string, k: string)
    requires IsAscii(k)
    ensures IsAscii(PrintChars(s, k))
  {
    if s != "" { CharsAreAscii(s[1..], k); }
  }

  lemma DumpsIsAscii(v: Json, l: Layout)
    ensures IsAscii(Dumps(v, l))
  {
    PrintIsAscii(v, l, 0, "");
  }
}
