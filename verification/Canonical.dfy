/**
 * `json.dumps(data, separators=(",", ":"), sort_keys=True)`: the text that is signed.
 * It identifies a value up to the order in which dicts were filled.
 */
module Canonical {
  import opened Basics
  import opened Json
  import opened JsonRoundTrip

  /** Python's order on strings, by code points */
  predicate Before(a: string, b: string) {
    b != "" && (a == "" || a[0] < b[0] || (a[0] == b[0] && Before(a[1..], b[1..])))
  }

  lemma {:induction false} BeforeIsStrict(a: string, b: string)
    ensures Before(a, b) ==> !Before(b, a) && a != b
    ensures !Before(a, b) && !Before(b, a) ==> a == b
  {
    if a != "" && b != "" && a[0] == b[0] {
      BeforeIsStrict(a[1..], b[1..]);
      assert a == [a[0]] + a[1..] && b == [b[0]] + b[1..];
    }
  }

  /** At `n` the two texts differ for the first time, and the first one has the lower character. */
  ghost predicate LowerAt(a: string, b: string, n: nat) {
    n < |a| && n < |b| && a[..n] == b[..n] && a[n] < b[n]
  }

  /** The order: a text comes before its extensions and before those with a higher first different character. */
  lemma {:induction false} BeforeMeans(a: string, b: string)
    ensures Before(a, b) <==> (a <= b && a != b) || exists n: nat :: LowerAt(a, b, n)
  {
    if a != "" && b != "" {
      BeforeMeans(a[1..], b[1..]);
      if n: nat :| LowerAt(a, b, n) {
        assert n > 0 ==> a[..n][0] == b[..n][0];
        if n > 0 {
          assert a[..n][1..] == a[1..][..n - 1] && b[..n][1..] == b[1..][..n - 1];
          assert LowerAt(a[1..], b[1..], n - 1);
        }
      }
      if a[0] == b[0] {
        assert a == [a[0]] + a[1..] && b == [b[0]] + b[1..];
        if n: nat :| LowerAt(a[1..], b[1..], n) {
          assert a[..n + 1] == [a[0]] + a[1..][..n] && b[..n + 1] == [b[0]] + b[1..][..n];
          assert LowerAt(a, b, n + 1);
        }
        assert a <= b <==> a[1..] <= b[1..];
      } else if a[0] < b[0] {
        assert LowerAt(a, b, 0);
      }
    }
  }

  lemma {:induction false} BeforeIsTransitive(a: string, b: string, c: string)
    requires Before(a, b) && Before(b, c)
    ensures Before(a, c)
  {
    if a != "" && a[0] == b[0] && b[0] == c[0] { BeforeIsTransitive(a[1..], b[1..], c[1..]); }
  }

  function Insert(key: string, x: Json, f: Fields): Fields {
    if f.Empty? || Before(key, f.key) then Field(key, x, f)
    else Field(f.key, f.value, Insert(key, x, f.rest))
  }

  /** `sort_keys=True` at every level */
  function Canon(v: Json): Json {
    match v
    case Arr(items) => Arr(CanonItems(items))
    case Obj(f) => Obj(CanonFields(f))
    case _ => v
  }

  function CanonItems(items: Items): Items {
    if items.Nil? then Nil else Cons(Canon(items.head), CanonItems(items.tail))
  }

  function CanonFields(f: Fields): Fields {
    if f.Empty? then Empty else Insert(f.key, Canon(f.value), CanonFields(f.rest))
  }

  function SignedText(v: Json): string { Dumps(Canon(v), Compact) }

  /** Equality of JSON values up to the order of keys. Unlike Python's `==` it tells booleans from numbers. */
  ghost predicate Same(v: Json, w: Json)
    decreases v
  {
    match v
    case Arr(a) => w.Arr? && SameItems(a, w.items)
    case Obj(f) => w.Obj? && Keys(f) == Keys(w.fields) && SameFields(f, w.fields)
    case _ => v == w
  }

  ghost predicate SameItems(a: Items, b: Items)
    decreases a
  {
    if a.Nil? then b.Nil? else b.Cons? && Same(a.head, b.head) && SameItems(a.tail, b.tail)
  }

  ghost predicate SameFields(f: Fields, g: Fields)
    decreases f
  {
    f.Field? ==> f.key in Keys(g) && Same(f.value, Get(g, f.key).value) && SameFields(f.rest, g)
  }

  // ---- sorted dicts ----

  ghost predicate Sorted(f: Fields) {
    f.Field? ==> Sorted(f.rest) && forall k :: k in Keys(f.rest) ==> Before(f.key, k)
  }

  lemma {:induction false} InsertSorts(key: string, x: Json, f: Fields)
    requires Sorted(f) && key !in Keys(f)
    ensures Sorted(Insert(key, x, f))
    ensures Keys(Insert(key, x, f)) == {key} + Keys(f)
    ensures forall k :: Get(Insert(key, x, f), k) == if k == key then Some(x) else Get(f, k)
  {
    if f.Field? {
      if Before(key, f.key) {
        forall k | k in Keys(f.rest) ensures Before(key, k) { BeforeIsTransitive(key, f.key, k); }
      } else {
        BeforeIsStrict(key, f.key);
        InsertSorts(key, x, f.rest);
      }
    }
  }

  /** A sorted dict is determined by its entries. */
  lemma {:induction false} SortedIsUnique(f: Fields, g: Fields)
    requires Sorted(f) && Sorted(g) && Keys(f) == Keys(g)
    requires forall k :: Get(f, k) == Get(g, k)
    ensures f == g
    decreases f
  {
    if f.Field? {
      assert f.key in Keys(g) && g.key in Keys(f);
      BeforeIsStrict(f.key, g.key);
      assert f.key == g.key;
      BeforeIsStrict(f.key, f.key);
      forall k ensures Get(f.rest, k) == Get(g.rest, k) {
        if k == f.key {
          assert k !in Keys(f.rest) && k !in Keys(g.rest);
        } else {
          assert Get(f, k) == Get(g, k);
        }
      }
      assert Keys(f.rest) == Keys(f) - {f.key} == Keys(g.rest);
      assert Get(f, f.key) == Get(g, f.key);
      SortedIsUnique(f.rest, g.rest);
    }
  }

  // ---- the canonical form ----

  lemma {:induction false} CanonIsWf(v: Json)
    requires Wf(v)
    ensures Wf(Canon(v))
  {
    match v
    case Arr(items) => CanonItemsAreWf(items);
    case Obj(f) => CanonFieldsAreWf(f);
    case _ =>
  }

  lemma {:induction false} CanonItemsAreWf(items: Items)
    requires WfItems(items)
    ensures WfItems(CanonItems(items))
  {
    if items.Cons? {
      CanonIsWf(items.head);
      CanonItemsAreWf(items.tail);
    }
  }

  lemma {:induction false} InsertIsWf(key: string, x: Json, f: Fields)
    requires WfFields(f) && Wf(x) && key !in Keys(f)
    ensures WfFields(Insert(key, x, f)) && Keys(Insert(key, x, f)) == {key} + Keys(f)
  {
    if f.Field? && !Before(key, f.key) { InsertIsWf(key, x, f.rest); }
  }

  lemma {:induction false} CanonFieldsAreWf(f: Fields)
    requires WfFields(f)
    ensures WfFields(CanonFields(f)) && Keys(CanonFields(f)) == Keys(f)
  {
    if f.Field? {
      CanonIsWf(f.value);
      CanonFieldsAreWf(f.rest);
      InsertIsWf(f.key, Canon(f.value), CanonFields(f.rest));
    }
  }

  function CanonOption(x: Option<Json>): Option<Json> {
    match x
    case Some(v) => Some(Canon(v))
    case None => None
  }

  /** The canonical form of a dict: its keys in ascending order, each with the canonical form of its value */
  lemma {:induction false} CanonEntries(f: Fields)
    requires WfFields(f)
    ensures Sorted(CanonFields(f)) && Keys(CanonFields(f)) == Keys(f)
    ensures forall k :: Get(CanonFields(f), k) == CanonOption(Get(f, k))
  {
    if f.Field? {
      CanonEntries(f.rest);
      InsertSorts(f.key, Canon(f.value), CanonFields(f.rest));
    }
  }

  /** Two values have the same canonical form exactly when they are equal up to the order of keys. */
  lemma {:induction false} CanonDecidesSame(v: Json, w: Json)
    requires Wf(v) && Wf(w)
    ensures Canon(v) == Canon(w) <==> Same(v, w)
    decreases v
  {
    if v.Arr? && w.Arr? {
      CanonDecidesSameItems(v.items, w.items);
    } else if v.Obj? && w.Obj? {
      var f, g := v.fields, w.fields;
      CanonEntries(f);
      CanonEntries(g);
      if Keys(f) == Keys(g) { CanonDecidesSameFields(f, g); }
      if Same(v, w) {
        forall k ensures Get(CanonFields(f), k) == Get(CanonFields(g), k) {}
        SortedIsUnique(CanonFields(f), CanonFields(g));
      }
    }
  }

  lemma {:induction false} CanonDecidesSameItems(a: Items, b: Items)
    requires WfItems(a) && WfItems(b)
    ensures CanonItems(a) == CanonItems(b) <==> SameItems(a, b)
    decreases a
  {
    if a.Cons? && b.Cons? {
      CanonDecidesSame(a.head, b.head);
      CanonDecidesSameItems(a.tail, b.tail);
    }
  }

  lemma {:induction false} CanonDecidesSameFields(f: Fields, g: Fields)
    requires WfFields(f) && WfFields(g) && Keys(f) <= Keys(g)
    ensures SameFields(f, g) <==> forall k :: k in Keys(f) ==> CanonOption(Get(f, k)) == CanonOption(Get(g, k))
    decreases f
  {
    if f.Field? {
      WfGet(g, f.key);
      CanonDecidesSame(f.value, Get(g, f.key).value);
      CanonDecidesSameFields(f.rest, g);
      assert Get(f, f.key) == Some(f.value);
      forall k | k in Keys(f.rest) ensures Get(f, k) == Get(f.rest, k) {}
    }
  }

  /** The signed text does not depend on key order and tells any two different values apart. */
  lemma SignedTextIdentifies(v: Json, w: Json)
    requires Wf(v) && Wf(w)
    ensures SignedText(v) == SignedText(w) <==> Same(v, w)
  {
    CanonIsWf(v);
    CanonIsWf(w);
    LoadsDumps(Canon(v), Compact, "");
    LoadsDumps(Canon(w), Compact, "");
    CanonDecidesSame(v, w);
  }

  /** Equal dicts have equal entries. */
  lemma {:induction false} SameEntries(f: Fields, g: Fields, key: string)
    requires SameFields(f, g) && key in Keys(f)
    ensures key in Keys(g) && Same(Get(f, key).value, Get(g, key).value)
  {
    if f.key != key { SameEntries(f.rest, g, key); }
  }
}
