/** The demo application: the classification of a path, and the clearance that the bridge passes on. */
module Classification {
  import opened Basics
  import I = Identity
  import P = Posture
  import B = Bridge

  // ---- longest prefix ----

  /** One entry of the table from path prefixes to metadata */
  datatype Entry<M> = Entry(prefix: string, meta: M)

  /** `sorted(table.items(), key=lambda x: -len(x[0]))`: longer prefixes first, equal lengths in table order */
  function InsertLonger<M>(e: Entry<M>, sorted: seq<Entry<M>>): seq<Entry<M>> {
    if sorted == [] || |e.prefix| >= |sorted[0].prefix| then [e] + sorted
    else [sorted[0]] + InsertLonger(e, sorted[1..])
  }

  function LongestFirst<M>(table: seq<Entry<M>>): seq<Entry<M>> {
    if table == [] then [] else InsertLonger(table[0], LongestFirst(table[1..]))
  }

  function FirstMatch<M>(sorted: seq<Entry<M>>, path: string, default: M): M {
    if sorted == [] then default
    else if sorted[0].prefix <= path then sorted[0].meta
    else FirstMatch(sorted[1..], path, default)
  }

  /** `_get_classification_for_path` */
  function Lookup<M>(table: seq<Entry<M>>, path: string, default: M): M {
    FirstMatch(LongestFirst(table), path, default)
  }

  predicate Descending<M>(es: seq<Entry<M>>) {
    forall i, j :: 0 <= i < j < |es| ==> |es[i].prefix| >= |es[j].prefix|
  }

  /** A dict has no prefix twice. */
  predicate Distinct<M>(table: seq<Entry<M>>) {
    forall i, j :: 0 <= i < j < |table| ==> table[i].prefix != table[j].prefix
  }

  lemma {:induction false} InsertHas<M>(e: Entry<M>, sorted: seq<Entry<M>>, x: Entry<M>)
    ensures x in InsertLonger(e, sorted) <==> x == e || x in sorted
  {
    if sorted != [] {
      InsertHas(e, sorted[1..], x);
      assert sorted == [sorted[0]] + sorted[1..];
    }
  }

  lemma {:induction false} InsertSorts<M>(e: Entry<M>, sorted: seq<Entry<M>>)
    requires Descending(sorted)
    ensures Descending(InsertLonger(e, sorted))
  {
    if sorted != [] && |e.prefix| < |sorted[0].prefix| {
      var rest := InsertLonger(e, sorted[1..]);
      InsertSorts(e, sorted[1..]);
      forall j | 0 <= j < |rest| ensures |sorted[0].prefix| >= |rest[j].prefix| {
        InsertHas(e, sorted[1..], rest[j]);
      }
    }
  }

  lemma {:induction false} SortHas<M>(table: seq<Entry<M>>, x: Entry<M>)
    ensures x in LongestFirst(table) <==> x in table
  {
    if table != [] {
      SortHas(table[1..], x);
      InsertHas(table[0], LongestFirst(table[1..]), x);
      assert table == [table[0]] + table[1..];
    }
  }

  lemma {:induction false} SortSorts<M>(table: seq<Entry<M>>)
    ensures Descending(LongestFirst(table))
  {
    if table != [] {
      SortSorts(table[1..]);
      InsertSorts(table[0], LongestFirst(table[1..]));
    }
  }

  /** The entry is a longest one of those whose prefix the path has. */
  ghost predicate Longest<M(!new)>(table: seq<Entry<M>>, path: string, e: Entry<M>) {
    e in table && e.prefix <= path && forall x :: x in table && x.prefix <= path ==> |x.prefix| <= |e.prefix|
  }

  lemma {:induction false} FirstIsLongest<M(!new)>(sorted: seq<Entry<M>>, path: string, default: M)
    requires Descending(sorted)
    ensures (forall x :: x in sorted ==> !(x.prefix <= path)) ==> FirstMatch(sorted, path, default) == default
    ensures (exists x :: x in sorted && x.prefix <= path) ==>
      exists e :: Longest(sorted, path, e) && FirstMatch(sorted, path, default) == e.meta
  {
    if sorted != [] {
      var first, rest := sorted[0], sorted[1..];
      assert sorted == [first] + rest;
      FirstIsLongest(rest, path, default);
      if first.prefix <= path {
        assert Longest(sorted, path, first);
      } else if x :| x in sorted && x.prefix <= path {
        assert x in rest;
        var e :| Longest(rest, path, e) && FirstMatch(rest, path, default) == e.meta;
        assert Longest(sorted, path, e);
      }
    }
  }

  /** Two longest matches of one path have the same prefix, so in a dict they are one entry. */
  lemma LongestIsUnique<M(!new)>(table: seq<Entry<M>>, path: string, d: Entry<M>, e: Entry<M>)
    requires Distinct(table) && Longest(table, path, d) && Longest(table, path, e)
    ensures d == e
  {
    assert d.prefix == path[..|d.prefix|] == e.prefix;
  }

  /** The lookup finds the one longest matching prefix, and the default exactly when no prefix matches. */
  lemma LookupIsLongestMatch<M(!new)>(table: seq<Entry<M>>, path: string, default: M)
    requires Distinct(table)
    ensures forall e :: Longest(table, path, e) ==> Lookup(table, path, default) == e.meta
    ensures (exists e :: Longest(table, path, e)) <==> exists x :: x in table && x.prefix <= path
    ensures (forall x :: x in table ==> !(x.prefix <= path)) ==> Lookup(table, path, default) == default
  {
    var sorted := LongestFirst(table);
    SortSorts(table);
    forall x ensures x in sorted <==> x in table { SortHas(table, x); }
    FirstIsLongest(sorted, path, default);
    if x :| x in table && x.prefix <= path {
      assert x in sorted;
      var e :| Longest(sorted, path, e) && FirstMatch(sorted, path, default) == e.meta;
      assert Longest(table, path, e);
      forall d | Longest(table, path, d) ensures d == e { LongestIsUnique(table, path, d, e); }
    }
  }

  /** The order of the table does not matter. */
  lemma TableOrderIsIrrelevant<M(!new)>(table: seq<Entry<M>>, other: seq<Entry<M>>, path: string, default: M)
    requires Distinct(table) && Distinct(other) && forall e :: e in table <==> e in other
    ensures Lookup(table, path, default) == Lookup(other, path, default)
  {
    LookupIsLongestMatch(table, path, default);
    LookupIsLongestMatch(other, path, default);
    if x :| x in table && x.prefix <= path {
      var e :| Longest(table, path, e);
      assert Longest(other, path, e);
    }
  }

  // ---- clearance ----

  /** `CLEARANCE_LEVELS.get(role, 0)` */
  function RoleLevel(role: string): nat {
    if role == "admin" then 3 else if role == "devops" then 2 else if role == "user" then 1 else 0
  }

  const CLEARANCE := "clearance="

  /** `_get_caller_clearance`; the header is empty if it is missing. */
  function CallerClearance(header: string): nat {
    if CLEARANCE <= header then RoleLevel(Strip(header[|CLEARANCE|..])) else 0
  }

  function UpperChar(c: char): char { if 'a' <= c <= 'z' then (c as int - 32) as char else c }

  function Upper(s: string): string { if s == "" then "" else [UpperChar(s[0])] + Upper(s[1..]) }

  /** `CLASSIFICATION_LEVELS.get(classification.upper(), 0)` */
  function RequiredLevel(classification: string): nat {
    var c := Upper(classification);
    if c == "RESTRICTED" then 3 else if c == "CONFIDENTIAL" then 2 else if c == "INTERNAL" then 1 else 0
  }

  /** `_clearance_sufficient` */
  predicate Sufficient(header: string, classification: string) {
    CallerClearance(header) >= RequiredLevel(classification)
  }

  /** The level of a header: the role is what follows the name, with any blanks around it. */
  lemma HeaderMeans(role: string, before: string, after: string)
    requires AllBlank(before) && AllBlank(after) && (role != "" ==> !IsBlank(role[0]) && !IsBlank(role[|role| - 1]))
    ensures CallerClearance("clearance=" + (before + role + after)) == RoleLevel(role)
  {
    var header := "clearance=" + (before + role + after);
    assert header[10..] == before + role + after;
    StripsBlanks(before, role, after);
  }

  lemma LevelsAre(role: string)
    ensures RoleLevel("admin") == 3 && RoleLevel("devops") == 2 && RoleLevel("user") == 1
    ensures role !in {"admin", "devops", "user"} ==> RoleLevel(role) == 0
    ensures forall header :: !("clearance=" <= header) ==> CallerClearance(header) == 0
  {
    assert "user"[0] == 'u' && "admin"[0] == 'a' && "devops"[0] == 'd';
  }

  /** Which classifications need more than level 1, in any case of the letters */
  lemma {:induction false} RequiredMeans(classification: string)
    ensures |Upper(classification)| == |classification|
    ensures forall i :: 0 <= i < |classification| ==> Upper(classification)[i] == UpperChar(classification[i])
    ensures RequiredLevel(classification) > 1 <==> Upper(classification) in {"RESTRICTED", "CONFIDENTIAL"}
    ensures RequiredLevel(classification) == 1 <==> Upper(classification) == "INTERNAL"
    ensures RequiredLevel(classification) == 2 <==> Upper(classification) == "CONFIDENTIAL"
  {
    if classification != "" { RequiredMeans(classification[1..]); }
    assert "RESTRICTED"[0] == 'R' && "CONFIDENTIAL"[0] == 'C' && "INTERNAL"[0] == 'I';
  }

  lemma LettersAreRaised()
    ensures forall i: nat :: i < 26 ==> UpperChar("abcdefghijklmnopqrstuvwxyz"[i]) == "ABCDEFGHIJKLMNOPQRSTUVWXYZ"[i]
    ensures forall c :: c < 'a' || 'z' < c ==> UpperChar(c) == c
  {
    var upper, low := "ABCDEFGHIJKLMNOPQRSTUVWXYZ", "abcdefghijklmnopqrstuvwxyz";
    assert forall i :: 0 <= i < 26 ==> upper[i] as int == 65 + i && low[i] as int == 97 + i;
  }

  /** The header that the application gets with an answer of the bridge */
  function HeaderOf(r: B.Response): string { if r.Response? && r.clearance.Some? then r.clearance.value else "" }

  /**
   * Whoever the bridge lets through, administrators too, reaches the application with the clearance of an
   * ordinary user, which covers what needs level 1 at most; nobody else has any clearance.
   */
  lemma EveryCallerIsOrdinary(id: I.Identity, posture: P.Reply, ip: string, path: string, allow: B.Query, why: B.Query,
                              classification: string)
    ensures var r := B.Validate(id, posture, ip, path, allow, why);
      && CallerClearance(HeaderOf(r)) == (if r.Response? && r.status == 200 then 1 else 0)
      && (r.Response? && r.status == 200 ==>
            (Sufficient(HeaderOf(r), classification) <==> RequiredLevel(classification) <= 1))
  {
    B.ValidateMeans(id, posture, ip, path, allow, why);
    UserHeader();
  }

  lemma UserHeader()
    ensures CallerClearance("clearance=user") == 1 && CallerClearance("") == 0
  {
    assert "clearance=user"[10..] == "user";
    assert Strip("user") == "user";
    assert "user"[0] == 'u' && "admin"[0] == 'a' && "devops"[0] == 'd';
  }
}
