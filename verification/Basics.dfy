/** Optional values and the string operations that every component uses. */
module Basics {
  datatype Option<+T> = None | Some(value: T)

  predicate IsDigit(c: char) { '0' <= c <= '9' }

  predicate AllDigits(s: string) { forall i :: 0 <= i < |s| ==> IsDigit(s[i]) }

  /** The whitespace of RFC 8259, section 2. */
  predicate IsSpace(c: char) { c == ' ' || c == '\t' || c == '\n' || c == '\r' }

  predicate IsAscii(s: string) { forall i :: 0 <= i < |s| ==> s[i] as int < 128 }

  predicate AllSpace(s: string) { forall i :: 0 <= i < |s| ==> IsSpace(s[i]) }

  /** `s.lower()` for the letters that the programs compare with, all of which are ASCII. */
  function LowerChar(c: char): char {
    if 'A' <= c <= 'Z' then (c as int + 32) as char else c
  }

  function Lower(s: string): (r: string)
    ensures |r| == |s| && forall i :: 0 <= i < |s| ==> r[i] == LowerChar(s[i])
  {
    seq(|s|, i requires 0 <= i < |s| => LowerChar(s[i]))
  }

  lemma LettersAreLowered()
    ensures Lower("ABCDEFGHIJKLMNOPQRSTUVWXYZ") == "abcdefghijklmnopqrstuvwxyz"
    ensures forall c: char :: c < 'A' || 'Z' < c ==> LowerChar(c) == c
  {
    var upper, low := "ABCDEFGHIJKLMNOPQRSTUVWXYZ", "abcdefghijklmnopqrstuvwxyz";
    assert forall i :: 0 <= i < 26 ==> upper[i] as int == 65 + i && low[i] as int == 97 + i;
  }

  /** `sub in s` for two strings. */
  predicate Contains(s: string, sub: string) {
    sub <= s || (s != "" && Contains(s[1..], sub))
  }

  lemma FirstIsPrefix(s: string, a: string, sub: string, b: string)
    requires s == a + sub + b
    ensures a == "" ==> sub <= s
    ensures s == "" ==> sub <= s
  {
    assert |s| == |a| + |sub| + |b|;
    assert a == "" ==> s[..|sub|] == sub;
  }

  lemma {:induction false} ContainsMeans(s: string, sub: string)
    ensures Contains(s, sub) <==> exists a, b :: s == a + sub + b
  {
    if sub <= s {
      assert s == "" + sub + s[|sub|..];
    } else if s != "" {
      ContainsMeans(s[1..], sub);
      if Contains(s[1..], sub) {
        var a, b :| s[1..] == a + sub + b;
        assert s == ([s[0]] + a) + sub + b;
      }
      if a, b :| s == a + sub + b {
        FirstIsPrefix(s, a, sub, b);
        assert s[1..] == a[1..] + sub + b;
      }
    } else if a, b :| s == a + sub + b {
      FirstIsPrefix(s, a, sub, b);
    }
  }

  lemma Assoc<T>(a: seq<T>, b: seq<T>, c: seq<T>)
    ensures a + b + c == a + (b + c)
  {}

  // ---- decimal numerals ----

  function Digit(d: nat): char
    requires d < 10
  {
    (48 + d) as char
  }

  function Decimal(n: nat): string {
    if n < 10 then [Digit(n)] else Decimal(n / 10) + [Digit(n % 10)]
  }

  function Numeral(s: string): nat
    requires AllDigits(s)
  {
    if s == "" then 0 else 10 * Numeral(s[..|s| - 1]) + (s[|s| - 1] as int - 48)
  }

  /** No leading zero except in "0" itself. */
  predicate Canonical(s: string) {
    s != "" && AllDigits(s) && (|s| == 1 || s[0] != '0')
  }

  lemma {:induction false} DecimalReadsBack(n: nat)
    ensures Canonical(Decimal(n)) && Numeral(Decimal(n)) == n
    ensures n > 0 ==> Decimal(n)[0] != '0'
  {
    if n >= 10 {
      DecimalReadsBack(n / 10);
      assert Decimal(n)[..|Decimal(n)| - 1] == Decimal(n / 10);
    }
  }

  /** Numerals are decimal, with the most significant digit first. */
  lemma DecimalIsPositional(n: nat, d: nat)
    requires d < 10
    ensures Decimal(d) == ["0123456789"[d]]
    ensures n > 0 ==> Decimal(10 * n + d) == Decimal(n) + Decimal(d)
  {
    assert "0123456789"[d] as int == 48 + d;
    assert (10 * n + d) / 10 == n;
  }

  lemma {:induction false} NumeralPrintsBack(s: string)
    requires Canonical(s)
    ensures Decimal(Numeral(s)) == s
    ensures s[0] != '0' ==> Numeral(s) > 0
  {
    var front := s[..|s| - 1];
    if |s| > 1 {
      assert Canonical(front);
      NumeralPrintsBack(front);
      assert Numeral(s) / 10 == Numeral(front);
      assert s == front + [s[|s| - 1]];
    } else {
      assert Numeral(front) == 0;
    }
  }

  // ---- splitting ----

  /** `s.split(c)` for a one-character separator. */
  function Split(s: string, c: char): (parts: seq<string>)
    ensures |parts| >= 1
  {
    if s == "" then [""]
    else
      var rest := Split(s[1..], c);
      if s[0] == c then [""] + rest else [[s[0]] + rest[0]] + rest[1..]
  }

  function Join(parts: seq<string>, c: char): string
    requires |parts| >= 1
  {
    if |parts| == 1 then parts[0] else parts[0] + [c] + Join(parts[1..], c)
  }

  lemma {:induction false} SplitCell(s: string, c: char, rest: string)
    requires c !in s
    ensures Split(s, c) == [s]
    ensures Split(s + [c] + rest, c) == [s] + Split(rest, c)
  {
    var t := s + [c] + rest;
    if s == "" {
      assert t[1..] == rest;
    } else {
      SplitCell(s[1..], c, rest);
      assert t[1..] == s[1..] + [c] + rest;
      assert [s[0]] + s[1..] == s;
    }
  }

  lemma {:induction false} SplitJoin(parts: seq<string>, c: char)
    requires |parts| >= 1 && forall p :: p in parts ==> c !in p
    ensures Split(Join(parts, c), c) == parts
  {
    if |parts| == 1 {
      SplitCell(parts[0], c, "");
    } else {
      SplitJoin(parts[1..], c);
      SplitCell(parts[0], c, Join(parts[1..], c));
    }
  }

  /** The ASCII characters that `s.strip()` removes, which are more than the whitespace of JSON */
  predicate IsBlank(c: char) { 9 <= c as int <= 13 || 28 <= c as int <= 32 }

  lemma BlanksAre(c: char)
    ensures IsBlank(c) <==> c as int in {9, 10, 11, 12, 13, 28, 29, 30, 31, 32}
  {}

  predicate AllBlank(s: string) { forall i :: 0 <= i < |s| ==> IsBlank(s[i]) }

  /** `s.strip()` */
  function Strip(s: string): string {
    if s != "" && IsBlank(s[0]) then Strip(s[1..])
    else if s != "" && IsBlank(s[|s| - 1]) then Strip(s[..|s| - 1])
    else s
  }

  /** Exactly the blanks around a text go, and those inside it stay. */
  lemma {:induction false} StripsBlanks(before: string, s: string, after: string)
    requires AllBlank(before) && AllBlank(after) && (s != "" ==> !IsBlank(s[0]) && !IsBlank(s[|s| - 1]))
    ensures Strip(before + s + after) == s
    decreases |before| + |after|
  {
    var t := before + s + after;
    if before != "" {
      assert t[1..] == before[1..] + s + after;
      StripsBlanks(before[1..], s, after);
    } else if after != "" {
      StripsEnd(s, after);
    } else {
      assert t == s;
    }
  }

  lemma {:induction false} StripsEnd(s: string, after: string)
    requires AllBlank(after) && (s != "" ==> !IsBlank(s[0]) && !IsBlank(s[|s| - 1]))
    ensures Strip("" + s + after) == s
    decreases |after|
  {
    var t := "" + s + after;
    if after == "" {
      assert t == s;
    } else if s == "" {
      assert t[1..] == "" + s + after[1..];
      StripsEnd(s, after[1..]);
    } else {
      assert t[..|t| - 1] == "" + s + after[..|after| - 1];
      StripsEnd(s, after[..|after| - 1]);
    }
  }
}
