/**
 * The pieces of the Kotlin/JVM runtime the app relies on for text and
 * numbers: 32-bit `Int`, `toString()` of an integer, `String.toInt()`
 * (which is `Integer.parseInt` on the JVM), `equals`/`contains` with
 * `ignoreCase = true`, `String.contains`, and the natural order of strings
 * used by `sorted()`.
 */
module Strings {
  import opened Wrappers

  const IntMin: int := -0x8000_0000
  const IntMax: int := 0x7fff_ffff

  /** Kotlin `Int`. */
  type Int32 = x: int | IntMin <= x <= IntMax

  // ---------------------------------------------------------------------------
  // Decimal digits

  predicate IsDigit(c: char) {
    '0' <= c <= '9'
  }

  predicate AllDigits(s: string) {
    forall i :: 0 <= i < |s| ==> IsDigit(s[i])
  }

  function DigitValue(c: char): nat
    requires IsDigit(c)
  {
    c as int - '0' as int
  }

  function DigitChar(d: nat): (c: char)
    requires d < 10
    ensures IsDigit(c) && DigitValue(c) == d
  {
    ('0' as int + d) as char
  }

  /** The value of a run of decimal digits, most significant digit first. */
  function DigitsValue(s: string): nat
    requires AllDigits(s)
  {
    if s == [] then 0 else DigitsValue(s[..|s| - 1]) * 10 + DigitValue(s[|s| - 1])
  }

  // ---------------------------------------------------------------------------
  // Integer to text: `toString()` of an `Int` or a `Long`

  /**
   * Decimal text of a non-negative number: at least one digit, no leading
   * zero, and reading the digits back gives the number.
   */
  function NatToString(n: nat): (s: string)
    ensures 1 <= |s| && AllDigits(s)
    ensures DigitsValue(s) == n
    ensures |s| > 1 ==> s[0] != '0'
  {
    if n < 10 then
      [DigitChar(n)]
    else
      var prefix := NatToString(n / 10);
      var s := prefix + [DigitChar(n % 10)];
      assert s[..|s| - 1] == prefix;
      s
  }

  /** `toString()` of an integer: a minus sign before the digits when negative. */
  function IntToString(n: int): string {
    if n < 0 then "-" + NatToString(-n) else NatToString(n)
  }

  // ---------------------------------------------------------------------------
  // Text to integer: `String.toInt()`, whose `NumberFormatException` is `None`

  /**
   * `Integer.parseInt`: an optional leading '-' or '+', then at least one
   * digit and nothing else, and a value that fits in an `Int`.
   */
  function ParseInt(s: string): Option<Int32> {
    if |s| == 0 then None
    else
      var digits := if s[0] == '-' || s[0] == '+' then s[1..] else s;
      if |digits| == 0 || !AllDigits(digits) then None
      else
        var v: int := if s[0] == '-' then -(DigitsValue(digits) as int) else DigitsValue(digits);
        if IntMin <= v <= IntMax then Some(v) else None
  }

  /** Unsigned digit text parses to its value. */
  lemma ParseIntOfDigits(n: string)
    requires 1 <= |n| && AllDigits(n) && DigitsValue(n) <= IntMax
    ensures ParseInt(n) == Some(DigitsValue(n))
  {
    assert IsDigit(n[0]);
  }

  /** A minus sign followed by digit text parses to the negated value. */
  lemma ParseIntOfNegatedDigits(n: string)
    requires 1 <= |n| && AllDigits(n) && DigitsValue(n) <= -IntMin
    ensures ParseInt("-" + n).Some? && ParseInt("-" + n).value == -(DigitsValue(n) as int)
  {
    var s := "-" + n;
    assert s[1..] == n;
  }

  /** Storing an `Int` as text and parsing it back gives the same `Int`. */
  lemma ParseIntOfIntToString(v: Int32)
    ensures ParseInt(IntToString(v)) == Some(v)
  {
    if v < 0 {
      ParseIntOfNegatedDigits(NatToString(-(v as int)));
    } else {
      ParseIntOfDigits(NatToString(v));
    }
  }

  /** Different numbers have different decimal texts. */
  lemma IntToStringInjective(a: int, b: int)
    requires IntToString(a) == IntToString(b)
    ensures a == b
  {
    var s := IntToString(a);
    if a < 0 && b < 0 {
      assert s[1..] == NatToString(-a) == NatToString(-b);
    }
  }

  /** The number of digits at the start of `s`. */
  function LeadingDigits(s: string): nat {
    if s == [] || !IsDigit(s[0]) then 0 else 1 + LeadingDigits(s[1..])
  }

  lemma {:induction false} LeadingDigitsOfConcat(x: string, r: string)
    requires AllDigits(x) && r != [] && !IsDigit(r[0])
    ensures LeadingDigits(x + r) == |x|
    decreases |x|
  {
    if x == [] {
      assert x + r == r;
    } else {
      assert (x + r)[1..] == x[1..] + r;
      assert (x + r)[0] == x[0];
      LeadingDigitsOfConcat(x[1..], r);
    }
  }

  /**
   * A text that starts with a run of digits followed by a non-digit splits
   * in only one way into that run and the rest.
   */
  lemma DigitsPrefixUnique(x1: string, r1: string, x2: string, r2: string)
    requires AllDigits(x1) && AllDigits(x2)
    requires r1 != [] && !IsDigit(r1[0]) && r2 != [] && !IsDigit(r2[0])
    requires x1 + r1 == x2 + r2
    ensures x1 == x2 && r1 == r2
  {
    var s := x1 + r1;
    LeadingDigitsOfConcat(x1, r1);
    LeadingDigitsOfConcat(x2, r2);
    assert x1 == s[..|x1|] == x2;
    assert r1 == s[|x1|..] == r2;
  }

  // ---------------------------------------------------------------------------
  // Comparisons that ignore case (ASCII letters only)

  function LowerAscii(c: char): char {
    if 'A' <= c <= 'Z' then (c as int + 32) as char else c
  }

  /** `a.equals(b, ignoreCase = true)`. */
  predicate EqualsIgnoreCase(a: string, b: string) {
    |a| == |b| && forall i :: 0 <= i < |a| ==> LowerAscii(a[i]) == LowerAscii(b[i])
  }

  /** The window of `s` starting at `i` equals `k`, ignoring case. */
  predicate MatchesAtIgnoreCase(s: string, k: string, i: int) {
    0 <= i <= |s| - |k| && EqualsIgnoreCase(s[i..i + |k|], k)
  }

  /** `s.contains(k, ignoreCase = true)`. */
  predicate ContainsIgnoreCase(s: string, k: string) {
    exists i | 0 <= i <= |s| - |k| :: MatchesAtIgnoreCase(s, k, i)
  }

  /** The window of `s` starting at `i` equals `k`. */
  predicate MatchesAt(s: string, k: string, i: int) {
    0 <= i <= |s| - |k| && s[i..i + |k|] == k
  }

  /** `s.contains(k)`. */
  predicate Contains(s: string, k: string) {
    exists i | 0 <= i <= |s| - |k| :: MatchesAt(s, k, i)
  }

  // ---------------------------------------------------------------------------
  // The natural order of strings (`compareTo`) and `sorted()`

  /**
   * `a.compareTo(b) <= 0`: the first differing character decides, and a
   * proper prefix comes first.
   */
  predicate StrLe(a: string, b: string)
    decreases |a|
  {
    if a == [] then true
    else if b == [] then false
    else if a[0] != b[0] then a[0] < b[0]
    else StrLe(a[1..], b[1..])
  }

  lemma {:induction false} StrLeReflexive(a: string)
    ensures StrLe(a, a)
    decreases |a|
  {
    if a != [] {
      StrLeReflexive(a[1..]);
    }
  }

  lemma {:induction false} StrLeTotal(a: string, b: string)
    ensures StrLe(a, b) || StrLe(b, a)
    decreases |a|
  {
    if a != [] && b != [] && a[0] == b[0] {
      StrLeTotal(a[1..], b[1..]);
    }
  }

  lemma {:induction false} StrLeTransitive(a: string, b: string, c: string)
    requires StrLe(a, b) && StrLe(b, c)
    ensures StrLe(a, c)
    decreases |a|
  {
    if a != [] && b != [] && c != [] && a[0] == b[0] && b[0] == c[0] {
      StrLeTransitive(a[1..], b[1..], c[1..]);
    }
  }

  lemma {:induction false} StrLeAntisymmetric(a: string, b: string)
    requires StrLe(a, b) && StrLe(b, a)
    ensures a == b
    decreases |a|
  {
    if a != [] && b != [] {
      StrLeAntisymmetric(a[1..], b[1..]);
      assert a == [a[0]] + a[1..] && b == [b[0]] + b[1..];
    }
  }

  predicate SortedStrings(s: seq<string>) {
    forall i, j :: 0 <= i < j < |s| ==> StrLe(s[i], s[j])
  }

  /** Inserts `x` into a sorted list before the first greater element. */
  function InsertString(x: string, s: seq<string>): (r: seq<string>)
    requires SortedStrings(s)
    ensures SortedStrings(r)
    ensures multiset(r) == multiset(s) + multiset{x}
  {
    if s == [] then [x]
    else if StrLe(x, s[0]) then
      ConsLeast(x, s);
      [x] + s
    else
      StrLeTotal(x, s[0]);
      SortedTail(s);
      var rest := InsertString(x, s[1..]);
      MultisetOfTail(s);
      ConsAfterInsert(x, s, rest);
      [s[0]] + rest
  }

  /** A string at most the head of a sorted list can go in front of it. */
  lemma ConsLeast(x: string, s: seq<string>)
    requires SortedStrings(s) && s != [] && StrLe(x, s[0])
    ensures SortedStrings([x] + s)
  {
    forall j | 0 <= j < |s| ensures StrLe(x, s[j]) {
      if j > 0 { StrLeTransitive(x, s[0], s[j]); }
    }
  }

  /** The head of a sorted list can go in front of the insertion of a larger string into its tail. */
  lemma ConsAfterInsert(x: string, s: seq<string>, rest: seq<string>)
    requires SortedStrings(s) && s != [] && StrLe(s[0], x)
    requires SortedStrings(rest) && multiset(rest) == multiset(s[1..]) + multiset{x}
    ensures SortedStrings([s[0]] + rest)
  {
    forall y | y in multiset(rest) ensures StrLe(s[0], y) {
      if y != x {
        var k :| 0 <= k < |s[1..]| && s[1..][k] == y;
        assert y == s[k + 1];
      }
    }
    var r := [s[0]] + rest;
    forall i, j | 0 <= i < j < |r| ensures StrLe(r[i], r[j]) {
      if i == 0 {
        assert r[j] in multiset(rest) by { assert r[j] == rest[j - 1]; }
      } else {
        assert r[i] == rest[i - 1] && r[j] == rest[j - 1];
      }
    }
  }

  /** `sorted()` of a list of strings: sorted, and a permutation of the input. */
  function SortStrings(s: seq<string>): (r: seq<string>)
    ensures SortedStrings(r)
    ensures multiset(r) == multiset(s)
  {
    if s == [] then []
    else
      assert s == s[..|s| - 1] + [s[|s| - 1]];
      InsertString(s[|s| - 1], SortStrings(s[..|s| - 1]))
  }

  /** The head of a sorted list is at most every element of the list. */
  lemma SortedHeadIsLeast(a: seq<string>, x: string)
    requires SortedStrings(a) && x in a
    ensures StrLe(a[0], x)
  {
    var i :| 0 <= i < |a| && a[i] == x;
    if i == 0 {
      StrLeReflexive(x);
    }
  }

  lemma SortedTail(a: seq<string>)
    requires SortedStrings(a) && a != []
    ensures SortedStrings(a[1..])
  {
    forall i, j | 0 <= i < j < |a| - 1 ensures StrLe(a[1..][i], a[1..][j]) {
      assert a[1..][i] == a[i + 1] && a[1..][j] == a[j + 1];
    }
  }

  /**
   * There is only one sorted arrangement of a multiset of strings, so
   * `SortStrings` agrees with any correct sort, stable or not.
   */
  lemma {:induction false} SortedStringsUnique(a: seq<string>, b: seq<string>)
    requires SortedStrings(a) && SortedStrings(b)
    requires multiset(a) == multiset(b)
    ensures a == b
    decreases |a|
  {
    if a != [] {
      assert |b| == |a| by { assert |multiset(a)| == |multiset(b)|; }
      assert a[0] in multiset(b) && b[0] in multiset(a);
      SortedHeadIsLeast(b, a[0]);
      SortedHeadIsLeast(a, b[0]);
      StrLeAntisymmetric(a[0], b[0]);
      MultisetOfTail(a);
      MultisetOfTail(b);
      SortedTail(a);
      SortedTail(b);
      SortedStringsUnique(a[1..], b[1..]);
    }
  }

  lemma MultisetOfTail(a: seq<string>)
    requires a != []
    ensures multiset(a[1..]) == multiset(a) - multiset{a[0]}
  {
    assert a == [a[0]] + a[1..];
  }
}
