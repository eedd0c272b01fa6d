/** String operations the scripts use: prefix and suffix tests, substring
    search, the two flavours of replace (JavaScript's first-occurrence
    `String.prototype.replace` with a string pattern, Python's all-occurrence
    `str.replace`), code-point lexicographic order, ASCII lower-casing and
    decimal rendering of integers. */
module Strings {

  predicate StartsWith(s: string, p: string) {
    |p| <= |s| && s[..|p|] == p
  }

  predicate EndsWith(s: string, p: string) {
    |p| <= |s| && s[|s| - |p|..] == p
  }

  /** `p` occurs in `s` starting at index `i`. */
  predicate OccursAt(s: string, p: string, i: nat) {
    i + |p| <= |s| && s[i..i + |p|] == p
  }

  /** The first index at or after `k` where `p` occurs in `s`, or `|s|` if none. */
  function FindFrom(s: string, p: string, k: nat): (r: nat)
    requires |p| > 0 && k <= |s|
    ensures k <= r <= |s|
    ensures r < |s| ==> OccursAt(s, p, r)
    ensures forall j :: k <= j < r ==> !OccursAt(s, p, j)
    ensures r == |s| ==> forall j :: k <= j <= |s| ==> !OccursAt(s, p, j)
    decreases |s| - k
  {
    if k + |p| > |s| then |s|
    else if OccursAt(s, p, k) then k
    else FindFrom(s, p, k + 1)
  }

  /** `s.indexOf(p)`, with "not found" as `|s|`. */
  function Find(s: string, p: string): (r: nat)
    requires |p| > 0
    ensures r <= |s|
    ensures r < |s| ==> OccursAt(s, p, r)
    ensures forall j :: 0 <= j < r ==> !OccursAt(s, p, j)
    ensures r == |s| ==> forall j :: 0 <= j <= |s| ==> !OccursAt(s, p, j)
  {
    FindFrom(s, p, 0)
  }

  /** `s.includes(p)` / `p in s`. */
  predicate Contains(s: string, p: string)
    requires |p| > 0
  {
    Find(s, p) < |s|
  }

  /** Python's `s.replace(p, r)`: every non-overlapping occurrence, left to right. */
  function ReplaceAll(s: string, p: string, r: string): string
    requires |p| > 0
    decreases |s|
  {
    var i := Find(s, p);
    if i == |s| then s
    else s[..i] + r + ReplaceAll(s[i + |p|..], p, r)
  }

  /** JavaScript's `s.replace(p, r)` with a string pattern: the first occurrence only. */
  function ReplaceFirst(s: string, p: string, r: string): string
    requires |p| > 0
  {
    var i := Find(s, p);
    if i == |s| then s
    else s[..i] + r + s[i + |p|..]
  }

  /** The first occurrence of `p` in `a + b` lies in `b` when none starts inside `a`. */
  lemma FindAfterPrefix(a: string, b: string, p: string)
    requires |p| > 0
    requires forall j :: 0 <= j < |a| ==> !OccursAt(a + b, p, j)
    ensures Find(a + b, p) == |a| + Find(b, p)
  {
    var s := a + b;
    var fb := Find(b, p);
    forall j | |a| <= j < |a| + fb ensures !OccursAt(s, p, j) {
      if OccursAt(s, p, j) {
        assert s[j..j + |p|] == b[j - |a|..j - |a| + |p|];
        assert OccursAt(b, p, j - |a|);
      }
    }
    if fb < |b| {
      assert s[|a| + fb..|a| + fb + |p|] == b[fb..fb + |p|];
      assert OccursAt(s, p, |a| + fb);
    }
  }

  /** A string without occurrences of `p` is left as it is by both replaces. */
  lemma ReplaceWithoutOccurrence(s: string, p: string, r: string)
    requires |p| > 0 && !Contains(s, p)
    ensures ReplaceAll(s, p, r) == s && ReplaceFirst(s, p, r) == s
  {
  }

  // ----- lexicographic order by code point (Python `<` on str) -----

  predicate LexLess(a: string, b: string)
    decreases |a|
  {
    if a == [] then b != []
    else if b == [] then false
    else if a[0] != b[0] then a[0] < b[0]
    else LexLess(a[1..], b[1..])
  }

  lemma {:induction false} LexLessIrreflexive(a: string)
    ensures !LexLess(a, a)
    decreases |a|
  {
    if a != [] {
      LexLessIrreflexive(a[1..]);
    }
  }

  lemma {:induction false} LexLessAsymmetric(a: string, b: string)
    ensures LexLess(a, b) ==> !LexLess(b, a)
    decreases |a|
  {
    if a != [] && b != [] && a[0] == b[0] {
      LexLessAsymmetric(a[1..], b[1..]);
    }
  }

  lemma {:induction false} LexLessTransitive(a: string, b: string, c: string)
    requires LexLess(a, b) && LexLess(b, c)
    ensures LexLess(a, c)
    decreases |a|
  {
    if a != [] && b != [] && c != [] && a[0] == b[0] && b[0] == c[0] {
      LexLessTransitive(a[1..], b[1..], c[1..]);
    }
  }

  /** Two different strings are always ordered one way or the other. */
  lemma {:induction false} LexLessTotal(a: string, b: string)
    ensures a == b || LexLess(a, b) || LexLess(b, a)
    decreases |a|
  {
    if a != [] && b != [] && a[0] == b[0] {
      LexLessTotal(a[1..], b[1..]);
      if a[1..] == b[1..] {
        assert a == [a[0]] + a[1..] && b == [b[0]] + b[1..];
      }
    }
  }

  /** JavaScript's `a.localeCompare(b)`, taken as plain code-point order. */
  function LocaleCompare(a: string, b: string): (r: int)
    ensures r < 0 <==> LexLess(a, b)
    ensures r == 0 <==> a == b
    ensures r > 0 <==> LexLess(b, a)
  {
    LexLessIrreflexive(a);
    LexLessAsymmetric(a, b);
    LexLessTotal(a, b);
    if LexLess(a, b) then -1 else if a == b then 0 else 1
  }

  // ----- characters -----

  /** `s.toLowerCase()` on the ASCII letters. */
  function ToLowerAscii(s: string): (r: string)
    ensures |r| == |s|
    ensures forall i :: 0 <= i < |s| ==>
      r[i] == (if 'A' <= s[i] <= 'Z' then (s[i] as int + 32) as char else s[i])
  {
    seq(|s|, i requires 0 <= i < |s| =>
      if 'A' <= s[i] <= 'Z' then (s[i] as int + 32) as char else s[i])
  }

  function DigitChar(d: nat): (c: char)
    requires d < 10
    ensures '0' <= c <= '9'
  {
    ('0' as int + d) as char
  }

  /** The decimal rendering of a natural number, without leading zeros. */
  function NatToString(n: nat): (r: string)
    ensures |r| > 0
    ensures forall i :: 0 <= i < |r| ==> '0' <= r[i] <= '9'
    ensures r[0] == '0' ==> n == 0
    decreases n
  {
    if n < 10 then [DigitChar(n)]
    else NatToString(n / 10) + [DigitChar(n % 10)]
  }

  /** Python's `str(n)` for an integer. */
  function IntToString(n: int): (r: string)
    ensures |r| > 0
    ensures r[0] == '-' <==> n < 0
  {
    if n < 0 then "-" + NatToString(-n) else NatToString(n)
  }
}
