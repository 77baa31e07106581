/** Python string operations the core relies on: `str.lower`, `str.strip`, substring search
    (`in` / `str.contains` with a literal pattern), `str.join`, `str(int)` and the code-point
    ordering of `str` that `np.unique` sorts by. */
module Strings {

  // ---------------------------------------------------------------------------
  // Case folding (ASCII letters only)
  // ---------------------------------------------------------------------------

  predicate IsUpper(c: char) {
    'A' <= c <= 'Z'
  }

  function LowerChar(c: char): char {
    if IsUpper(c) then (c as int + 32) as char else c
  }

  /** `s.lower()` */
  function Lower(s: string): (r: string)
    ensures |r| == |s|
  {
    seq(|s|, i requires 0 <= i < |s| => LowerChar(s[i]))
  }

  /** Lower-casing leaves no upper-case letter behind and a second pass changes nothing. */
  lemma LowerSpec(s: string)
    ensures forall i :: 0 <= i < |s| ==> !IsUpper(Lower(s)[i])
    ensures Lower(Lower(s)) == Lower(s)
    ensures forall i :: 0 <= i < |s| && !IsUpper(s[i]) ==> Lower(s)[i] == s[i]
  {
  }

  // ---------------------------------------------------------------------------
  // Whitespace stripping
  // ---------------------------------------------------------------------------

  /** The ASCII characters for which `str.isspace()` holds. */
  predicate IsSpace(c: char) {
    c == ' ' || 9 <= c as int <= 13 || 28 <= c as int <= 31
  }

  /** The number of whitespace characters `s` starts with. */
  function LeadingSpaces(s: string): (n: nat)
    ensures n <= |s|
    ensures forall i :: 0 <= i < n ==> IsSpace(s[i])
    ensures n == |s| || !IsSpace(s[n])
  {
    if |s| > 0 && IsSpace(s[0]) then
      var m := LeadingSpaces(s[1..]);
      assert forall i :: 1 <= i < m + 1 ==> s[i] == s[1..][i - 1];
      m + 1
    else 0
  }

  /** The length of `s` without the whitespace it ends with. */
  function ContentEnd(s: string): (n: nat)
    ensures n <= |s|
    ensures forall i :: n <= i < |s| ==> IsSpace(s[i])
    ensures n == 0 || !IsSpace(s[n - 1])
  {
    if |s| > 0 && IsSpace(s[|s| - 1]) then
      var m := ContentEnd(s[..|s| - 1]);
      assert forall i :: 0 <= i < |s| - 1 ==> s[i] == s[..|s| - 1][i];
      m
    else |s|
  }

  /** `s.strip()`: `s` without its leading and trailing whitespace. */
  function Strip(s: string): string {
    var a := LeadingSpaces(s);
    if a == |s| then [] else s[a..ContentEnd(s)]
  }

  /** Where `Strip` cuts: after the leading whitespace and before the trailing whitespace; the
      content in between is non-empty unless `s` is all whitespace. */
  lemma StripBounds(s: string)
    ensures LeadingSpaces(s) < |s| ==> LeadingSpaces(s) < ContentEnd(s)
  {
  }

  /** Stripping removes exactly the leading and trailing whitespace: the result is a slice of
      the input, everything cut off is whitespace, and the result neither starts nor ends
      with whitespace. */
  lemma StripSpec(s: string)
    ensures exists a, b :: (0 <= a <= b <= |s| && Strip(s) == s[a..b]
      && (forall i :: 0 <= i < a ==> IsSpace(s[i]))
      && (forall i :: b <= i < |s| ==> IsSpace(s[i])))
    ensures Strip(s) == [] || (!IsSpace(Strip(s)[0]) && !IsSpace(Strip(s)[|Strip(s)| - 1]))
  {
    StripBounds(s);
    var a := LeadingSpaces(s);
    if a == |s| {
      assert Strip(s) == s[a..a];
    } else {
      var b := ContentEnd(s);
      assert Strip(s) == s[a..b];
      assert Strip(s)[0] == s[a] && Strip(s)[|Strip(s)| - 1] == s[b - 1];
    }
  }

  /** A string that neither starts nor ends with whitespace is its own strip. */
  lemma StripTrimmed(s: string)
    requires s == [] || (!IsSpace(s[0]) && !IsSpace(s[|s| - 1]))
    ensures Strip(s) == s
  {
    if s != [] {
      assert LeadingSpaces(s) == 0;
      assert ContentEnd(s) == |s|;
    }
  }

  // ---------------------------------------------------------------------------
  // Substring search
  // ---------------------------------------------------------------------------

  /** `sep` occurs in `s` starting at position `j`. */
  predicate OccursAt(s: string, sep: string, j: nat) {
    j + |sep| <= |s| && s[j..j + |sep|] == sep
  }

  /** `sub in s`: `sub` occurs in `s` at some position. */
  predicate Contains(s: string, sub: string) {
    exists i: nat | i <= |s| :: OccursAt(s, sub, i)
  }

  // ---------------------------------------------------------------------------
  // Joining and splitting
  // ---------------------------------------------------------------------------

  /** `sep.join(parts)` */
  function Join(parts: seq<string>, sep: string): string {
    if |parts| == 0 then ""
    else if |parts| == 1 then parts[0]
    else parts[0] + sep + Join(parts[1..], sep)
  }

  /** The first position at or after `i` where `sep` occurs in `s`, or `|s|` if none does. */
  function FindFrom(s: string, sep: string, i: nat): (r: nat)
    requires i <= |s| && |sep| > 0
    ensures i <= r <= |s|
    ensures r < |s| ==> OccursAt(s, sep, r)
    ensures forall j :: i <= j < r ==> !OccursAt(s, sep, j)
    decreases |s| - i
  {
    if i + |sep| > |s| then |s|
    else if s[i..i + |sep|] == sep then i
    else FindFrom(s, sep, i + 1)
  }

  /** `s.split(sep)` */
  function Split(s: string, sep: string): (r: seq<string>)
    requires |sep| > 0
    ensures |r| >= 1
    decreases |s|
  {
    var i := FindFrom(s, sep, 0);
    if i == |s| then [s] else [s[..i]] + Split(s[i + |sep|..], sep)
  }

  /** The separator put between the fields of a corpus entry. */
  const FieldSeparator: string := " | "

  predicate NoBar(p: string) {
    forall i :: 0 <= i < |p| ==> p[i] != '|'
  }

  /** In `p + " | " + rest` with no `|` in `p`, the first separator starts right after `p`. */
  lemma FirstSeparatorAfter(p: string, rest: string)
    requires NoBar(p)
    ensures FindFrom(p + FieldSeparator + rest, FieldSeparator, 0) == |p|
  {
    var s := p + FieldSeparator + rest;
    assert OccursAt(s, FieldSeparator, |p|) by {
      assert s[|p|..|p| + 3] == FieldSeparator;
    }
    forall j | 0 <= j < |p| ensures !OccursAt(s, FieldSeparator, j) {
      if j + 3 <= |s| {
        if j + 1 < |p| {
          assert s[j..j + 3][1] == p[j + 1];
        } else {
          assert s[j..j + 3][1] == ' ';
        }
      }
    }
  }

  /** A string without `|` holds no separator at all. */
  lemma NoSeparatorIn(p: string)
    requires NoBar(p)
    ensures FindFrom(p, FieldSeparator, 0) == |p|
  {
    forall j | 0 <= j < |p| ensures !OccursAt(p, FieldSeparator, j) {
      if j + 3 <= |p| {
        assert p[j..j + 3][1] == p[j + 1];
      }
    }
  }

  /** Joining fields that contain no `|` with " | " can be undone by splitting on " | ". */
  lemma {:induction false} SplitJoin(parts: seq<string>)
    requires |parts| >= 1
    requires forall k :: 0 <= k < |parts| ==> NoBar(parts[k])
    ensures Split(Join(parts, FieldSeparator), FieldSeparator) == parts
  {
    if |parts| == 1 {
      NoSeparatorIn(parts[0]);
    } else {
      var p := parts[0];
      var rest := Join(parts[1..], FieldSeparator);
      var s := p + FieldSeparator + rest;
      assert Join(parts, FieldSeparator) == s;
      FirstSeparatorAfter(p, rest);
      assert s[..|p|] == p;
      assert s[|p| + 3..] == rest;
      assert Split(s, FieldSeparator) == [p] + Split(rest, FieldSeparator);
      SplitJoin(parts[1..]);
      assert parts == [p] + parts[1..];
    }
  }

  // ---------------------------------------------------------------------------
  // str(int)
  // ---------------------------------------------------------------------------

  function DigitChar(d: nat): char
    requires d < 10
  {
    ('0' as int + d) as char
  }

  function NatToDecimal(n: nat): string
    decreases n
  {
    if n < 10 then [DigitChar(n)] else NatToDecimal(n / 10) + [DigitChar(n % 10)]
  }

  /** `str(i)` for a Python int. */
  function IntToDecimal(i: int): string {
    if i < 0 then "-" + NatToDecimal(-i) else NatToDecimal(i)
  }

  // ---------------------------------------------------------------------------
  // Code-point ordering of strings
  // ---------------------------------------------------------------------------

  /** `a < b` for Python strings: lexicographic by code point, a proper prefix first. */
  predicate StrLess(a: string, b: string)
    decreases |a|
  {
    if |a| == 0 then |b| > 0
    else if |b| == 0 then false
    else if a[0] != b[0] then a[0] < b[0]
    else StrLess(a[1..], b[1..])
  }

  lemma {:induction false} StrLessIrreflexive(a: string)
    ensures !StrLess(a, a)
    decreases |a|
  {
    if |a| > 0 {
      StrLessIrreflexive(a[1..]);
    }
  }

  lemma {:induction false} StrLessTransitive(a: string, b: string, c: string)
    requires StrLess(a, b) && StrLess(b, c)
    ensures StrLess(a, c)
    decreases |a|
  {
    if |a| > 0 && |b| > 0 && |c| > 0 && a[0] == b[0] && b[0] == c[0] {
      StrLessTransitive(a[1..], b[1..], c[1..]);
    }
  }

  lemma {:induction false} StrLessTotal(a: string, b: string)
    ensures a == b || StrLess(a, b) || StrLess(b, a)
    decreases |a|
  {
    if |a| > 0 && |b| > 0 && a[0] == b[0] {
      StrLessTotal(a[1..], b[1..]);
      if a[1..] == b[1..] {
        assert a == [a[0]] + a[1..] && b == [b[0]] + b[1..];
      }
    }
  }
}
