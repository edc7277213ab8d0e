/** The parts of Python's `str` that the organiser relies on: character classes, case folding,
    `strip`, `zfill`, `int`, `str` of a natural number and lexicographic comparison.
    Character classes are the ASCII ones. */
module Text {
  import opened Wrappers

  predicate IsDigit(c: char) { '0' <= c <= '9' }
  predicate IsUpper(c: char) { 'A' <= c <= 'Z' }
  predicate IsLetter(c: char) { IsUpper(c) || 'a' <= c <= 'z' }

  /** `\w` of a regular expression. */
  predicate IsWordChar(c: char) { IsLetter(c) || IsDigit(c) || c == '_' }

  /** The ASCII whitespace this model uses for `str.strip()` and `\s`; the other characters
      Python also counts as whitespace (`\x1c`-`\x1f`, `\x85`, the Unicode spaces) are left out. */
  const Whitespace: set<char> := {' ', '\t', '\n', '\r', '\U{0B}', '\U{0C}'}

  predicate AllDigits(s: string) { forall k :: 0 <= k < |s| ==> IsDigit(s[k]) }

  /** `str.lower()` of one character. */
  function Lower(c: char): char { if IsUpper(c) then (c as int + 32) as char else c }

  function LowerStr(s: string): (r: string)
    ensures |r| == |s| && forall k :: 0 <= k < |s| ==> r[k] == Lower(s[k])
  {
    seq(|s|, k requires 0 <= k < |s| => Lower(s[k]))
  }

  /** `pat` occurs in `text` starting at index `i`. */
  predicate OccursAt(text: string, pat: string, i: nat)
  {
    i + |pat| <= |text| && text[i..i + |pat|] == pat
  }

  /** Python's `pat in text` for strings. */
  predicate Contains(text: string, pat: string)
  {
    exists i: nat :: i <= |text| && OccursAt(text, pat, i)
  }

  /** `pat.lower() in text.lower()`. */
  predicate ContainsIgnoreCase(text: string, pat: string)
  {
    Contains(LowerStr(text), LowerStr(pat))
  }

  /** Number of leading characters of `s` that are in `cs`. */
  function LeadingIn(s: string, cs: set<char>): (n: nat)
    ensures n <= |s|
    ensures forall k :: 0 <= k < n ==> s[k] in cs
    ensures n < |s| ==> s[n] !in cs
  {
    if s == [] || s[0] !in cs then 0 else 1 + LeadingIn(s[1..], cs)
  }

  /** Number of trailing characters of `s` that are in `cs`. */
  function TrailingIn(s: string, cs: set<char>): (n: nat)
    ensures n <= |s|
    ensures forall k :: |s| - n <= k < |s| ==> s[k] in cs
    ensures n < |s| ==> s[|s| - 1 - n] !in cs
  {
    if s == [] || s[|s| - 1] !in cs then 0 else 1 + TrailingIn(s[..|s| - 1], cs)
  }

  /** Number of leading decimal digits of `s`. */
  function DigitRun(s: string): (n: nat)
    ensures n <= |s|
    ensures forall k :: 0 <= k < n ==> IsDigit(s[k])
    ensures n < |s| ==> !IsDigit(s[n])
  {
    if s == [] || !IsDigit(s[0]) then 0 else 1 + DigitRun(s[1..])
  }

  /** `s.strip(cs)`: drops the characters of `cs` at both ends. */
  function StripChars(s: string, cs: set<char>): (r: string)
    ensures LeadingIn(s, cs) + |r| <= |s|
    ensures r == s[LeadingIn(s, cs)..LeadingIn(s, cs) + |r|]
    ensures r != [] ==> r[0] !in cs && r[|r| - 1] !in cs
    ensures (forall k :: 0 <= k < |s| ==> s[k] !in cs) ==> r == s
  {
    var a := LeadingIn(s, cs);
    var rest := s[a..];
    var b := TrailingIn(rest, cs);
    if b == |rest| then
      []
    else
      assert rest[|rest| - 1 - b] == s[a + |rest| - 1 - b];
      rest[..|rest| - b]
  }

  /** `s.rstrip(cs)`. */
  function RStripChars(s: string, cs: set<char>): (r: string)
    ensures |r| <= |s| && r == s[..|r|]
    ensures r != [] ==> r[|r| - 1] !in cs
    ensures forall k :: |r| <= k < |s| ==> s[k] in cs
  {
    s[..|s| - TrailingIn(s, cs)]
  }

  /** `s.strip()`. */
  function Strip(s: string): string { StripChars(s, Whitespace) }

  /** Stripping twice strips nothing more. */
  lemma StripIdempotent(s: string)
    ensures Strip(Strip(s)) == Strip(s)
  {
    var r := Strip(s);
    if r != [] {
      var l := LeadingIn(r, Whitespace);
      var t := TrailingIn(r[l..], Whitespace);
      assert l == 0;
      assert r[l..] == r;
      assert t == 0;
    }
  }

  /** Whitespace around a value does not survive `strip()`. */
  lemma StripSurrounding(pre: string, v: string, post: string)
    requires forall k :: 0 <= k < |pre| ==> pre[k] in Whitespace
    requires forall k :: 0 <= k < |post| ==> post[k] in Whitespace
    requires v != [] ==> v[0] !in Whitespace && v[|v| - 1] !in Whitespace
    ensures Strip(pre + v + post) == v
  {
    if v == [] {
      StripBlank(pre, post);
    } else {
      StripAround(pre, v, post);
    }
  }

  /** A string of whitespace strips to nothing. */
  lemma StripBlank(pre: string, post: string)
    requires forall k :: 0 <= k < |pre| ==> pre[k] in Whitespace
    requires forall k :: 0 <= k < |post| ==> post[k] in Whitespace
    ensures Strip(pre + [] + post) == []
  {
    var s := pre + [] + post;
    forall k | 0 <= k < |s| ensures s[k] in Whitespace {
      if k < |pre| { assert s[k] == pre[k]; } else { assert s[k] == post[k - |pre|]; }
    }
    var a := LeadingIn(s, Whitespace);
    assert a == |s|;
  }

  /** The non-empty case of `StripSurrounding`. */
  lemma StripAround(pre: string, v: string, post: string)
    requires forall k :: 0 <= k < |pre| ==> pre[k] in Whitespace
    requires forall k :: 0 <= k < |post| ==> post[k] in Whitespace
    requires v != [] && v[0] !in Whitespace && v[|v| - 1] !in Whitespace
    ensures Strip(pre + v + post) == v
  {
    var s := pre + v + post;
    assert forall k :: 0 <= k < |pre| ==> s[k] == pre[k];
    var a := LeadingIn(s, Whitespace);
    assert s[|pre|] == v[0];
    assert a == |pre|;
    var rest := s[a..];
    assert rest == v + post;
    TrailingAfter(v, post);
    assert rest[..|rest| - |post|] == v;
  }

  /** A value that does not end in whitespace, followed by whitespace: the trailing run is
      the whitespace. */
  lemma TrailingAfter(v: string, post: string)
    requires forall k :: 0 <= k < |post| ==> post[k] in Whitespace
    requires v != [] && v[|v| - 1] !in Whitespace
    ensures TrailingIn(v + post, Whitespace) == |post|
  {
    var rest := v + post;
    var b := TrailingIn(rest, Whitespace);
    assert rest[|v| - 1] == v[|v| - 1];
    assert forall k :: 0 <= k < |post| ==> rest[|v| + k] == post[k];
  }

  function DigitChar(d: nat): char
    requires d < 10
  {
    ('0' as int + d) as char
  }

  function DigitValue(c: char): nat
    requires IsDigit(c)
  {
    c as int - '0' as int
  }

  /** The value of a string of decimal digits. */
  function ParseDigits(s: string): nat
    requires AllDigits(s)
  {
    if s == [] then 0 else 10 * ParseDigits(s[..|s| - 1]) + DigitValue(s[|s| - 1])
  }

  /** `str(n)` for a natural number: its decimal digits, with no leading zero. */
  function NatToString(n: nat): (r: string)
    ensures |r| >= 1 && AllDigits(r)
    ensures ParseDigits(r) == n
    ensures r[0] == '0' <==> n == 0
  {
    if n < 10 then [DigitChar(n)]
    else
      var r := NatToString(n / 10) + [DigitChar(n % 10)];
      assert r[..|r| - 1] == NatToString(n / 10);
      r
  }

  /** A larger number never has fewer digits. */
  lemma {:induction false} NatToStringMonotonic(a: nat, b: nat)
    requires a <= b
    ensures |NatToString(a)| <= |NatToString(b)|
  {
    if a >= 10 {
      NatToStringMonotonic(a / 10, b / 10);
    }
  }

  function Zeros(k: nat): (r: string)
    ensures |r| == k && forall i :: 0 <= i < k ==> r[i] == '0'
  {
    seq(k, i => '0')
  }

  /** Leading zeros do not change the value of a digit string. */
  lemma {:induction false} LeadingZerosValue(k: nat, s: string)
    requires AllDigits(s)
    ensures AllDigits(Zeros(k) + s) && ParseDigits(Zeros(k) + s) == ParseDigits(s)
  {
    var z := Zeros(k) + s;
    if s == [] {
      if k > 0 {
        assert z[..|z| - 1] == Zeros(k - 1);
        LeadingZerosValue(k - 1, []);
        assert Zeros(k - 1) + [] == Zeros(k - 1);
      } else {
        assert z == [];
      }
    } else {
      assert z[..|z| - 1] == Zeros(k) + s[..|s| - 1];
      LeadingZerosValue(k, s[..|s| - 1]);
    }
  }

  /** `s.zfill(width)` for a string of digits. */
  function ZFill(s: string, width: nat): (r: string)
    requires AllDigits(s)
    ensures |r| == if |s| < width then width else |s|
    ensures AllDigits(r) && ParseDigits(r) == ParseDigits(s)
  {
    if |s| < width then
      LeadingZerosValue(width - |s|, s);
      Zeros(width - |s|) + s
    else s
  }

  /** `str(n).zfill(width)` keeps the value of `n` and is exactly as long as the longer of
      `str(n)` and `width`. */
  lemma PaddedNumber(n: nat, width: nat)
    ensures var p := ZFill(NatToString(n), width);
      AllDigits(p) && ParseDigits(p) == n &&
      |p| == if |NatToString(n)| < width then width else |NatToString(n)|
  {
  }

  /** A string without underscores that `int()` reads: digits, with single underscores
      allowed between two digits. */
  function DigitGroups(s: string): (r: Option<nat>)
    ensures AllDigits(s) && s != [] ==> r == Some(ParseDigits(s))
  {
    if s == [] || !IsDigit(s[0]) || !IsDigit(s[|s| - 1]) then None
    else if !(forall k :: 0 <= k < |s| ==> IsDigit(s[k]) || s[k] == '_') then None
    else if exists k :: 0 <= k < |s| - 1 && s[k] == '_' && s[k + 1] == '_' then None
    else
      var ds := DropUnderscores(s);
      Some(ParseDigits(ds))
  }

  function DropUnderscores(s: string): (r: string)
    requires forall k :: 0 <= k < |s| ==> IsDigit(s[k]) || s[k] == '_'
    ensures AllDigits(r)
    ensures AllDigits(s) ==> r == s
  {
    if s == [] then []
    else
      var r := DropUnderscores(s[..|s| - 1]);
      if s[|s| - 1] == '_' then r
      else
        assert s == s[..|s| - 1] + [s[|s| - 1]];
        r + [s[|s| - 1]]
  }

  /** Python's `int(s)` on a string: optional surrounding whitespace, an optional sign and
      a group of digits; `None` where Python raises `ValueError`. */
  function PyInt(s: string): (r: Option<int>)
  {
    var t := Strip(s);
    if t != [] && (t[0] == '+' || t[0] == '-') then
      match DigitGroups(t[1..])
      case None => None
      case Some(n) => var v: int := n; Some(if t[0] == '-' then -v else v)
    else
      match DigitGroups(t)
      case None => None
      case Some(n) => Some(n)
  }

  /** `int` of a plain run of digits is its value. */
  lemma PyIntDigits(s: string)
    requires AllDigits(s) && s != []
    ensures PyInt(s) == Some(ParseDigits(s))
  {
    assert forall k :: 0 <= k < |s| ==> s[k] !in Whitespace;
    assert Strip(s) == s;
    assert !(s[0] == '+' || s[0] == '-');
  }

  /** Python's `a < b` on strings: code-point lexicographic order. */
  predicate LexLess(a: string, b: string)
  {
    if a == [] then b != []
    else if b == [] then false
    else if a[0] != b[0] then a[0] < b[0]
    else LexLess(a[1..], b[1..])
  }

  lemma {:induction false} LexIrreflexive(a: string)
    ensures !LexLess(a, a)
  {
    if a != [] { LexIrreflexive(a[1..]); }
  }

  lemma {:induction false} LexTransitive(a: string, b: string, c: string)
    requires LexLess(a, b) && LexLess(b, c)
    ensures LexLess(a, c)
  {
    if a != [] && b != [] && c != [] && a[0] == b[0] && b[0] == c[0] {
      LexTransitive(a[1..], b[1..], c[1..]);
    }
  }

  lemma {:induction false} LexTotal(a: string, b: string)
    ensures a == b || LexLess(a, b) || LexLess(b, a)
  {
    if a != [] && b != [] && a[0] == b[0] {
      LexTotal(a[1..], b[1..]);
      if a[1..] == b[1..] {
        assert a == [a[0]] + a[1..] && b == [b[0]] + b[1..];
      }
    }
  }

  lemma {:induction false} LexAsymmetric(a: string, b: string)
    requires LexLess(a, b)
    ensures !LexLess(b, a)
  {
    if a != [] && b != [] && a[0] == b[0] {
      LexAsymmetric(a[1..], b[1..]);
    }
  }
}
