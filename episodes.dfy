/** The episode-number patterns of the organiser: `(Ep\.?|Episode|E|Part)(\s*)(\d+)`, searched
    case-insensitively and rewritten with `re.sub` by `pad_episode_numbers`, and
    `(Ep\.?|Episode)\s*(\d+)`, the marker test of `find_files_without_episode_numbers`.
    A match is described by positions in the name, so that every fact about it is a fact
    about single characters. */
module Episodes {
  import opened Wrappers
  import opened Text

  /** The alternatives of `(Ep\.?|Episode|E|Part)` in the order the regex engine tries them:
      the optional dot is tried before its absence. */
  const PadAlternatives: seq<string> := ["Ep.", "Ep", "Episode", "E", "Part"]

  /** The alternatives of `(Ep\.?|Episode)`. */
  const MarkerAlternatives: seq<string> := ["Ep.", "Ep", "Episode"]

  predicate NoDigits(s: string) { forall k :: 0 <= k < |s| ==> !IsDigit(s[k]) }

  /** Alternatives that are literal words: none empty, none with a digit. */
  predicate WordAlternatives(alts: seq<string>)
  {
    forall i :: 0 <= i < |alts| ==> alts[i] != [] && NoDigits(alts[i])
  }

  lemma DefaultAlternatives()
    ensures WordAlternatives(PadAlternatives) && WordAlternatives(MarkerAlternatives)
  {
  }

  /** Case-folding never turns a non-digit into a digit, nor a digit into anything else. */
  lemma LowerKeepsDigits(c: char)
    ensures IsDigit(Lower(c)) <==> IsDigit(c)
    ensures IsDigit(c) ==> Lower(c) == c
  {
  }

  /** `\s*` from index `i`: the first index at or after `i` that is not whitespace. */
  function SkipSpace(t: string, i: nat): (e: nat)
    requires i <= |t|
    ensures i <= e <= |t|
    ensures forall k :: i <= k < e ==> t[k] in Whitespace
    ensures e < |t| ==> t[e] !in Whitespace
    decreases |t| - i
  {
    if i == |t| || t[i] !in Whitespace then i else SkipSpace(t, i + 1)
  }

  /** `\d*` from index `i`: the first index at or after `i` that is not a digit. */
  function SkipDigits(t: string, i: nat): (e: nat)
    requires i <= |t|
    ensures i <= e <= |t|
    ensures forall k :: i <= k < e ==> IsDigit(t[k])
    ensures e < |t| ==> !IsDigit(t[e])
    decreases |t| - i
  {
    if i == |t| || !IsDigit(t[i]) then i else SkipDigits(t, i + 1)
  }

  /** The word `a` is spelled at index `i` of `t`, ignoring case. */
  predicate StartsAt(t: string, i: nat, a: string)
  {
    i + |a| <= |t| && forall k :: 0 <= k < |a| ==> Lower(t[i + k]) == Lower(a[k])
  }

  /** The alternative `a` leads a match at index `i`: after it and the whitespace that
      follows, there is at least one digit. */
  predicate FitsAt(t: string, i: nat, a: string)
  {
    StartsAt(t, i, a) && SkipDigits(t, SkipSpace(t, i + |a|)) > SkipSpace(t, i + |a|)
  }

  /** One match of `(alt)(\s*)(\d+)` in a name: where it begins, where the word and the
      whitespace end, and where the digits end. */
  datatype Marker = Marker(at: nat, wordEnd: nat, spaceEnd: nat, end: nat)

  /** `m` is laid out in `t` as a match is: a non-empty stretch without digits, whitespace,
      and a run of digits that `t` does not continue. */
  predicate IsMarker(t: string, m: Marker)
  {
    m.at < m.wordEnd <= m.spaceEnd < m.end <= |t| &&
    (forall k :: m.at <= k < m.wordEnd ==> !IsDigit(t[k])) &&
    (forall k :: m.wordEnd <= k < m.spaceEnd ==> t[k] in Whitespace) &&
    (forall k :: m.spaceEnd <= k < m.end ==> IsDigit(t[k])) &&
    (m.end < |t| ==> !IsDigit(t[m.end]))
  }

  /** The match that the fitting alternative `a` makes at `i`: as much whitespace and as
      many digits as follow it. */
  function MatchWith(t: string, i: nat, a: string): (m: Marker)
    requires a != [] && NoDigits(a) && FitsAt(t, i, a)
    ensures IsMarker(t, m) && m.at == i && m.wordEnd == i + |a|
  {
    assert forall k :: i <= k < i + |a| ==> !IsDigit(t[k]) by {
      forall k | i <= k < i + |a| ensures !IsDigit(t[k]) {
        LowerKeepsDigits(t[k]);
        LowerKeepsDigits(a[k - i]);
      }
    }
    var s := SkipSpace(t, i + |a|);
    Marker(i, i + |a|, s, SkipDigits(t, s))
  }

  /** The match of `(alt)(\s*)(\d+)` that begins at index `i`, if any: the first alternative
      that fits decides. */
  function MatchAt(alts: seq<string>, t: string, i: nat): (r: Option<Marker>)
    requires WordAlternatives(alts)
    ensures r.Some? ==> IsMarker(t, r.value) && r.value.at == i
  {
    if alts == [] then None
    else if FitsAt(t, i, alts[0]) then Some(MatchWith(t, i, alts[0]))
    else
      assert forall n :: 1 <= n < |alts| ==> alts[n] == alts[1..][n - 1];
      MatchAt(alts[1..], t, i)
  }

  /** The alternation semantics of `MatchAt`: there is a match exactly when some alternative
      fits, and then it is the one the first fitting alternative makes. */
  lemma MatchAtFirstFit(alts: seq<string>, t: string, i: nat)
    requires WordAlternatives(alts)
    ensures MatchAt(alts, t, i).None? <==> forall n :: 0 <= n < |alts| ==> !FitsAt(t, i, alts[n])
    ensures MatchAt(alts, t, i).Some? ==> exists n :: (0 <= n < |alts| && FitsAt(t, i, alts[n]) &&
      (forall k :: 0 <= k < n ==> !FitsAt(t, i, alts[k])) && MatchAt(alts, t, i).value == MatchWith(t, i, alts[n]))
  {
    MatchAtNone(alts, t, i);
    if MatchAt(alts, t, i).Some? {
      var n := MatchAtFit(alts, t, i);
    }
  }

  /** No alternative fits exactly when there is no match. */
  lemma {:induction false} MatchAtNone(alts: seq<string>, t: string, i: nat)
    requires WordAlternatives(alts)
    ensures MatchAt(alts, t, i).None? <==> forall n :: 0 <= n < |alts| ==> !FitsAt(t, i, alts[n])
  {
    if alts != [] && !FitsAt(t, i, alts[0]) {
      var rest := alts[1..];
      assert forall n :: 1 <= n < |alts| ==> alts[n] == rest[n - 1];
      assert MatchAt(alts, t, i) == MatchAt(rest, t, i);
      MatchAtNone(rest, t, i);
    }
  }

  /** The alternative a match comes from: the first one that fits. */
  lemma {:induction false} MatchAtFit(alts: seq<string>, t: string, i: nat) returns (n: nat)
    requires WordAlternatives(alts) && MatchAt(alts, t, i).Some?
    ensures n < |alts| && FitsAt(t, i, alts[n]) && forall k :: 0 <= k < n ==> !FitsAt(t, i, alts[k])
    ensures MatchAt(alts, t, i).value == MatchWith(t, i, alts[n])
  {
    if FitsAt(t, i, alts[0]) {
      n := 0;
    } else {
      var rest := alts[1..];
      assert forall q :: 1 <= q < |alts| ==> alts[q] == rest[q - 1];
      assert MatchAt(alts, t, i) == MatchAt(rest, t, i);
      var r := MatchAtFit(rest, t, i);
      n := r + 1;
      assert alts[n] == rest[r];
      forall k | 0 <= k < n ensures !FitsAt(t, i, alts[k]) {
        if k > 0 {
          assert alts[k] == rest[k - 1];
        }
      }
    }
  }

  /** `pattern.search(t, from)`: the leftmost match that begins at or after `from`. */
  function SearchFrom(alts: seq<string>, t: string, from: nat): (r: Option<Marker>)
    requires WordAlternatives(alts) && from <= |t|
    ensures r.Some? ==> from <= r.value.at && MatchAt(alts, t, r.value.at) == r
    decreases |t| - from
  {
    match MatchAt(alts, t, from)
    case Some(m) => Some(m)
    case None => if from == |t| then None else SearchFrom(alts, t, from + 1)
  }

  /** The search skips only places where nothing matches: before the match it finds, or
      everywhere when it finds none. */
  lemma {:induction false} SearchSkips(alts: seq<string>, t: string, from: nat)
    requires WordAlternatives(alts) && from <= |t|
    ensures SearchFrom(alts, t, from).Some? ==>
      forall j :: from <= j < SearchFrom(alts, t, from).value.at ==> MatchAt(alts, t, j).None?
    ensures SearchFrom(alts, t, from).None? ==> forall j :: from <= j <= |t| ==> MatchAt(alts, t, j).None?
    decreases |t| - from
  {
    if MatchAt(alts, t, from).None? && from < |t| {
      SearchSkips(alts, t, from + 1);
    }
  }

  /** The search finds the first index with a match. */
  lemma {:induction false} SearchFindsFirst(alts: seq<string>, t: string, from: nat, i: nat)
    requires WordAlternatives(alts) && from <= i <= |t| && MatchAt(alts, t, i).Some?
    requires forall j :: from <= j < i ==> MatchAt(alts, t, j).None?
    ensures SearchFrom(alts, t, from) == MatchAt(alts, t, i)
    decreases i - from
  {
    if from < i {
      SearchFindsFirst(alts, t, from + 1, i);
    }
  }

  /** `SearchFindsFirst` with the match it finds. */
  lemma SearchFindsAt(alts: seq<string>, t: string, from: nat, i: nat, r: Marker)
    requires WordAlternatives(alts) && from <= i <= |t| && MatchAt(alts, t, i) == Some(r)
    requires forall j :: from <= j < i ==> MatchAt(alts, t, j).None?
    ensures SearchFrom(alts, t, from) == Some(r)
  {
    SearchFindsFirst(alts, t, from, i);
  }

  /** `episode_pattern.search(name)` of `find_files_without_episode_numbers` finds a match. */
  predicate HasEpisodeMarker(name: string)
  {
    DefaultAlternatives();
    SearchFrom(MarkerAlternatives, name, 0).Some?
  }

  /** The value of the digits of a match: `int(match.group(3))`. */
  function Value(t: string, m: Marker): nat
    requires IsMarker(t, m)
  {
    ParseDigits(t[m.spaceEnd..m.end])
  }

  /** `int(pattern.search(name).group(3))`, when the name has a match. */
  function FirstEpisodeNumber(name: string): (r: Option<nat>)
    ensures r.Some? <==> exists j :: 0 <= j <= |name| && MatchAt(PadAlternatives, name, j).Some?
  {
    DefaultAlternatives();
    match SearchFrom(PadAlternatives, name, 0)
    case None => SearchSkips(PadAlternatives, name, 0); None
    case Some(m) =>
      assert MatchAt(PadAlternatives, name, m.at).Some?;
      Some(Value(name, m))
  }

  /** `pattern.search(name).group(3)`: the digits of the first match, when there is one. */
  function FirstDigits(name: string): (r: Option<string>)
    ensures r.Some? <==> FirstEpisodeNumber(name).Some?
    ensures r.Some? ==> r.value != [] && AllDigits(r.value) && FirstEpisodeNumber(name) == Some(ParseDigits(r.value))
  {
    DefaultAlternatives();
    match SearchFrom(PadAlternatives, name, 0)
    case None => None
    case Some(m) =>
      assert forall k :: 0 <= k < m.end - m.spaceEnd ==> name[m.spaceEnd..m.end][k] == name[m.spaceEnd + k];
      Some(name[m.spaceEnd..m.end])
  }

  /** `str(n).zfill(width)`: the digits `pad_episode_number` writes. */
  function PaddedDigits(n: nat, width: nat): (r: string)
    ensures r != [] && AllDigits(r) && ParseDigits(r) == n
    ensures |r| == if |NatToString(n)| < width then width else |NatToString(n)|
  {
    ZFill(NatToString(n), width)
  }

  /** `pattern.sub(pad_episode_number, t)` from index `from` on: every match, left to right
      and without overlap, keeps its word and whitespace and has its digits replaced by
      the padded value; the text between matches is kept. */
  function PadFrom(alts: seq<string>, t: string, from: nat, width: nat): (r: string)
    requires WordAlternatives(alts) && from <= |t|
    decreases |t| - from
  {
    match SearchFrom(alts, t, from)
    case None => t[from..]
    case Some(m) => t[from..m.spaceEnd] + PaddedDigits(Value(t, m), width) + PadFrom(alts, t, m.end, width)
  }

  function PadAll(t: string, width: nat): string
  {
    PadFrom(PadAlternatives, t, 0, width)
  }

  /** Padding keeps the first character of what it pads. */
  lemma PadFromKeepsHead(alts: seq<string>, t: string, from: nat, width: nat)
    requires WordAlternatives(alts) && from < |t|
    ensures PadFrom(alts, t, from, width) != [] && PadFrom(alts, t, from, width)[0] == t[from]
  {
    match SearchFrom(alts, t, from)
    case None =>
    case Some(m) =>
      assert t[from..m.spaceEnd][0] == t[from];
  }

  /** `x` from `i` and `y` from `j` agree on `n` characters. */
  predicate Agree(x: string, i: nat, y: string, j: nat, n: nat)
  {
    i + n <= |x| && j + n <= |y| && forall q :: i <= q < i + n ==> x[q] == y[q - i + j]
  }

  /** Agreement from a later point on. */
  lemma AgreeLater(x: string, i: nat, y: string, j: nat, n: nat, d: nat)
    requires Agree(x, i, y, j, n) && d <= n
    ensures Agree(x, i + d, y, j + d, n - d)
  {
    forall q | i + d <= q < i + d + (n - d) ensures x[q] == y[q - (i + d) + (j + d)] {
      assert q - (i + d) + (j + d) == q - i + j;
    }
  }

  /** Where agreement ends: either both texts end there, or both have a digit there that a
      non-digit (or the start of the agreement) precedes. */
  predicate EndsAlike(x: string, i: nat, y: string, j: nat, n: nat)
    requires Agree(x, i, y, j, n)
  {
    (i + n == |x| && j + n == |y|) ||
    (i + n < |x| && j + n < |y| && IsDigit(x[i + n]) && IsDigit(y[j + n]) &&
     (n == 0 || !IsDigit(x[i + n - 1])))
  }

  /** Agreeing texts skip the same whitespace. */
  lemma {:induction false} SkipSpaceAlike(x: string, i: nat, y: string, j: nat, n: nat)
    requires Agree(x, i, y, j, n) && EndsAlike(x, i, y, j, n)
    ensures SkipSpace(x, i) - i == SkipSpace(y, j) - j <= n
    decreases n
  {
    if n > 0 && x[i] in Whitespace {
      SkipSpaceAlike(x, i + 1, y, j + 1, n - 1);
    }
  }

  /** Agreeing texts have the same digit run, which ends before a digit run that ends the
      agreement. */
  lemma {:induction false} SkipDigitsAlike(x: string, i: nat, y: string, j: nat, n: nat)
    requires Agree(x, i, y, j, n) && EndsAlike(x, i, y, j, n) && n > 0
    ensures SkipDigits(x, i) - i == SkipDigits(y, j) - j
    ensures i + n < |x| ==> SkipDigits(x, i) < i + n
    decreases n
  {
    if IsDigit(x[i]) && n > 1 {
      SkipDigitsAlike(x, i + 1, y, j + 1, n - 1);
    }
  }

  /** A word longer than the agreement cannot be spelled at either start: where the
      agreement ends, the texts end or have a digit, and a word has none. */
  lemma LongWordStartsNeither(a: string, x: string, i: nat, y: string, j: nat, n: nat)
    requires NoDigits(a) && |a| > n && Agree(x, i, y, j, n) && EndsAlike(x, i, y, j, n)
    ensures !StartsAt(x, i, a) && !StartsAt(y, j, a)
  {
    if i + n < |x| {
      LowerKeepsDigits(x[i + n]);
      LowerKeepsDigits(y[j + n]);
      LowerKeepsDigits(a[n]);
    }
  }

  /** Whitespace after a word at the same offset of two agreeing texts: the same amount. */
  lemma SpaceAfterWordAlike(x: string, i: nat, y: string, j: nat, n: nat, w: nat)
    requires w <= n && Agree(x, i, y, j, n) && EndsAlike(x, i, y, j, n)
    ensures SkipSpace(x, i + w) - i == SkipSpace(y, j + w) - j <= n
  {
    assert Agree(x, i + w, y, j + w, n - w);
    SkipSpaceAlike(x, i + w, y, j + w, n - w);
  }

  /** Digits at the same offset `d` of two agreeing texts: there are digits in both or in
      neither, and the same run of them when it ends inside the agreement. */
  lemma DigitsAtAlike(x: string, i: nat, y: string, j: nat, n: nat, d: nat)
    requires d <= n && Agree(x, i, y, j, n) && EndsAlike(x, i, y, j, n)
    ensures SkipDigits(x, i + d) > i + d <==> SkipDigits(y, j + d) > j + d
    ensures d < n ==> SkipDigits(x, i + d) - i == SkipDigits(y, j + d) - j
  {
    if d < n {
      assert Agree(x, i + d, y, j + d, n - d);
      SkipDigitsAlike(x, i + d, y, j + d, n - d);
    } else if i + n < |x| {
      assert IsDigit(x[i + d]) && IsDigit(y[j + d]);
    }
  }

  /** Whether the alternative `a` fits depends only on the text up to the end of its
      digits: at the starts of two agreeing texts, `a` fits alike. */
  lemma FitsAlike(a: string, x: string, i: nat, y: string, j: nat, n: nat)
    requires a != [] && NoDigits(a) && Agree(x, i, y, j, n) && EndsAlike(x, i, y, j, n)
    ensures FitsAt(x, i, a) <==> FitsAt(y, j, a)
    ensures FitsAt(x, i, a) ==>
      var m1, m2 := MatchWith(x, i, a), MatchWith(y, j, a);
      m1.spaceEnd - i == m2.spaceEnd - j <= n &&
      (m1.spaceEnd - i < n ==> m1.end - i == m2.end - j)
  {
    if |a| > n {
      LongWordStartsNeither(a, x, i, y, j, n);
    } else {
      assert StartsAt(x, i, a) <==> StartsAt(y, j, a);
      SpaceAfterWordAlike(x, i, y, j, n, |a|);
      DigitsAtAlike(x, i, y, j, n, SkipSpace(x, i + |a|) - i);
    }
  }

  /** `FitsAlike` for a whole list of alternatives: the matches at the starts of two
      agreeing texts exist alike, with the same layout up to the digit run that ends the
      agreement. */
  lemma {:induction false} MatchAtAlike(alts: seq<string>, x: string, i: nat, y: string, j: nat, n: nat)
    requires WordAlternatives(alts) && Agree(x, i, y, j, n) && EndsAlike(x, i, y, j, n)
    ensures MatchAt(alts, x, i).None? <==> MatchAt(alts, y, j).None?
    ensures MatchAt(alts, x, i).Some? ==>
      var m1, m2 := MatchAt(alts, x, i).value, MatchAt(alts, y, j).value;
      m1.wordEnd - i == m2.wordEnd - j && m1.spaceEnd - i == m2.spaceEnd - j <= n &&
      (m1.spaceEnd - i < n ==> m1.end - i == m2.end - j)
  {
    if alts != [] {
      FitsAlike(alts[0], x, i, y, j, n);
      if !FitsAt(x, i, alts[0]) {
        MatchAtAlike(alts[1..], x, i, y, j, n);
      }
    }
  }

  /** `MatchAtAlike` for a match of `x`: the match of `y` and its offsets. */
  lemma MatchAtAlikeSome(alts: seq<string>, x: string, i: nat, y: string, j: nat, n: nat, m1: Marker) returns (m2: Marker)
    requires WordAlternatives(alts) && Agree(x, i, y, j, n) && EndsAlike(x, i, y, j, n)
    requires MatchAt(alts, x, i) == Some(m1)
    ensures MatchAt(alts, y, j) == Some(m2) && IsMarker(y, m2)
    ensures m2.at == j && m2.wordEnd == j + (m1.wordEnd - i) && m2.spaceEnd == j + (m1.spaceEnd - i)
  {
    MatchAtAlike(alts, x, i, y, j, n);
    m2 := MatchAt(alts, y, j).value;
  }

  /** A text whose tail from `f` is a padded tail of `t` from `from` has no match there when
      `t` has none. */
  lemma PadFromNoMatch(alts: seq<string>, t: string, from: nat, u: string, f: nat, width: nat)
    requires WordAlternatives(alts) && from <= |t| && f <= |u| && u[f..] == PadFrom(alts, t, from, width)
    requires SearchFrom(alts, t, from).None?
    ensures SearchFrom(alts, u, f).None?
  {
    assert u[f..] == t[from..];
    SearchSkips(alts, t, from);
    forall j | f <= j <= |u| ensures MatchAt(alts, u, j).None? {
      var n := |u| - j;
      assert forall q :: from + (j - f) <= q < from + (j - f) + n ==> t[q] == t[from..][q - from] == u[f..][q - from] == u[q - from + f];
      assert Agree(t, from + (j - f), u, j, n);
      MatchAtAlike(alts, t, from + (j - f), u, j, n);
    }
  }

  /** Where a text agrees with `t` up to the digits of a match of `t` and both continue with
      a digit there, no match begins earlier in the text than one begins in `t`. */
  lemma NoMatchBeforeDigits(alts: seq<string>, t: string, i: nat, u: string, f: nat, se: nat, j: nat)
    requires WordAlternatives(alts) && i < se && Agree(t, i, u, f, se - i)
    requires se < |t| && f + (se - i) < |u| && IsDigit(t[se]) && IsDigit(u[f + (se - i)]) && !IsDigit(t[se - 1])
    requires f <= j < f + (se - i) && MatchAt(alts, t, i + (j - f)).None?
    ensures MatchAt(alts, u, j).None?
  {
    var n := se - (i + (j - f));
    assert Agree(t, i + (j - f), u, j, n);
    MatchAtAlike(alts, t, i + (j - f), u, j, n);
  }

  /** The pieces of a tail `u[f..]` that is the concatenation `p + z + rest`. */
  lemma TailParts(u: string, f: nat, p: string, z: string, rest: string)
    requires f <= |u| && u[f..] == p + z + rest
    ensures f + |p| + |z| + |rest| == |u|
    ensures forall k :: f <= k < f + |p| ==> u[k] == p[k - f]
    ensures forall k :: f + |p| <= k < f + |p| + |z| ==> u[k] == z[k - f - |p|]
    ensures u[f + |p|..f + |p| + |z|] == z && u[f + |p| + |z|..] == rest
    ensures rest != [] ==> u[f + |p| + |z|] == rest[0]
  {
    assert forall k :: f <= k < |u| ==> u[k] == u[f..][k - f];
  }

  /** The layout of a padded tail: what precedes the digits of the first match is kept, the
      padded digits follow, and then the padded rest, which begins with a non-digit. */
  lemma PaddedLayout(alts: seq<string>, t: string, from: nat, u: string, f: nat, width: nat, m: Marker, se: nat, e: nat)
    requires WordAlternatives(alts) && from <= |t| && f <= |u| && u[f..] == PadFrom(alts, t, from, width)
    requires SearchFrom(alts, t, from) == Some(m)
    requires se == f + (m.spaceEnd - from) && e == se + |PaddedDigits(Value(t, m), width)|
    ensures e <= |u| && Agree(t, from, u, f, m.spaceEnd - from)
    ensures u[se..e] == PaddedDigits(Value(t, m), width) && forall k :: se <= k < e ==> IsDigit(u[k])
    ensures u[e..] == PadFrom(alts, t, m.end, width) && (e == |u| || !IsDigit(u[e]))
  {
    var z := PaddedDigits(Value(t, m), width);
    var tail := PadFrom(alts, t, m.end, width);
    var p := t[from..m.spaceEnd];
    PadFromUnfold(alts, t, from, width);
    TailParts(u, f, p, z, tail);
    if tail != [] {
      PadFromKeepsHead(alts, t, m.end, width);
    }
  }

  /** A text that agrees with `t` from `from` up to the digits of the first match of `t`,
      and continues there with a run of digits, has its first match at the same place,
      with the same word and whitespace, and with those digits. */
  lemma FirstMatchKept(alts: seq<string>, t: string, from: nat, u: string, f: nat, m: Marker, se: nat, e: nat)
    requires WordAlternatives(alts) && from <= |t| && SearchFrom(alts, t, from) == Some(m)
    requires se == f + (m.spaceEnd - from)
    requires Agree(t, from, u, f, m.spaceEnd - from) && se < e <= |u|
    requires (forall k :: se <= k < e ==> IsDigit(u[k])) && (e == |u| || !IsDigit(u[e]))
    ensures SearchFrom(alts, u, f) == Some(Marker(f + (m.at - from), f + (m.wordEnd - from), se, e))
  {
    NoEarlierMatch(alts, t, from, u, f, m);
    ReplacedDigitsMatch(alts, t, from, u, f, m, se, e);
    SearchFindsAt(alts, u, f, f + (m.at - from), Marker(f + (m.at - from), f + (m.wordEnd - from), se, e));
  }

  /** The part of `FirstMatchKept` at the match: replacing the digits of a match by other
      digits, and keeping what precedes them, keeps the match there, with its word and
      whitespace, and with the new digits. */
  lemma ReplacedDigitsMatch(alts: seq<string>, t: string, from: nat, u: string, f: nat, m: Marker, se: nat, e: nat)
    requires WordAlternatives(alts) && from <= |t| && SearchFrom(alts, t, from) == Some(m)
    requires se == f + (m.spaceEnd - from)
    requires Agree(t, from, u, f, m.spaceEnd - from) && se < e <= |u|
    requires (forall k :: se <= k < e ==> IsDigit(u[k])) && (e == |u| || !IsDigit(u[e]))
    ensures MatchAt(alts, u, f + (m.at - from)) == Some(Marker(f + (m.at - from), f + (m.wordEnd - from), se, e))
  {
    var a, n := f + (m.at - from), m.spaceEnd - m.at;
    AgreeLater(t, from, u, f, m.spaceEnd - from, m.at - from);
    assert IsDigit(t[m.spaceEnd]) && IsDigit(u[a + n]);
    assert EndsAlike(t, m.at, u, a, n);
    var m2 := MatchAtAlikeSome(alts, t, m.at, u, a, n, m);
    assert m2 == Marker(a, f + (m.wordEnd - from), se, e);
  }

  /** The part of `FirstMatchKept` before the match: no match begins earlier. */
  lemma NoEarlierMatch(alts: seq<string>, t: string, from: nat, u: string, f: nat, m: Marker)
    requires WordAlternatives(alts) && from <= |t| && SearchFrom(alts, t, from) == Some(m)
    requires Agree(t, from, u, f, m.spaceEnd - from) && f + (m.spaceEnd - from) < |u|
    requires IsDigit(u[f + (m.spaceEnd - from)])
    ensures forall j :: f <= j < f + (m.at - from) ==> MatchAt(alts, u, j).None?
  {
    assert IsMarker(t, m) && from <= m.at;
    SearchSkips(alts, t, from);
    forall j | f <= j < f + (m.at - from) ensures MatchAt(alts, u, j).None? {
      NoMatchBeforeDigits(alts, t, from, u, f, m.spaceEnd, j);
    }
  }

  /** After padding, the first match `m` of `t` gives the first match `m2` of the padded
      text: it sits where `m` was, with the same word and whitespace, and its digits are
      the padded ones. */
  lemma PadFromFirstMatch(alts: seq<string>, t: string, from: nat, u: string, f: nat, width: nat, m: Marker)
      returns (m2: Marker)
    requires WordAlternatives(alts) && from <= |t| && f <= |u| && u[f..] == PadFrom(alts, t, from, width)
    requires SearchFrom(alts, t, from) == Some(m)
    ensures m2.at == f + (m.at - from) && m2.wordEnd == f + (m.wordEnd - from)
    ensures m2.spaceEnd == f + (m.spaceEnd - from) && m2.end == m2.spaceEnd + |PaddedDigits(Value(t, m), width)|
    ensures m2.end <= |u| && u[m2.spaceEnd..m2.end] == PaddedDigits(Value(t, m), width)
    ensures u[m2.end..] == PadFrom(alts, t, m.end, width)
    ensures SearchFrom(alts, u, f) == Some(m2)
  {
    var se := f + (m.spaceEnd - from);
    m2 := Marker(f + (m.at - from), f + (m.wordEnd - from), se, se + |PaddedDigits(Value(t, m), width)|);
    PaddedLayout(alts, t, from, u, f, width, m, se, m2.end);
    FirstMatchKept(alts, t, from, u, f, m, se, m2.end);
  }

  /** One step of the substitution, as an equation. */
  lemma PadFromUnfold(alts: seq<string>, t: string, from: nat, width: nat)
    requires WordAlternatives(alts) && from <= |t|
    ensures SearchFrom(alts, t, from).None? ==> PadFrom(alts, t, from, width) == t[from..]
    ensures SearchFrom(alts, t, from).Some? ==>
      var m := SearchFrom(alts, t, from).value;
      PadFrom(alts, t, from, width) ==
        t[from..m.spaceEnd] + PaddedDigits(ParseDigits(t[m.spaceEnd..m.end]), width) + PadFrom(alts, t, m.end, width)
  {
  }

  /** `PadFrom` at a match `m` it finds. */
  lemma PadFromAt(alts: seq<string>, t: string, from: nat, width: nat, m: Marker)
    requires WordAlternatives(alts) && from <= |t| && SearchFrom(alts, t, from) == Some(m)
    ensures IsMarker(t, m) && from <= m.spaceEnd <= m.end <= |t|
    ensures PadFrom(alts, t, from, width) == t[from..m.spaceEnd] + PaddedDigits(Value(t, m), width) + PadFrom(alts, t, m.end, width)
  {
  }

  lemma Reassemble(u: string, f: nat, se: nat, e: nat)
    requires f <= se <= e <= |u|
    ensures u[f..] == u[f..se] + u[se..e] + u[e..]
  {
  }

  /** Padding a padded text again changes nothing: every match keeps its word, whitespace
      and value, so it is padded to the same digits. */
  lemma {:induction false} PadFromIdempotent(alts: seq<string>, t: string, from: nat, u: string, f: nat, width: nat)
    requires WordAlternatives(alts) && from <= |t| && f <= |u| && u[f..] == PadFrom(alts, t, from, width)
    ensures PadFrom(alts, u, f, width) == u[f..]
    decreases |t| - from
  {
    if SearchFrom(alts, t, from).None? {
      PadFromNoMatch(alts, t, from, u, f, width);
      PadFromUnfold(alts, u, f, width);
    } else {
      var m := SearchFrom(alts, t, from).value;
      var m2 := PadFromFirstMatch(alts, t, from, u, f, width, m);
      PadFromIdempotent(alts, t, m.end, u, m2.end, width);
      PadFromFixedAt(alts, u, f, width, m2, Value(t, m));
    }
  }

  /** The step of `PadFromIdempotent` at a match: `PadFrom` leaves `u` alone from `f` when
      the digits of the first match are already padded and the rest after them is left
      alone. */
  lemma PadFromFixedAt(alts: seq<string>, u: string, f: nat, width: nat, m: Marker, v: nat)
    requires WordAlternatives(alts) && f <= |u| && SearchFrom(alts, u, f) == Some(m)
    requires m.end <= |u| && u[m.spaceEnd..m.end] == PaddedDigits(v, width)
    requires PadFrom(alts, u, m.end, width) == u[m.end..]
    ensures PadFrom(alts, u, f, width) == u[f..]
  {
    PadFromAt(alts, u, f, width, m);
    assert Value(u, m) == v;
    Reassemble(u, f, m.spaceEnd, m.end);
  }

  /** Running the substitution of `pad_episode_numbers` on its own output changes nothing. */
  lemma PadAllIdempotent(t: string, width: nat)
    ensures PadAll(PadAll(t, width), width) == PadAll(t, width)
  {
    DefaultAlternatives();
    var u := PadAll(t, width);
    assert u[0..] == u;
    PadFromIdempotent(PadAlternatives, t, 0, u, 0, width);
  }

  /** Padding keeps the number that `pad_episode_numbers` reads from a name, and whether the
      name has one at all. */
  lemma PadKeepsFirstNumber(t: string, width: nat)
    ensures FirstEpisodeNumber(PadAll(t, width)) == FirstEpisodeNumber(t)
  {
    DefaultAlternatives();
    var u := PadAll(t, width);
    assert u[0..] == u;
    if SearchFrom(PadAlternatives, t, 0).Some? {
      var m := SearchFrom(PadAlternatives, t, 0).value;
      var m2 := PadFromFirstMatch(PadAlternatives, t, 0, u, 0, width, m);
      assert Value(u, m2) == Value(t, m);
    } else {
      PadFromNoMatch(PadAlternatives, t, 0, u, 0, width);
    }
  }

  /** After padding, the first number of a name is written with the padded digits. */
  lemma PadAllFirstDigits(t: string, width: nat)
    requires FirstEpisodeNumber(t).Some?
    ensures FirstDigits(PadAll(t, width)) == Some(PaddedDigits(FirstEpisodeNumber(t).value, width))
  {
    DefaultAlternatives();
    var u := PadAll(t, width);
    assert u[0..] == u;
    var m2 := PadFromFirstMatch(PadAlternatives, t, 0, u, 0, width, SearchFrom(PadAlternatives, t, 0).value);
  }

  /** A name without a match is left as it is. */
  lemma PadWithoutMatch(t: string, width: nat)
    requires FirstEpisodeNumber(t).None?
    ensures PadAll(t, width) == t
  {
    DefaultAlternatives();
    assert t[0..] == t;
  }
}
