/** The name-building parts of `assign_episode_numbers_from_rss`: the trailer test on the
    oldest title, the episode number and its width, the first title found in a file name,
    and the new name built from the default `conflicing_dates_replacement` template. */
module Naming {
  import opened Wrappers
  import opened Text
  import opened Paths
  import opened Dates
  import opened Episodes

  /** `list.reverse()`: the feed's newest-first titles become oldest-first. */
  function Reversed(s: seq<string>): (r: seq<string>)
    ensures |r| == |s| && forall i :: 0 <= i < |s| ==> r[i] == s[|s| - 1 - i]
  {
    if s == [] then [] else [s[|s| - 1]] + Reversed(s[..|s| - 1])
  }

  /** The alternatives of `'|'.join(re.escape(p) for p in trailer_patterns)`: an empty list
      joins to the empty pattern. */
  function TrailerAlternatives(patterns: seq<string>): seq<string>
  {
    if patterns == [] then [""] else patterns
  }

  /** `trailer_regex.search(title)` with `re.IGNORECASE`: some alternative occurs in the
      title, case aside. */
  predicate IsTrailer(title: string, patterns: seq<string>)
  {
    exists p :: p in TrailerAlternatives(patterns) && ContainsIgnoreCase(title, p)
  }

  /** An empty `trailer_patterns` list makes every title a trailer. */
  lemma EmptyPatternsMatchEveryTitle(title: string)
    ensures IsTrailer(title, [])
  {
    assert OccursAt(LowerStr(title), LowerStr(""), 0);
    assert ContainsIgnoreCase(title, "");
    assert "" in TrailerAlternatives([]);
  }

  /** `has_trailer`: there is an oldest title and it matches a trailer pattern. */
  predicate HasTrailer(oldestFirst: seq<string>, patterns: seq<string>)
  {
    oldestFirst != [] && IsTrailer(oldestFirst[0], patterns)
  }

  /** The number given to the title at 0-based position `k` of the oldest-first list: its
      1-based position, less one when the oldest title is a trailer. */
  function EpisodeNumber(k: nat, trailer: bool): nat
  {
    if trailer then k else k + 1
  }

  /** `num_digits`: the number of digits of the number of titles. */
  function NumberWidth(titles: seq<string>): nat
  {
    |NatToString(|titles|)|
  }

  /** Every assigned number is written with exactly `num_digits` digits and reads back as
      the title's 1-based position, shifted down by one when there is a trailer. */
  lemma AssignedNumberWidth(titles: seq<string>, k: nat, trailer: bool)
    requires k < |titles|
    ensures var d := PaddedDigits(EpisodeNumber(k, trailer), NumberWidth(titles));
      |d| == NumberWidth(titles) && ParseDigits(d) + (if trailer then 1 else 0) == k + 1
  {
    NatToStringMonotonic(EpisodeNumber(k, trailer), |titles|);
  }

  /** The title loop from position `from` on: the first title whose normalised form occurs
      in the normalised file name. */
  function TitleFrom(normalize: string -> string, name: string, titles: seq<string>, from: nat): (r: Option<nat>)
    requires from <= |titles|
    ensures r.Some? ==> from <= r.value < |titles| && Contains(normalize(name), normalize(titles[r.value]))
    ensures r.Some? ==> forall k :: from <= k < r.value ==> !Contains(normalize(name), normalize(titles[k]))
    ensures r.None? ==> forall k :: from <= k < |titles| ==> !Contains(normalize(name), normalize(titles[k]))
    decreases |titles| - from
  {
    if from == |titles| then None
    else if Contains(normalize(name), normalize(titles[from])) then Some(from)
    else TitleFrom(normalize, name, titles, from + 1)
  }

  /** The title the loop stops at (`break`), if any. */
  function MatchingTitle(normalize: string -> string, name: string, titles: seq<string>): Option<nat>
  {
    TitleFrom(normalize, name, titles, 0)
  }

  /** The title loop of `assign_episode_numbers_from_rss` for one file: the first title, in
      oldest-to-newest order, whose normalised form is in the normalised file name wins. */
  method FindTitle(normalize: string -> string, name: string, titles: seq<string>) returns (r: Option<nat>)
    ensures r == MatchingTitle(normalize, name, titles)
    ensures r.Some? ==> r.value < |titles| && Contains(normalize(name), normalize(titles[r.value])) &&
                        (forall k :: 0 <= k < r.value ==> !Contains(normalize(name), normalize(titles[k])))
    ensures r.None? ==> forall k :: 0 <= k < |titles| ==> !Contains(normalize(name), normalize(titles[k]))
  {
    var normalized := normalize(name);
    var i := 0;
    while i < |titles|
      invariant 0 <= i <= |titles|
      invariant MatchingTitle(normalize, name, titles) == TitleFrom(normalize, name, titles, i)
    {
      if Contains(normalized, normalize(titles[i])) {
        return Some(i);
      }
      i := i + 1;
    }
    return None;
  }

  /** `\b{date}\b ` matches at index `i`: the date and a space, with no word character
      before it (the date begins and ends with a digit). */
  predicate DateSpaceAt(s: string, date: string, i: nat)
  {
    OccursAt(s, date + " ", i) && (i == 0 || !IsWordChar(s[i - 1]))
  }

  /** `re.sub` of that pattern by "" from index `i` on, scanning left to right. */
  function DropDateFrom(s: string, date: string, i: nat): (r: string)
    requires i <= |s|
    ensures |r| <= |s| - i
    ensures (forall j :: i <= j < |s| ==> !DateSpaceAt(s, date, j)) ==> r == s[i..]
    decreases |s| - i
  {
    if i == |s| then []
    else if DateSpaceAt(s, date, i) then DropDateFrom(s, date, i + |date| + 1)
    else
      var r := [s[i]] + DropDateFrom(s, date, i + 1);
      assert s[i..] == [s[i]] + s[i + 1..];
      r
  }

  /** `re.sub(rf'\b{date}\b ', '', name)` for a date of the form YYYY-MM-DD, in which no
      character is special to the regular expression. */
  function DropDate(s: string, date: string): (r: string)
    requires IsoShape(date)
    ensures |r| <= |s|
    ensures (forall j :: 0 <= j < |s| ==> !DateSpaceAt(s, date, j)) ==> r == s
  {
    DropDateFrom(s, date, 0)
  }

  /** ` - (?=[^-]*$)` matches at index `i`: a spaced dash with no dash after it. */
  predicate SplitAt(s: string, i: nat)
  {
    OccursAt(s, " - ", i) && forall k :: i + 3 <= k < |s| ==> s[k] != '-'
  }

  /** The separator matches at most once: its dash is the last dash of the string. */
  lemma SplitAtUnique(s: string, i: nat, j: nat)
    requires SplitAt(s, i) && SplitAt(s, j)
    ensures i == j
  {
    assert s[i + 1] == " - "[1] && s[j + 1] == " - "[1];
  }

  /** `re.split(r' - (?=[^-]*$)', s)` when it yields two parts; None when it yields `[s]`,
      whose index 1 raises `IndexError`. */
  function SplitLast(s: string): (r: Option<(string, string)>)
    ensures r.Some? ==> SplitAt(s, |r.value.0|) && s == r.value.0 + " - " + r.value.1
    ensures r.None? ==> forall i: nat :: !SplitAt(s, i)
  {
    SplitAtLastDash(s);
    match LastIndexOf(s, '-')
    case None => None
    case Some(j) =>
      if 1 <= j && j + 1 < |s| && s[j - 1] == ' ' && s[j + 1] == ' ' then
        assert s[j - 1..j + 2] == " - ";
        assert s == s[..j - 1] + " - " + s[j + 2..];
        Some((s[..j - 1], s[j + 2..]))
      else None
  }

  /** Where the separator matches, its dash is the last dash of the string. */
  lemma SplitAtLastDash(s: string)
    ensures forall i: nat :: SplitAt(s, i) ==>
      i + 2 < |s| && s[i] == ' ' && s[i + 2] == ' ' && LastIndexOf(s, '-') == Some(i + 1)
  {
    forall i: nat | SplitAt(s, i)
      ensures i + 2 < |s| && s[i] == ' ' && s[i + 2] == ' ' && LastIndexOf(s, '-') == Some(i + 1)
    {
      assert s[i] == s[i..i + 3][0] && s[i + 1] == s[i..i + 3][1] && s[i + 2] == s[i..i + 3][2];
    }
  }

  /** The default `conflicing_dates_replacement` template, filled in. */
  function Template(prefix: string, date: string, episode: string, suffix: string): string
  {
    prefix + " - " + date + " Ep. " + episode + " - " + suffix
  }

  /** The new name of a file that matched a title: the date and its space removed, the rest
      stripped and split at its last spaced dash, and the template filled with both parts
      stripped; None where the split yields one part and the indexing raises. */
  function AssignedName(name: string, date: string, episode: string): (r: Option<string>)
    requires IsoShape(date)
  {
    match SplitLast(Strip(DropDate(name, date)))
    case None => None
    case Some((a, b)) => Some(Template(Strip(a), date, episode, Strip(b)))
  }

  /** "Ep." at index `j`, then a space and a digit: an episode marker. */
  lemma EpSpaceDigitMarker(t: string, j: nat)
    requires j + 4 < |t| && t[j] == 'E' && t[j + 1] == 'p' && t[j + 2] == '.'
    requires t[j + 3] == ' ' && IsDigit(t[j + 4])
    ensures HasEpisodeMarker(t)
  {
    assert StartsAt(t, j, "Ep.");
    assert SkipSpace(t, j + 3) == j + 4;
    DefaultAlternatives();
    assert FitsAt(t, j, MarkerAlternatives[0]);
    assert MatchAt(MarkerAlternatives, t, j).Some?;
    SearchSkips(MarkerAlternatives, t, 0);
  }

  /** A filled template carries an episode marker right after the date: "Ep." followed by a
      space and the digits. */
  lemma TemplateHasMarker(prefix: string, date: string, episode: string, suffix: string)
    requires episode != [] && AllDigits(episode)
    ensures HasEpisodeMarker(Template(prefix, date, episode, suffix))
  {
    var t := Template(prefix, date, episode, suffix);
    var head := prefix + " - " + date + " ";
    var tail := "Ep. " + episode + " - " + suffix;
    assert t == head + tail;
    var j := |head|;
    assert tail[0] == 'E' && tail[1] == 'p' && tail[2] == '.' && tail[3] == ' ' && tail[4] == episode[0];
    assert t[j] == tail[0] && t[j + 1] == tail[1] && t[j + 2] == tail[2] && t[j + 3] == tail[3] && t[j + 4] == tail[4];
    EpSpaceDigitMarker(t, j);
  }

  /** A file renamed from a title carries an episode marker: it is not a candidate the next
      time files without episode numbers are looked for. */
  lemma AssignedNameHasMarker(name: string, date: string, episode: string)
    requires IsoShape(date) && episode != [] && AllDigits(episode)
    requires AssignedName(name, date, episode).Some?
    ensures HasEpisodeMarker(AssignedName(name, date, episode).value)
  {
    var (a, b) := SplitLast(Strip(DropDate(name, date))).value;
    TemplateHasMarker(Strip(a), date, episode, Strip(b));
  }

  /** What the title loop does for one candidate: nothing when no title matches, raise when
      the name cannot be split, and otherwise rename it. */
  datatype Action = Skip | Raise | RenameTo(name: string)

  function Assignment(p: Path, date: string, titles: seq<string>, trailer: bool, normalize: string -> string): Action
    requires IsoShape(date)
  {
    match MatchingTitle(normalize, p.name, titles)
    case None => Skip
    case Some(k) =>
      match AssignedName(p.name, date, PaddedDigits(EpisodeNumber(k, trailer), NumberWidth(titles)))
      case None => Raise
      case Some(n) => RenameTo(n)
  }

  /** A candidate is renamed exactly when a title matches and its name can be split; the
      new name carries the matched title's number, `num_digits` wide, after the date. */
  lemma AssignmentRenames(p: Path, date: string, titles: seq<string>, trailer: bool, normalize: string -> string)
    requires IsoShape(date)
    ensures Assignment(p, date, titles, trailer, normalize).Skip? <==>
      forall k :: 0 <= k < |titles| ==> !Contains(normalize(p.name), normalize(titles[k]))
    ensures Assignment(p, date, titles, trailer, normalize).RenameTo? ==>
      var k := MatchingTitle(normalize, p.name, titles).value;
      var d := PaddedDigits(EpisodeNumber(k, trailer), NumberWidth(titles));
      |d| == NumberWidth(titles) && HasEpisodeMarker(Assignment(p, date, titles, trailer, normalize).name) &&
      exists a, b :: Assignment(p, date, titles, trailer, normalize).name == Template(a, date, d, b)
  {
    var m := MatchingTitle(normalize, p.name, titles);
    if m.Some? {
      var d := PaddedDigits(EpisodeNumber(m.value, trailer), NumberWidth(titles));
      AssignedNumberWidth(titles, m.value, trailer);
      if AssignedName(p.name, date, d).Some? {
        AssignedNameHasMarker(p.name, date, d);
        var (a, b) := SplitLast(Strip(DropDate(p.name, date))).value;
        assert Assignment(p, date, titles, trailer, normalize).name == Template(Strip(a), date, d, Strip(b));
      }
    }
  }
}
