/** `fix_episode_numbering`: a name of the form "<prefix> - <date> <title> - <number>.<ext>"
    has its number moved in front of the title, by the default `ep_nr_at_end_file_pattern`
    `^(.* - )(\d{4}-\d{2}-\d{2}) (.*?)( - )((Ep\.?|Episode|E)?\s*(\d+))(\.\w+)$`, which is
    matched case-sensitively. The regular expression is modelled by what its backtracking
    finds first: the greedy group 1 makes the date start as far right as a match allows, and
    the lazy group 3 then ends as far left as a match allows. */
module Renumber {
  import opened Wrappers
  import opened Text
  import opened Paths
  import opened Dates

  /** The part of a name a match can cover: `$` matches at the end or before one final
      newline, and no group can hold that newline. */
  function End(s: string): (r: string)
    ensures r == s || (s == r + "\n")
  {
    if s != [] && s[|s| - 1] == '\n' then s[..|s| - 1] else s
  }

  predicate NoNewline(s: string) { forall k :: 0 <= k < |s| ==> s[k] != '\n' }

  predicate AllWord(s: string) { forall k :: 0 <= k < |s| ==> IsWordChar(s[k]) }

  predicate AllIn(s: string, cs: set<char>) { forall k :: 0 <= k < |s| ==> s[k] in cs }

  const DigitChars: set<char> := {'0', '1', '2', '3', '4', '5', '6', '7', '8', '9'}

  lemma DigitCharsAreDigits(c: char)
    ensures c in DigitChars <==> IsDigit(c)
  {
  }

  /** The words `(Ep\.?|Episode|E)?` can match. */
  const EpisodeWords: seq<string> := ["Ep.", "Ep", "Episode", "E", ""]

  /** `(Ep\.?|Episode|E)?\s*(\d+)` matches all of `x`: after the trailing digits (at least
      one) and the whitespace before them, an episode word or nothing is left. */
  predicate NumberShape(x: string)
  {
    var n := TrailingIn(x, DigitChars);
    var w := TrailingIn(x[..|x| - n], Whitespace);
    n > 0 && x[..|x| - n - w] in EpisodeWords
  }

  /** A run of characters from `cs` after a character that is not is counted exactly. */
  lemma TrailingExactly(s: string, t: string, cs: set<char>)
    requires AllIn(t, cs) && (s == [] || s[|s| - 1] !in cs)
    ensures TrailingIn(s + t, cs) == |t|
  {
    var u := s + t;
    assert forall k :: 0 <= k < |t| ==> u[|s| + k] == t[k];
    assert s != [] ==> u[|s| - 1] == s[|s| - 1];
  }

  /** No episode word ends with a digit or with whitespace. */
  lemma EpisodeWordEnd(a: string)
    requires a in EpisodeWords && a != []
    ensures a[|a| - 1] !in DigitChars && a[|a| - 1] !in Whitespace
  {
  }

  /** Every episode word followed by whitespace and at least one digit has the shape: the
      digits and the whitespace are found again, whatever the word. */
  lemma NumberShapeOf(a: string, ws: string, dg: string)
    requires a in EpisodeWords && AllIn(ws, Whitespace) && dg != [] && AllDigits(dg)
    ensures NumberShape(a + ws + dg)
  {
    var pre := a + ws;
    var x := pre + dg;
    assert AllIn(dg, DigitChars) by {
      forall k | 0 <= k < |dg| ensures dg[k] in DigitChars {
        DigitCharsAreDigits(dg[k]);
      }
    }
    assert a == [] || a[|a| - 1] !in Whitespace by {
      if a != [] {
        EpisodeWordEnd(a);
      }
    }
    assert pre == [] || pre[|pre| - 1] !in DigitChars by {
      if ws != [] {
        assert pre[|pre| - 1] == ws[|ws| - 1];
      } else if a != [] {
        EpisodeWordEnd(a);
        assert pre[|pre| - 1] == a[|a| - 1];
      }
    }
    TrailingExactly(pre, dg, DigitChars);
    TrailingExactly(a, ws, Whitespace);
    assert x[..|x| - |dg|] == pre;
    assert x[..|x| - |dg| - |ws|] == a;
  }

  /** `(Ep\.?|Episode|E)?\s*(\d+)(\.\w+)` matches all of `t`; group 8 starts at the last
      dot, since `\w` does not match a dot. */
  predicate TailShape(t: string)
  {
    match LastIndexOf(t, '.')
    case None => false
    case Some(d) => d + 1 < |t| && AllWord(t[d + 1..]) && NumberShape(t[..d])
  }

  /** The date (group 2) can start at `i` of the matched part `e`: group 1, with no newline,
      ends with " - " right before it, and a space follows it. */
  predicate DateStart(e: string, i: nat)
  {
    3 <= i && i + 11 <= |e| && e[i - 3..i] == " - " && NoNewline(e[..i]) &&
    IsoShape(e[i..i + 10]) && e[i + 10] == ' '
  }

  /** Group 4 can start at `j` once the date starts at `i`: group 3, between them, has no
      newline, and after " - " the rest of `e` is an episode number and an extension. */
  predicate TitleEnd(e: string, i: nat, j: nat)
  {
    i + 11 <= j && j + 3 <= |e| && NoNewline(e[i + 11..j]) && e[j..j + 3] == " - " &&
    TailShape(e[j + 3..])
  }

  /** The first `k` in `[from, bound)` with `P(k)`. */
  function FirstFrom(P: nat -> bool, from: nat, bound: nat): (r: Option<nat>)
    ensures r.Some? ==> from <= r.value < bound && P(r.value)
    ensures r.Some? ==> forall k :: from <= k < r.value ==> !P(k)
    ensures r.None? ==> forall k :: from <= k < bound ==> !P(k)
    decreases bound - from
  {
    if from >= bound then None
    else if P(from) then Some(from)
    else FirstFrom(P, from + 1, bound)
  }

  /** The last `k <= i` with `P(k)`. */
  function LastUpTo(P: nat -> bool, i: nat): (r: Option<nat>)
    ensures r.Some? ==> r.value <= i && P(r.value)
    ensures r.Some? ==> forall k :: r.value < k <= i ==> !P(k)
    ensures r.None? ==> forall k: nat :: k <= i ==> !P(k)
  {
    if P(i) then Some(i) else if i == 0 then None else LastUpTo(P, i - 1)
  }

  /** The lazy group 3: the first `j` where group 4 can start once the date starts at `i`. */
  function TitleEndOf(e: string, i: nat): Option<nat>
  {
    FirstFrom((j: nat) => TitleEnd(e, i, j), 0, |e|)
  }

  /** A match can have its date at `i`. */
  predicate Feasible(e: string, i: nat)
  {
    DateStart(e, i) && TitleEndOf(e, i).Some?
  }

  /** Where the date and group 4 of the match start, if the name matches: the greedy
      group 1 puts the date at the last place a match allows, and the lazy group 3 then
      ends at the first place a match allows. */
  function MatchAt(name: string): Option<(nat, nat)>
  {
    var e := End(name);
    match LastUpTo((i: nat) => Feasible(e, i), |e|)
    case None => None
    case Some(i) => Some((i, TitleEndOf(e, i).value))
  }

  /** `TitleEndOf` finds the first place group 4 can start, and nothing when there is none. */
  lemma TitleEndOfMeaning(e: string, i: nat)
    ensures TitleEndOf(e, i).Some? ==> TitleEnd(e, i, TitleEndOf(e, i).value)
    ensures TitleEndOf(e, i).Some? ==> forall j: nat :: j < TitleEndOf(e, i).value ==> !TitleEnd(e, i, j)
    ensures TitleEndOf(e, i).None? ==> forall j: nat :: !TitleEnd(e, i, j)
  {
    var P := (j: nat) => TitleEnd(e, i, j);
    assert forall j: nat :: P(j) == TitleEnd(e, i, j);
  }

  /** A match exists with its date at `i` exactly when `i` is feasible. */
  lemma FeasibleMeaning(e: string, i: nat)
    ensures Feasible(e, i) <==> DateStart(e, i) && exists j: nat :: TitleEnd(e, i, j)
  {
    TitleEndOfMeaning(e, i);
  }

  /** The match is the one the regular expression finds: its date starts at the last place
      any match has a date, its group 4 at the first place a match with that date has it;
      and when the name does not match, no placing of the date and group 4 fits. */
  lemma MatchAtMeaning(name: string)
    ensures MatchAt(name).Some? ==> DateStart(End(name), MatchAt(name).value.0)
    ensures MatchAt(name).Some? ==> TitleEnd(End(name), MatchAt(name).value.0, MatchAt(name).value.1)
    ensures MatchAt(name).Some? ==> forall j: nat :: j < MatchAt(name).value.1 ==> !TitleEnd(End(name), MatchAt(name).value.0, j)
    ensures MatchAt(name).Some? ==> forall i: nat, j: nat :: MatchAt(name).value.0 < i && DateStart(End(name), i) ==> !TitleEnd(End(name), i, j)
    ensures MatchAt(name).None? ==> forall i: nat, j: nat :: DateStart(End(name), i) ==> !TitleEnd(End(name), i, j)
  {
    var e := End(name);
    var P := (i: nat) => Feasible(e, i);
    assert forall i: nat :: P(i) == Feasible(e, i);
    var r := LastUpTo(P, |e|);
    forall i: nat, j: nat | DateStart(e, i) && TitleEnd(e, i, j) ensures i <= |e| && Feasible(e, i) {
      FeasibleMeaning(e, i);
    }
    if r.Some? {
      TitleEndOfMeaning(e, r.value);
    }
  }

  /** The matched part of a name, cut at the date, group 3, group 4 and the last dot. */
  lemma Reassemble(e: string, i: nat, j: nat, t: string, d: nat)
    requires i + 11 <= j && j + 3 <= |e| && e[i + 10] == ' ' && e[j..j + 3] == " - "
    requires t == e[j + 3..] && d <= |t|
    ensures e == e[..i] + e[i..i + 10] + " " + e[i + 11..j] + " - " + t[..d] + t[d..]
  {
    assert e[i + 10..i + 11] == " ";
    assert e == e[..i] + e[i..i + 10] + e[i + 10..i + 11] + e[i + 11..j] + e[j..j + 3] + t;
  }

  /** The groups the new name is built from: group 1 (prefix), 2 (date), 3 (title),
      5 (episode number) and 8 (extension). */
  datatype Groups = Groups(prefix: string, date: string, title: string, number: string, extension: string)

  /** The groups of the match whose date starts at `i` and whose group 4 starts at `j`. */
  function GroupsAt(e: string, i: nat, j: nat): Option<Groups>
  {
    if i + 11 <= j && j + 3 <= |e| then
      var t := e[j + 3..];
      match LastIndexOf(t, '.')
      case None => None
      case Some(d) => Some(Groups(e[..i], e[i..i + 10], e[i + 11..j], t[..d], t[d..]))
    else None
  }

  /** Where the date and group 4 fit, the groups tile the matched part and each has the
      shape its part of the pattern demands. */
  lemma GroupsAtShape(e: string, i: nat, j: nat)
    requires DateStart(e, i) && TitleEnd(e, i, j)
    ensures GroupsAt(e, i, j).Some?
    ensures var g := GroupsAt(e, i, j).value;
      e == g.prefix + g.date + " " + g.title + " - " + g.number + g.extension &&
      |g.prefix| >= 3 && IsoShape(g.date) && NoNewline(g.title) && NumberShape(g.number) &&
      |g.extension| >= 2 && g.extension[0] == '.' && AllWord(g.extension[1..])
  {
    var t := e[j + 3..];
    TailParts(t);
    var d := LastIndexOf(t, '.').value;
    Reassemble(e, i, j, t, d);
  }

  /** `ep_nr_at_end_file_pattern.match(name)`, as its groups. */
  function MatchGroups(name: string): (r: Option<Groups>)
    ensures r.None? <==> MatchAt(name).None?
  {
    MatchAtMeaning(name);
    match MatchAt(name)
    case None => None
    case Some((i, j)) =>
      GroupsAtShape(End(name), i, j);
      GroupsAt(End(name), i, j)
  }

  /** `title = match.group(3).rstrip(' -').strip()`. */
  function CleanTitle(title: string): string
  {
    Strip(RStripChars(title, {' ', '-'}))
  }

  /** The new name: `f"{prefix}{date_part} {episode_number} - {title}{extension}"`, or the
      name itself when the pattern does not match. */
  function FixedName(name: string): string
  {
    match MatchGroups(name)
    case None => name
    case Some(g) => g.prefix + g.date + " " + g.number + " - " + CleanTitle(g.title) + g.extension
  }

  /** `fix_episode_numbering`: the path the file has afterwards (renamed when it matched). */
  function FixEpisodeNumbering(p: Path): Path
  {
    WithName(p, FixedName(p.name))
  }

  /** The groups tile the matched part of the name, and each has the shape its part of the
      pattern demands. */
  lemma MatchGroupsShape(name: string)
    requires MatchGroups(name).Some?
    ensures var g := MatchGroups(name).value;
      End(name) == g.prefix + g.date + " " + g.title + " - " + g.number + g.extension &&
      |g.prefix| >= 3 && IsoShape(g.date) && NoNewline(g.title) && NumberShape(g.number) &&
      |g.extension| >= 2 && g.extension[0] == '.' && AllWord(g.extension[1..])
  {
    MatchAtMeaning(name);
    var (i, j) := MatchAt(name).value;
    GroupsAtShape(End(name), i, j);
  }

  /** The parts of a tail the pattern matches: the episode number before the last dot, and
      the dot and at least one word character after it. */
  lemma TailParts(t: string)
    requires TailShape(t)
    ensures LastIndexOf(t, '.').Some?
    ensures var d := LastIndexOf(t, '.').value;
      NumberShape(t[..d]) && |t[d..]| >= 2 && t[d..][0] == '.' && AllWord(t[d..][1..])
  {
    var d := LastIndexOf(t, '.').value;
    assert t[d..][1..] == t[d + 1..];
  }

  /** A name the pattern does not match is kept, and a matched one is rebuilt from the
      same groups with the number and the title swapped. */
  lemma FixedNameSwaps(name: string)
    ensures MatchAt(name).None? ==> FixedName(name) == name
    ensures MatchAt(name).Some? ==> exists g: Groups ::
      End(name) == g.prefix + g.date + " " + g.title + " - " + g.number + g.extension &&
      FixedName(name) == g.prefix + g.date + " " + g.number + " - " + CleanTitle(g.title) + g.extension &&
      IsoShape(g.date) && NumberShape(g.number)
  {
    if MatchAt(name).Some? {
      var g := MatchGroups(name).value;
      MatchGroupsShape(name);
      assert FixedName(name) == g.prefix + g.date + " " + g.number + " - " + CleanTitle(g.title) + g.extension;
    }
  }

  /** A name ending in a dot and word characters has that ending as its `Path.suffix`. */
  lemma SuffixOfExtension(x: string, ext: string)
    requires x != [] && |ext| >= 2 && ext[0] == '.' && AllWord(ext[1..])
    ensures Suffix(x + ext) == ext
  {
    var s := x + ext;
    assert s[|x|] == '.';
    assert forall k :: |x| < k < |s| ==> s[k] == ext[1..][k - |x| - 1];
    var r := LastIndexOf(s, '.');
    assert r == Some(|x|);
    assert s[|x|..] == ext;
  }

  /** The file keeps its format: the fixed name has the suffix the name had (for a name
      without a final newline, which no match can keep). */
  lemma FixKeepsSuffix(name: string)
    requires End(name) == name
    ensures Suffix(FixedName(name)) == Suffix(name)
    ensures FormatOf(FixedName(name)) == FormatOf(name)
  {
    match MatchGroups(name)
    case None =>
    case Some(g) =>
      MatchGroupsShape(name);
      var before := g.prefix + g.date + " " + g.title + " - " + g.number;
      var after := g.prefix + g.date + " " + g.number + " - " + CleanTitle(g.title);
      SuffixOfExtension(before, g.extension);
      SuffixOfExtension(after, g.extension);
      assert name == before + g.extension;
      assert FixedName(name) == after + g.extension;
  }
}
