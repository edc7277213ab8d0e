/** The renaming loops of `assign_episode_numbers_from_rss`: for every date and every file
    without an episode number under it, the first feed title found in the file's name gives
    the file its number and its new name, and the analyzer's maps follow the rename. */
module Assigning {
  import opened Wrappers
  import opened Text
  import opened Paths
  import opened Buckets
  import opened Dates
  import opened Episodes
  import opened Naming

  /** The folder listing, the analyzer's `file_dates`, `bitrates` and `file_formats`, and
      whether an exception has ended the loops. */
  datatype AssignState = AssignState(
    files: seq<Path>,
    dates: Buckets<string>,
    bitrates: Buckets<string>,
    formats: Buckets<string>,
    raised: bool)

  /** `Path.rename` as the listing sees it: the first entry equal to `src` becomes `dst`. */
  function Replace(fs: seq<Path>, src: Path, dst: Path): (r: seq<Path>)
    ensures |r| == |fs|
    ensures src !in fs ==> r == fs
    ensures src in fs ==> multiset(r) == multiset(fs) - multiset{src} + multiset{dst}
  {
    if fs == [] then []
    else
      assert fs == [fs[0]] + fs[1..];
      if fs[0] == src then [dst] + fs[1..] else [fs[0]] + Replace(fs[1..], src, dst)
  }

  /** One file of the inner loop. A file no title matches is left alone; a name the split
      cannot cut in two raises `IndexError`; a file missing from the folder makes the rename
      raise `FileNotFoundError`; otherwise the file is renamed and `update_file_path`
      renames it in the analyzer's maps. After an exception nothing happens any more. */
  function AssignStep(st: AssignState, date: string, p: Path, titles: seq<string>, trailer: bool,
                      normalize: string -> string): AssignState
    requires IsoShape(date)
  {
    if st.raised then st
    else match Assignment(p, date, titles, trailer, normalize)
      case Skip => st
      case Raise => st.(raised := true)
      case RenameTo(n) =>
        var q := WithName(p, n);
        if p !in st.files then st.(raised := true)
        else AssignState(Replace(st.files, p, q), RenameInAll(st.dates, p, q),
                         RenameInAll(st.bitrates, p, q), RenameInAll(st.formats, p, q), false)
  }

  /** The cases of one step, as the loop body tells them apart. */
  lemma AssignStepCases(st: AssignState, date: string, p: Path, titles: seq<string>, trailer: bool,
                        normalize: string -> string)
    requires IsoShape(date) && !st.raised
    ensures var m := MatchingTitle(normalize, p.name, titles);
      m.None? ==> AssignStep(st, date, p, titles, trailer, normalize) == st
    ensures var m := MatchingTitle(normalize, p.name, titles);
      m.Some? ==>
        var n := AssignedName(p.name, date, PaddedDigits(EpisodeNumber(m.value, trailer), NumberWidth(titles)));
        (n.None? || p !in st.files ==> AssignStep(st, date, p, titles, trailer, normalize) == st.(raised := true)) &&
        (n.Some? && p in st.files ==>
          var q := WithName(p, n.value);
          AssignStep(st, date, p, titles, trailer, normalize) ==
          AssignState(Replace(st.files, p, q), RenameInAll(st.dates, p, q),
                      RenameInAll(st.bitrates, p, q), RenameInAll(st.formats, p, q), false))
  {
  }

  /** The inner loop over the files of one date. */
  function AssignFiles(st: AssignState, date: string, ps: seq<Path>, titles: seq<string>, trailer: bool,
                       normalize: string -> string): AssignState
    requires IsoShape(date)
  {
    if ps == [] then st
    else AssignStep(AssignFiles(st, date, ps[..|ps| - 1], titles, trailer, normalize), date, ps[|ps| - 1],
                    titles, trailer, normalize)
  }

  /** The inner loop over one more file is one more step. */
  lemma AssignFilesNext(st: AssignState, date: string, ps: seq<Path>, k: nat, titles: seq<string>, trailer: bool,
                        normalize: string -> string)
    requires IsoShape(date) && k < |ps|
    ensures AssignFiles(st, date, ps[..k + 1], titles, trailer, normalize) ==
      AssignStep(AssignFiles(st, date, ps[..k], titles, trailer, normalize), date, ps[k], titles, trailer, normalize)
  {
    assert ps[..k + 1][..k] == ps[..k];
  }

  /** Every key of the candidates is a date of the form YYYY-MM-DD, as the keys of
      `find_files_without_episode_numbers` are. */
  predicate IsoKeys(cands: Buckets<string>)
  {
    forall i :: 0 <= i < |cands| ==> IsoShape(cands[i].key)
  }

  /** The outer loop over the candidates' dates, in the dictionary's order. */
  function AssignAll(st: AssignState, cands: Buckets<string>, titles: seq<string>, trailer: bool,
                     normalize: string -> string): AssignState
    requires IsoKeys(cands)
  {
    if cands == [] then st
    else
      var init, b := cands[..|cands| - 1], cands[|cands| - 1];
      assert forall i :: 0 <= i < |init| ==> init[i] == cands[i];
      AssignFiles(AssignAll(st, init, titles, trailer, normalize), b.key, b.paths, titles, trailer, normalize)
  }

  /** The outer loop over one more date is the inner loop over that date's files. */
  lemma AssignAllNext(st: AssignState, cands: Buckets<string>, i: nat, titles: seq<string>, trailer: bool,
                      normalize: string -> string)
    requires IsoKeys(cands) && i < |cands|
    ensures IsoKeys(cands[..i]) && IsoKeys(cands[..i + 1])
    ensures AssignAll(st, cands[..i + 1], titles, trailer, normalize) ==
      AssignFiles(AssignAll(st, cands[..i], titles, trailer, normalize), cands[i].key, cands[i].paths,
                  titles, trailer, normalize)
  {
    assert cands[..i + 1][..i] == cands[..i];
  }

  /** The whole of `assign_episode_numbers_from_rss`: the feed's titles reversed to
      oldest-first, the trailer test on the oldest one, then both loops. */
  function AssignEpisodeNumbers(st: AssignState, cands: Buckets<string>, feed: seq<string>,
                                patterns: seq<string>, normalize: string -> string): AssignState
    requires IsoKeys(cands)
  {
    var titles := Reversed(feed);
    AssignAll(st, cands, titles, HasTrailer(titles, patterns), normalize)
  }

  /** After an exception the inner loop changes nothing. */
  lemma {:induction false} FilesRaisedStays(st: AssignState, date: string, ps: seq<Path>, titles: seq<string>,
                                            trailer: bool, normalize: string -> string)
    requires IsoShape(date) && st.raised
    ensures AssignFiles(st, date, ps, titles, trailer, normalize) == st
  {
    if ps != [] {
      FilesRaisedStays(st, date, ps[..|ps| - 1], titles, trailer, normalize);
    }
  }

  /** Once the inner loop has raised on a prefix of the files, the rest is not looked at. */
  lemma {:induction false} FilesRaisedPrefix(st: AssignState, date: string, ps: seq<Path>, i: nat,
                                             titles: seq<string>, trailer: bool, normalize: string -> string)
    requires IsoShape(date) && i <= |ps|
    requires AssignFiles(st, date, ps[..i], titles, trailer, normalize).raised
    ensures AssignFiles(st, date, ps, titles, trailer, normalize) == AssignFiles(st, date, ps[..i], titles, trailer, normalize)
  {
    if i < |ps| {
      assert ps[..|ps| - 1][..i] == ps[..i];
      FilesRaisedPrefix(st, date, ps[..|ps| - 1], i, titles, trailer, normalize);
    } else {
      assert ps[..i] == ps;
    }
  }

  /** Once the outer loop has raised on a prefix of the dates, the rest is not looked at
      (and once it has seen them all, there is no rest). */
  lemma {:induction false} AllRaisedPrefix(st: AssignState, cands: Buckets<string>, i: nat,
                                           titles: seq<string>, trailer: bool, normalize: string -> string)
    requires IsoKeys(cands) && i <= |cands|
    requires i == |cands| || AssignAll(st, cands[..i], titles, trailer, normalize).raised
    ensures AssignAll(st, cands, titles, trailer, normalize) == AssignAll(st, cands[..i], titles, trailer, normalize)
  {
    if i < |cands| {
      var init := cands[..|cands| - 1];
      assert init[..i] == cands[..i];
      AllRaisedPrefix(st, init, i, titles, trailer, normalize);
      var b := cands[|cands| - 1];
      FilesRaisedStays(AssignAll(st, init, titles, trailer, normalize), b.key, b.paths, titles, trailer, normalize);
    } else {
      assert cands[..i] == cands;
    }
  }

  /** What the loops keep: as many entries in the folder, the same keys in the three maps,
      and a name with an episode marker on every entry that was not there before. */
  ghost predicate Keeps(st: AssignState, st': AssignState)
  {
    |st'.files| == |st.files| &&
    Keys(st'.dates) == Keys(st.dates) && Keys(st'.bitrates) == Keys(st.bitrates) &&
    Keys(st'.formats) == Keys(st.formats) &&
    forall q :: q in st'.files && q !in st.files ==> HasEpisodeMarker(q.name)
  }

  /** The only entry a rename brings into the listing is its target. */
  lemma ReplaceAdds(fs: seq<Path>, src: Path, dst: Path)
    ensures forall x :: x in Replace(fs, src, dst) && x !in fs ==> x == dst
  {
    forall x | x in Replace(fs, src, dst) && x !in fs ensures x == dst {
      assert x in multiset(Replace(fs, src, dst));
    }
  }

  /** One file keeps it. */
  lemma StepKeeps(st: AssignState, date: string, p: Path, titles: seq<string>, trailer: bool,
                  normalize: string -> string)
    requires IsoShape(date)
    ensures Keeps(st, AssignStep(st, date, p, titles, trailer, normalize))
  {
    var a := Assignment(p, date, titles, trailer, normalize);
    if !st.raised && a.RenameTo? && p in st.files {
      AssignmentRenames(p, date, titles, trailer, normalize);
      var q := WithName(p, a.name);
      ReplaceAdds(st.files, p, q);
      assert AssignStep(st, date, p, titles, trailer, normalize) ==
        AssignState(Replace(st.files, p, q), RenameInAll(st.dates, p, q),
                    RenameInAll(st.bitrates, p, q), RenameInAll(st.formats, p, q), false);
    }
  }

  /** The inner loop keeps it. */
  lemma {:induction false} FilesKeep(st: AssignState, date: string, ps: seq<Path>, titles: seq<string>,
                                     trailer: bool, normalize: string -> string)
    requires IsoShape(date)
    ensures Keeps(st, AssignFiles(st, date, ps, titles, trailer, normalize))
  {
    if ps != [] {
      FilesKeep(st, date, ps[..|ps| - 1], titles, trailer, normalize);
      StepKeeps(AssignFiles(st, date, ps[..|ps| - 1], titles, trailer, normalize), date, ps[|ps| - 1],
                titles, trailer, normalize);
    }
  }

  /** Both loops keep it: no entry is lost or added, the analyzer's maps keep their keys,
      and every renamed file now carries an episode marker, so that looking again for files
      without episode numbers does not find it. */
  lemma {:induction false} AssignKeeps(st: AssignState, cands: Buckets<string>, titles: seq<string>,
                                       trailer: bool, normalize: string -> string)
    requires IsoKeys(cands)
    ensures Keeps(st, AssignAll(st, cands, titles, trailer, normalize))
  {
    if cands != [] {
      var init, b := cands[..|cands| - 1], cands[|cands| - 1];
      assert IsoKeys(init) by {
        assert forall i :: 0 <= i < |init| ==> init[i] == cands[i];
      }
      AssignKeeps(st, init, titles, trailer, normalize);
      FilesKeep(AssignAll(st, init, titles, trailer, normalize), b.key, b.paths, titles, trailer, normalize);
    }
  }

  /** With an empty feed no title matches, and nothing changes. */
  lemma {:induction false} EmptyFeedChangesNothing(st: AssignState, cands: Buckets<string>, trailer: bool,
                                                   normalize: string -> string)
    requires IsoKeys(cands)
    ensures AssignAll(st, cands, [], trailer, normalize) == st
  {
    if cands != [] {
      var init, b := cands[..|cands| - 1], cands[|cands| - 1];
      assert IsoKeys(init) by {
        assert forall i :: 0 <= i < |init| ==> init[i] == cands[i];
      }
      EmptyFeedChangesNothing(st, init, trailer, normalize);
      EmptyFeedFiles(st, b.key, b.paths, trailer, normalize);
    }
  }

  lemma {:induction false} EmptyFeedFiles(st: AssignState, date: string, ps: seq<Path>, trailer: bool,
                                          normalize: string -> string)
    requires IsoShape(date)
    ensures AssignFiles(st, date, ps, [], trailer, normalize) == st
  {
    if ps != [] {
      EmptyFeedFiles(st, date, ps[..|ps| - 1], trailer, normalize);
      assert MatchingTitle(normalize, ps[|ps| - 1].name, []).None?;
    }
  }
}
