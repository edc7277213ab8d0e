/** `FileOrganizer`: the passes over the podcast folder that reconcile episode numbers, and
    the split of the current year into a folder of its own. The folder is its listing, a
    sequence of paths in which a rename replaces an entry; the analyzer is the shared
    `FileAnalyzer` whose maps the passes keep up to date (or, for padding, do not). */
module Organizer {
  import opened Wrappers
  import opened Text
  import opened Paths
  import opened Buckets
  import opened Dates
  import opened Episodes
  import opened Timeline
  import opened Analyzer
  import opened Padding
  import opened Grouping
  import opened Naming
  import opened Assigning
  import opened Split
  import Renumber

  class FileOrganizer {
    /** The podcast folder, as `rglob('*')` lists it. */
    var files: seq<Path>
    /** The names in the "--CURRENT--" folder beside it; None while it does not exist. */
    var currentFolder: Option<seq<string>>
    const analyzer: FileAnalyzer
    /** `podcast.completed`, the `full_years_only` setting and `trailer_patterns`. */
    const completed: bool
    const fullYearsOnly: bool
    const trailerPatterns: seq<string>

    constructor (analyzer: FileAnalyzer, files: seq<Path>, currentFolder: Option<seq<string>>,
                 completed: bool, fullYearsOnly: bool, trailerPatterns: seq<string>)
      ensures this.analyzer == analyzer && this.files == files && this.currentFolder == currentFolder
      ensures this.completed == completed && this.fullYearsOnly == fullYearsOnly
      ensures this.trailerPatterns == trailerPatterns
    {
      this.analyzer := analyzer;
      this.files := files;
      this.currentFolder := currentFolder;
      this.completed := completed;
      this.fullYearsOnly := fullYearsOnly;
      this.trailerPatterns := trailerPatterns;
    }

    /** `pad_episode_numbers`: every entry with an episode number is renamed with all its
        numbers padded to the digits of the largest first number; nothing is renamed when
        no entry has a number. The analyzer is not told: its maps keep the old paths. */
    method PadEpisodeNumbers()
      modifies this`files
      ensures files == PaddedFolder(old(files))
    {
      var fs := files;
      var found := NumberedEntries(fs);
      if found == [] {
        NoHitsNoRenames(fs);
        return;
      }
      var largest := LargestNumber(found);
      files := PadHits(fs, found, |NatToString(largest)|);
    }

    /** `find_files_without_episode_numbers`: the entries grouped by their first date, and
        of each date shared by several entries, the entries without an episode marker. */
    method FindFilesWithoutEpisodeNumbers() returns (r: Buckets<string>)
      ensures r == WithoutNumbers(files)
      ensures UniqueKeys(r)
    {
      var byDate := GroupFiles(files);
      r := CollectUnnumbered(byDate);
      WithoutNumbersLookup(files, "");
    }

    /** The folder and the analyzer's maps, as the renaming loops see them. */
    function AssignView(): AssignState
      reads this, analyzer
    {
      AssignState(files, analyzer.fileDates, analyzer.bitrates, analyzer.fileFormats, false)
    }

    /** `assign_episode_numbers_from_rss(cands)` with the feed's titles `feed` (newest
        first): every candidate the titles match is renamed from the template and renamed in
        the analyzer's maps. It returns whether an exception ended it (an unsplittable name
        or a file that is gone), the renames before it having been done. */
    method AssignEpisodeNumbersFromRss(cands: Buckets<string>, feed: seq<string>, normalize: string -> string)
      returns (raised: bool)
      requires analyzer.Valid() && IsoKeys(cands)
      modifies this`files, analyzer`fileDates, analyzer`bitrates, analyzer`fileFormats
      ensures analyzer.Valid()
      ensures AssignEpisodeNumbers(old(AssignView()), cands, feed, trailerPatterns, normalize) == AssignView().(raised := raised)
    {
      var titles := Reversed(feed);
      var trailer := HasTrailer(titles, trailerPatterns);
      raised := AssignDates(cands, titles, trailer, NumberWidth(titles), normalize);
    }

    /** The outer loop, over the dates of the candidates. */
    method AssignDates(cands: Buckets<string>, titles: seq<string>, trailer: bool, width: nat,
                       normalize: string -> string) returns (raised: bool)
      requires analyzer.Valid() && IsoKeys(cands) && width == NumberWidth(titles)
      modifies this`files, analyzer`fileDates, analyzer`bitrates, analyzer`fileFormats
      ensures analyzer.Valid()
      ensures AssignAll(old(AssignView()), cands, titles, trailer, normalize) == AssignView().(raised := raised)
    {
      ghost var start := AssignView();
      raised := false;
      var i := 0;
      while i < |cands| && !raised
        invariant 0 <= i <= |cands| && IsoKeys(cands[..i])
        invariant analyzer.Valid()
        invariant AssignAll(start, cands[..i], titles, trailer, normalize) == AssignView().(raised := raised)
      {
        AssignAllNext(start, cands, i, titles, trailer, normalize);
        raised := AssignDate(cands[i].key, cands[i].paths, titles, trailer, width, normalize);
        i := i + 1;
      }
      AllRaisedPrefix(start, cands, i, titles, trailer, normalize);
    }

    /** The inner loop, over the candidates `ps` of one date; `width` is `num_digits`. */
    method AssignDate(date: string, ps: seq<Path>, titles: seq<string>, trailer: bool, width: nat,
                      normalize: string -> string) returns (raised: bool)
      requires analyzer.Valid() && IsoShape(date) && width == NumberWidth(titles)
      modifies this`files, analyzer`fileDates, analyzer`bitrates, analyzer`fileFormats
      ensures analyzer.Valid()
      ensures AssignFiles(old(AssignView()), date, ps, titles, trailer, normalize) == AssignView().(raised := raised)
    {
      raised := false;
      ghost var before := AssignView();
      var k := 0;
      while k < |ps|
        invariant 0 <= k <= |ps|
        invariant analyzer.Valid()
        invariant AssignFiles(before, date, ps[..k], titles, trailer, normalize) == AssignView()
      {
        AssignFilesNext(before, date, ps, k, titles, trailer, normalize);
        raised := AssignFile(date, ps[k], titles, trailer, width, normalize);
        if raised {
          FilesRaisedPrefix(before, date, ps, k + 1, titles, trailer, normalize);
          return;
        }
        k := k + 1;
      }
      assert ps[..k] == ps;
    }

    /** The body of the inner loop, for the candidate `p`. */
    method AssignFile(date: string, p: Path, titles: seq<string>, trailer: bool, width: nat,
                      normalize: string -> string) returns (raised: bool)
      requires analyzer.Valid() && IsoShape(date) && width == NumberWidth(titles)
      modifies this`files, analyzer`fileDates, analyzer`bitrates, analyzer`fileFormats
      ensures analyzer.Valid()
      ensures AssignStep(old(AssignView()), date, p, titles, trailer, normalize) == AssignView().(raised := raised)
    {
      ghost var view := AssignView();
      AssignStepCases(view, date, p, titles, trailer, normalize);
      var m := FindTitle(normalize, p.name, titles);
      if m.None? {
        return false;
      }
      var padded := PaddedDigits(EpisodeNumber(m.value, trailer), width);
      var name := AssignedName(p.name, date, padded);
      if name.None? || p !in files {
        return true;
      }
      var q := WithName(p, name.value);
      files := Replace(files, p, q);
      analyzer.UpdateFilePath(p, q);
      return false;
    }

    /** `fix_episode_numbering`: a matching name is rebuilt with the number before the
        title and the file renamed; None where the rename raises because the file is gone. */
    method FixEpisodeNumbering(p: Path) returns (q: Option<Path>)
      modifies this`files
      ensures Renumber.MatchGroups(p.name).None? ==> q == Some(p) && files == old(files)
      ensures Renumber.MatchGroups(p.name).Some? && p !in old(files) ==> q.None? && files == old(files)
      ensures Renumber.MatchGroups(p.name).Some? && p in old(files) ==>
        q == Some(Renumber.FixEpisodeNumbering(p)) && files == Replace(old(files), p, q.value)
    {
      if Renumber.MatchGroups(p.name).None? {
        return Some(p);
      }
      var target := WithName(p, Renumber.FixedName(p.name));
      if p !in files {
        return None;
      }
      files := Replace(files, p, target);
      return Some(target);
    }

    /** The folder, the current folder's names (empty before it is made) and the analyzer's
        maps, as the move loop sees them. */
    function MoveView(moved: seq<Path>): MoveState
      reads this, analyzer
    {
      MoveState(files, if currentFolder.Some? then currentFolder.value else [],
                analyzer.fileDates, analyzer.bitrates, analyzer.fileFormats, moved)
    }

    /** `check_split`, with the current year, the answer to "proceed with split anyway?" and
        the answers to "overwrite?" given: when the intended year rule says so, the current
        folder is made if needed and the current year's files move into it, each removed
        from the analyzer. It returns whether the podcast was split. */
    method CheckSplit(currentYear: int, proceed: bool, overwrite: string -> bool) returns (split: bool)
      requires analyzer.Valid()
      modifies this`files, this`currentFolder, analyzer`fileDates, analyzer`bitrates, analyzer`fileFormats,
        analyzer`earliestYear, analyzer`firstEpisodeDate, analyzer`lastEpisodeDate,
        analyzer`realFirstEpisodeDate, analyzer`realLastEpisodeDate
      ensures analyzer.Valid()
      ensures split == SplitDecision(completed, fullYearsOnly, old(analyzer.earliestYear), old(analyzer.lastEpisodeDate),
                                     currentYear, old(currentFolder).Some?, proceed)
      ensures !split ==> (files == old(files) && currentFolder == old(currentFolder) &&
                          analyzer.fileDates == old(analyzer.fileDates) && analyzer.bitrates == old(analyzer.bitrates) &&
                          analyzer.fileFormats == old(analyzer.fileFormats) &&
                          analyzer.CurrentBounds() == old(analyzer.CurrentBounds()))
      ensures split ==> (currentFolder.Some? &&
                         MoveView([]).(moved := []) ==
                         MoveKeys(old(MoveView([])), Keys(old(analyzer.fileDates)), currentYear, overwrite).(moved := []))
      ensures |files| == old(|files|) ==> analyzer.CurrentBounds() == old(analyzer.CurrentBounds())
      ensures |files| < old(|files|) ==> analyzer.BoundsFresh()
    {
      split := SplitDecision(completed, fullYearsOnly, analyzer.earliestYear, analyzer.lastEpisodeDate,
                             currentYear, currentFolder.Some?, proceed);
      if !split {
        return;
      }
      if currentFolder.None? {
        currentFolder := Some([]);
      }
      ghost var moved := MoveYear(Keys(analyzer.fileDates), currentYear, overwrite);
    }

    /** The loop of `check_split` over the keys `keys` of `file_dates` as they were when it
        began: the files of each key of the current year move. */
    method MoveYear(keys: seq<string>, currentYear: int, overwrite: string -> bool) returns (ghost moved: seq<Path>)
      requires analyzer.Valid() && currentFolder.Some?
      modifies this`files, this`currentFolder, analyzer`fileDates, analyzer`bitrates, analyzer`fileFormats,
        analyzer`earliestYear, analyzer`firstEpisodeDate, analyzer`lastEpisodeDate,
        analyzer`realFirstEpisodeDate, analyzer`realLastEpisodeDate
      ensures analyzer.Valid() && currentFolder.Some?
      ensures MoveKeys(old(MoveView([])), keys, currentYear, overwrite) == MoveView(moved)
      ensures |files| <= old(|files|)
      ensures |files| == old(|files|) ==> analyzer.CurrentBounds() == old(analyzer.CurrentBounds())
      ensures |files| < old(|files|) ==> analyzer.BoundsFresh()
    {
      ghost var start := MoveView([]);
      moved := [];
      var i := 0;
      while i < |keys|
        invariant 0 <= i <= |keys| && currentFolder.Some?
        invariant analyzer.Valid()
        invariant MoveKeys(start, keys[..i], currentYear, overwrite) == MoveView(moved)
        invariant |files| <= old(|files|)
        invariant |files| == old(|files|) ==>
          analyzer.fileDates == old(analyzer.fileDates) && analyzer.CurrentBounds() == old(analyzer.CurrentBounds())
        invariant |files| < old(|files|) ==> analyzer.BoundsFresh()
      {
        MoveKeysNext(start, keys, i, currentYear, overwrite);
        moved := MoveKey(keys[i], currentYear, overwrite, moved);
        i := i + 1;
      }
      assert keys[..i] == keys;
    }

    /** One key of that loop: the files of a key of the current year move. */
    method MoveKey(k: string, currentYear: int, overwrite: string -> bool, ghost moved: seq<Path>)
      returns (ghost moved': seq<Path>)
      requires analyzer.Valid() && currentFolder.Some?
      modifies this`files, this`currentFolder, analyzer`fileDates, analyzer`bitrates, analyzer`fileFormats,
        analyzer`earliestYear, analyzer`firstEpisodeDate, analyzer`lastEpisodeDate,
        analyzer`realFirstEpisodeDate, analyzer`realLastEpisodeDate
      ensures analyzer.Valid() && currentFolder.Some?
      ensures MoveView(moved') ==
        if MovesKey(k, currentYear) then MoveFiles(old(MoveView(moved)), Lookup(old(analyzer.fileDates), k), overwrite)
        else old(MoveView(moved))
      ensures |files| <= old(|files|)
      ensures |files| == old(|files|) ==>
        analyzer.fileDates == old(analyzer.fileDates) && analyzer.CurrentBounds() == old(analyzer.CurrentBounds())
      ensures |files| < old(|files|) ==> analyzer.BoundsFresh()
    {
      moved' := moved;
      if MovesKey(k, currentYear) {
        moved' := MoveListed(Lookup(analyzer.fileDates, k), overwrite, moved);
      }
    }

    /** The loop over the copy of one year key's list `ps`: each file still in the folder
        moves, unless a file of its name is in the current folder and may not be replaced. */
    method MoveListed(ps: seq<Path>, overwrite: string -> bool, ghost moved: seq<Path>) returns (ghost moved': seq<Path>)
      requires analyzer.Valid() && currentFolder.Some?
      modifies this`files, this`currentFolder, analyzer`fileDates, analyzer`bitrates, analyzer`fileFormats,
        analyzer`earliestYear, analyzer`firstEpisodeDate, analyzer`lastEpisodeDate,
        analyzer`realFirstEpisodeDate, analyzer`realLastEpisodeDate
      ensures analyzer.Valid() && currentFolder.Some?
      ensures MoveFiles(old(MoveView(moved)), ps, overwrite) == MoveView(moved')
      ensures |files| <= old(|files|)
      ensures |files| == old(|files|) ==>
        analyzer.fileDates == old(analyzer.fileDates) && analyzer.CurrentBounds() == old(analyzer.CurrentBounds())
      ensures |files| < old(|files|) ==> analyzer.BoundsFresh()
    {
      ghost var before := MoveView(moved);
      moved' := moved;
      var j := 0;
      while j < |ps|
        invariant 0 <= j <= |ps| && currentFolder.Some?
        invariant analyzer.Valid()
        invariant MoveFiles(before, ps[..j], overwrite) == MoveView(moved')
        invariant |files| <= old(|files|)
        invariant |files| == old(|files|) ==>
          analyzer.fileDates == old(analyzer.fileDates) && analyzer.CurrentBounds() == old(analyzer.CurrentBounds())
        invariant |files| < old(|files|) ==> analyzer.BoundsFresh()
      {
        MoveFilesNext(before, ps, j, overwrite);
        moved' := MoveFile(ps[j], overwrite, moved');
        j := j + 1;
      }
      assert ps[..j] == ps;
    }

    /** The body of that loop, for the file `p`. */
    method MoveFile(p: Path, overwrite: string -> bool, ghost moved: seq<Path>) returns (ghost moved': seq<Path>)
      requires analyzer.Valid() && currentFolder.Some?
      modifies this`files, this`currentFolder, analyzer`fileDates, analyzer`bitrates, analyzer`fileFormats,
        analyzer`earliestYear, analyzer`firstEpisodeDate, analyzer`lastEpisodeDate,
        analyzer`realFirstEpisodeDate, analyzer`realLastEpisodeDate
      ensures analyzer.Valid() && currentFolder.Some?
      ensures MoveStep(old(MoveView(moved)), p, overwrite) == MoveView(moved')
      ensures |files| <= old(|files|)
      ensures |files| == old(|files|) ==>
        analyzer.fileDates == old(analyzer.fileDates) && analyzer.CurrentBounds() == old(analyzer.CurrentBounds())
      ensures |files| < old(|files|) ==> analyzer.BoundsFresh()
    {
      moved' := moved;
      var names := currentFolder.value;
      if p !in files || (p.name in names && !overwrite(p.name)) {
        return;
      }
      files := RemoveFirst(files, p);
      if p.name !in names {
        currentFolder := Some(names + [p.name]);
      }
      analyzer.RemoveFile(p);
      moved' := moved + [p];
    }
  }

  /** The first loop of `pad_episode_numbers`: the entries with an episode number, with
      their first number, in listing order. */
  method NumberedEntries(fs: seq<Path>) returns (found: seq<Hit>)
    ensures found == Hits(Numbers(fs), |fs|)
  {
    found := [];
    var i := 0;
    while i < |fs|
      invariant 0 <= i <= |fs|
      invariant found == Hits(Numbers(fs), i)
    {
      var n := FirstEpisodeNumber(fs[i].name);
      HitsNext(fs, i, n);
      if n.Some? {
        found := found + [Hit(i, n.value)];
      }
      i := i + 1;
    }
  }

  /** `max(ep_num for _, ep_num in files_with_episodes)`, as a loop. */
  method LargestNumber(found: seq<Hit>) returns (largest: nat)
    requires found != []
    ensures largest == MaxNumber(found)
    ensures forall h :: 0 <= h < |found| ==> found[h].number <= largest
  {
    largest := found[0].number;
    var j := 1;
    while j < |found|
      invariant 1 <= j <= |found|
      invariant largest == MaxNumber(found[..j])
    {
      assert found[..j + 1][..j] == found[..j];
      if found[j].number > largest {
        largest := found[j].number;
      }
      j := j + 1;
    }
    assert found[..j] == found;
  }

  /** The rename loop of `pad_episode_numbers`: with `width` the digits of the largest
      number, renaming every hit gives the padded folder. */
  method PadHits(fs: seq<Path>, found: seq<Hit>, width: nat) returns (renamed: seq<Path>)
    requires found == Hits(Numbers(fs), |fs|) && found != []
    requires width == |NatToString(MaxNumber(found))|
    ensures renamed == PaddedFolder(fs)
  {
    renamed := fs;
    PaddedUpToStart(fs, width);
    var k := 0;
    while k < |found|
      invariant 0 <= k <= |found|
      invariant Reached(found, k) <= |fs|
      invariant renamed == PaddedUpTo(fs, width, Reached(found, k))
    {
      PadStep(fs, width, found, k);
      var p := found[k].pos;
      var name := PadAll(fs[p].name, width);
      renamed := renamed[p := WithName(fs[p], name)];
      k := k + 1;
    }
    PadDone(fs, found, width, Reached(found, k));
  }

  /** The first loop of `find_files_without_episode_numbers`: the entries with a date,
      grouped under their first date in listing order. */
  method GroupFiles(fs: seq<Path>) returns (byDate: Buckets<string>)
    ensures byDate == GroupByDate(fs)
  {
    byDate := [];
    var i := 0;
    while i < |fs|
      invariant 0 <= i <= |fs|
      invariant byDate == GroupByDate(fs[..i])
    {
      GroupByDateNext(fs, i);
      var d := FindDate(fs[i].name);
      if d.Some? {
        byDate := Append(byDate, d.value, fs[i]);
      }
      i := i + 1;
    }
    assert fs[..i] == fs;
  }

  /** The second loop: every date with more than one entry keeps its unmarked entries. */
  method CollectUnnumbered(byDate: Buckets<string>) returns (r: Buckets<string>)
    ensures r == Unnumbered(byDate)
  {
    r := [];
    var j := 0;
    while j < |byDate|
      invariant 0 <= j <= |byDate|
      invariant r == Unnumbered(byDate[..j])
    {
      UnnumberedNext(byDate, j);
      var b := byDate[j];
      if |b.paths| != 1 {
        var missing := Unmarked(b.paths);
        if missing != [] {
          r := r + [Bucket(b.key, missing)];
        }
      }
      j := j + 1;
    }
    assert byDate[..j] == byDate;
  }
}
