/** `check_split`: the year rule that decides whether an active podcast spanning several
    years is split, and the move loop that takes the current year's files into the
    "--CURRENT--" folder, removing each from the analyzer as it goes. */
module Split {
  import opened Wrappers
  import opened Text
  import opened Paths
  import opened Buckets
  import opened Timeline

  /** Why the code as written stops with an exception. */
  datatype Crash = TypeErrorOnNone | ValueErrorOnYear

  /** The year rule as written (lines 320-341): completed podcasts and configurations
      without `full_years_only` are skipped; `int(earliest_year)` and
      `last_episode_date[:4]` raise on None; no split when either year is 0, when they are
      equal or when the last year is not the current one; and none when the folder exists
      and the user does not want to proceed. */
  function SplitDecisionAsWritten(completed: bool, fullYearsOnly: bool, earliest: Option<int>, last: Option<string>,
                                  currentYear: int, folderExists: bool, proceed: bool): Result<bool, Crash>
  {
    if completed || !fullYearsOnly then Ok(false)
    else if earliest.None? || last.None? then Err(TypeErrorOnNone)
    else match KeyYear(last.value)
      case None => Err(ValueErrorOnYear)
      case Some(lastYear) =>
        var startYear := earliest.value;
        if startYear == 0 || lastYear == 0 || startYear == lastYear || lastYear != currentYear then Ok(false)
        else Ok(!folderExists || proceed)
  }

  /** The year rule as intended: a podcast without dated files does not span several years
      and is not split. */
  function SplitDecision(completed: bool, fullYearsOnly: bool, earliest: Option<int>, last: Option<string>,
                         currentYear: int, folderExists: bool, proceed: bool): bool
  {
    match SplitDecisionAsWritten(completed, fullYearsOnly, earliest, last, currentYear, folderExists, proceed)
    case Ok(split) => split
    case Err(_) => false
  }

  /** The rule as written raises exactly when a podcast that is to be checked has no
      earliest year or no last episode date, or a last date without a numeric year; where
      it does not raise it agrees with the intended rule. */
  lemma SplitDecisionCrashes(completed: bool, fullYearsOnly: bool, earliest: Option<int>, last: Option<string>,
                             currentYear: int, folderExists: bool, proceed: bool)
    ensures SplitDecisionAsWritten(completed, fullYearsOnly, earliest, last, currentYear, folderExists, proceed).Err? <==>
      !completed && fullYearsOnly && (earliest.None? || last.None? || KeyYear(last.value).None?)
    ensures SplitDecisionAsWritten(completed, fullYearsOnly, earliest, last, currentYear, folderExists, proceed).Ok? ==>
      SplitDecisionAsWritten(completed, fullYearsOnly, earliest, last, currentYear, folderExists, proceed).value ==
      SplitDecision(completed, fullYearsOnly, earliest, last, currentYear, folderExists, proceed)
  {
  }

  /** A podcast is split exactly when it is active, configured for full years only, its
      earliest and last years are non-zero and different, the last year is the current
      one, and the folder is new or the user agrees to reuse it. */
  lemma SplitDecisionMeaning(completed: bool, fullYearsOnly: bool, earliest: Option<int>, last: Option<string>,
                             currentYear: int, folderExists: bool, proceed: bool)
    ensures SplitDecision(completed, fullYearsOnly, earliest, last, currentYear, folderExists, proceed) <==>
      !completed && fullYearsOnly && earliest.Some? && last.Some? && KeyYear(last.value).Some? &&
      earliest.value != 0 && KeyYear(last.value).value == currentYear && currentYear != 0 &&
      earliest.value != currentYear && (folderExists ==> proceed)
  {
  }

  /** A folder whose only files have no date has neither bounds: the rule as written then
      raises `TypeError`, where the intended rule does not split. */
  lemma NoDatedFilesCrash(currentYear: int)
    ensures var b := DateRange(["Unknown"], None);
      b.earliestYear.None? && b.last.None? &&
      SplitDecisionAsWritten(false, true, b.earliestYear, b.last, currentYear, false, false) == Err(TypeErrorOnNone) &&
      !SplitDecision(false, true, b.earliestYear, b.last, currentYear, false, false)
  {
    assert !Dated("Unknown");
    assert ScanKeys(["Unknown"]) == ScanStep(ScanKeys([]), "Unknown");
  }

  /** `int(date[:4])` in the move loop as written: it raises on a key without a numeric
      year, such as "Unknown". */
  function KeyYearAsWritten(k: string): Result<int, Crash>
  {
    match KeyYear(k)
    case None => Err(ValueErrorOnYear)
    case Some(y) => Ok(y)
  }

  /** The bucket of undated files makes the loop as written raise. */
  lemma UnknownKeyCrashes()
    ensures KeyYearAsWritten("Unknown") == Err(ValueErrorOnYear)
    ensures forall year :: !MovesKey("Unknown", year)
  {
    assert "Unknown"[..4] == "Unkn";
    assert Strip("Unkn") == "Unkn";
  }

  /** The intended key test of the move loop: the key's year is the current year, and a key
      without a numeric year is skipped. */
  predicate MovesKey(k: string, year: int)
  {
    KeyYear(k) == Some(year)
  }

  /** Where the loop as written does not raise, it moves exactly the keys the intended test
      moves. */
  lemma MovesKeyAgrees(k: string, year: int)
    ensures KeyYearAsWritten(k).Ok? ==> (KeyYearAsWritten(k).value == year <==> MovesKey(k, year))
    ensures KeyYearAsWritten(k).Err? <==> !MovesKey(k, year) && KeyYear(k).None?
  {
  }

  /** What the move loop works on: the podcast folder, the names in the "--CURRENT--"
      folder, the analyzer's three maps, and the files moved so far. */
  datatype MoveState = MoveState(
    files: seq<Path>,
    current: seq<string>,
    dates: Buckets<string>,
    bitrates: Buckets<string>,
    formats: Buckets<string>,
    moved: seq<Path>)

  /** One file of a year's list: a file no longer in the folder is skipped, as is one whose
      name the current folder already has when the user does not want it overwritten;
      otherwise the file moves (replacing the file of the same name) and `remove_file`
      takes it out of the analyzer's maps. */
  function MoveStep(st: MoveState, p: Path, overwrite: string -> bool): MoveState
  {
    if p !in st.files then st
    else if p.name in st.current && !overwrite(p.name) then st
    else MoveState(
      RemoveFirst(st.files, p),
      if p.name in st.current then st.current else st.current + [p.name],
      Prune(RemoveFromAll(st.dates, p)),
      RemoveFromAll(st.bitrates, p),
      RemoveFromAll(st.formats, p),
      st.moved + [p])
  }

  /** The loop over the copy `year_list[:]` of one key's list. */
  function MoveFiles(st: MoveState, ps: seq<Path>, overwrite: string -> bool): MoveState
  {
    if ps == [] then st else MoveStep(MoveFiles(st, ps[..|ps| - 1], overwrite), ps[|ps| - 1], overwrite)
  }

  /** The loop over the keys of `file_dates` as they were when it began. The list of a key
      is read when the key is reached: `remove_file` rebuilds `file_dates` without its empty
      lists but shares the lists themselves, so what the loop sees under a key is the
      current list under it, or an empty one. */
  function MoveKeys(st: MoveState, keys: seq<string>, year: int, overwrite: string -> bool): MoveState
  {
    if keys == [] then st
    else
      var before := MoveKeys(st, keys[..|keys| - 1], year, overwrite);
      var k := keys[|keys| - 1];
      if MovesKey(k, year) then MoveFiles(before, Lookup(before.dates, k), overwrite) else before
  }

  /** One more file of a list's loop. */
  lemma MoveFilesNext(st: MoveState, ps: seq<Path>, j: nat, overwrite: string -> bool)
    requires j < |ps|
    ensures MoveFiles(st, ps[..j + 1], overwrite) == MoveStep(MoveFiles(st, ps[..j], overwrite), ps[j], overwrite)
  {
    assert ps[..j + 1][..j] == ps[..j] && ps[..j + 1][j] == ps[j];
  }

  /** One more key of the loop. */
  lemma MoveKeysNext(st: MoveState, keys: seq<string>, i: nat, year: int, overwrite: string -> bool)
    requires i < |keys|
    ensures var before := MoveKeys(st, keys[..i], year, overwrite);
      MoveKeys(st, keys[..i + 1], year, overwrite) ==
        if MovesKey(keys[i], year) then MoveFiles(before, Lookup(before.dates, keys[i]), overwrite) else before
  {
    assert keys[..i + 1][..i] == keys[..i];
  }

  /** `p` is listed under a key of the given year. */
  ghost predicate InYear(d: Buckets<string>, year: int, p: Path)
  {
    exists i :: 0 <= i < |d| && MovesKey(d[i].key, year) && p in d[i].paths
  }

  /** A path in a list read from the map is listed under that key. */
  lemma {:induction false} LookupListed(d: Buckets<string>, k: string, p: Path)
    requires p in Lookup(d, k)
    ensures exists i :: 0 <= i < |d| && d[i].key == k && p in d[i].paths
  {
    if d[0].key != k {
      LookupListed(d[1..], k, p);
      var i :| 0 <= i < |d[1..]| && d[1..][i].key == k && p in d[1..][i].paths;
      assert d[i + 1] == d[1..][i];
    }
  }

  /** Dropping the empty lists lists nothing new under any year. */
  lemma PruneShrinks(d: Buckets<string>, year: int, p: Path)
    requires InYear(Prune(d), year, p)
    ensures InYear(d, year, p)
  {
    var pruned := Prune(d);
    var i :| 0 <= i < |pruned| && MovesKey(pruned[i].key, year) && p in pruned[i].paths;
    assert pruned[i] in d;
    var j :| 0 <= j < |d| && d[j] == pruned[i];
    assert MovesKey(d[j].key, year) && p in d[j].paths;
  }

  /** Removing a file from every list lists nothing new under any year. */
  lemma RemoveShrinks(d: Buckets<string>, q: Path, year: int, p: Path)
    requires InYear(RemoveFromAll(d, q), year, p)
    ensures InYear(d, year, p)
  {
    var removed := RemoveFromAll(d, q);
    var i :| 0 <= i < |removed| && MovesKey(removed[i].key, year) && p in removed[i].paths;
    assert removed[i].key == Keys(removed)[i] == Keys(d)[i] == d[i].key;
    assert p in multiset(removed[i].paths);
    assert MovesKey(d[i].key, year) && p in d[i].paths;
  }

  /** `remove_file` lists nothing new under any year. */
  lemma RemovalShrinks(d: Buckets<string>, q: Path, year: int, p: Path)
    requires InYear(Prune(RemoveFromAll(d, q)), year, p)
    ensures InYear(d, year, p)
  {
    PruneShrinks(RemoveFromAll(d, q), year, p);
    RemoveShrinks(d, q, year, p);
  }

  /** What a move loop guarantees about a state it leaves: nothing new in the folder or
      in the maps, every file in the folder or among the moved ones exactly as often as
      before, and every newly moved file taken from the folder and from `allowed`. */
  ghost predicate MovesOnly(st: MoveState, st': MoveState, allowed: Path -> bool)
  {
    multiset(st'.files) + multiset(st'.moved) == multiset(st.files) + multiset(st.moved) &&
    (forall p :: p in st'.files ==> p in st.files) &&
    (forall p :: p in st'.moved ==> p in st.moved || (p in st.files && allowed(p)))
  }

  /** One file: either nothing changes, or the file leaves the folder for the moved ones
      and the maps lose it. */
  lemma StepMoves(st: MoveState, p: Path, overwrite: string -> bool, year: int)
    ensures var st' := MoveStep(st, p, overwrite);
      MovesOnly(st, st', q => q == p) &&
      forall q :: InYear(st'.dates, year, q) ==> InYear(st.dates, year, q)
  {
    if p in st.files && !(p.name in st.current && !overwrite(p.name)) {
      var files := RemoveFirst(st.files, p);
      var moved := st.moved + [p];
      var dates := Prune(RemoveFromAll(st.dates, p));
      assert MoveStep(st, p, overwrite).files == files;
      assert MoveStep(st, p, overwrite).moved == moved;
      assert MoveStep(st, p, overwrite).dates == dates;
      StepFiles(st.files, st.moved, p);
      forall q | InYear(dates, year, q) ensures InYear(st.dates, year, q) {
        RemovalShrinks(st.dates, p, year, q);
      }
    }
  }

  /** Moving a file of the folder keeps every file, in the folder or among the moved ones. */
  lemma StepFiles(files: seq<Path>, moved: seq<Path>, p: Path)
    requires p in files
    ensures multiset(RemoveFirst(files, p)) + multiset(moved + [p]) == multiset(files) + multiset(moved)
    ensures forall q :: q in RemoveFirst(files, p) ==> q in files
    ensures forall q :: q in moved + [p] ==> q in moved || q == p
  {
    forall q | q in RemoveFirst(files, p) ensures q in files {
      assert q in multiset(RemoveFirst(files, p));
    }
  }

  /** The loop over one list moves files of that list only, and shrinks the map. */
  lemma {:induction false} FilesMove(st: MoveState, ps: seq<Path>, overwrite: string -> bool, year: int)
    ensures var st' := MoveFiles(st, ps, overwrite);
      MovesOnly(st, st', q => q in ps) &&
      forall q :: InYear(st'.dates, year, q) ==> InYear(st.dates, year, q)
  {
    if ps != [] {
      var init, p := ps[..|ps| - 1], ps[|ps| - 1];
      FilesMove(st, init, overwrite, year);
      var mid := MoveFiles(st, init, overwrite);
      StepMoves(mid, p, overwrite, year);
      var st' := MoveFiles(st, ps, overwrite);
      forall q | q in st'.moved ensures q in st.moved || (q in st.files && q in ps) {
        if q !in mid.moved {
          assert q == p;
        }
      }
    }
  }

  /** The whole move loop moves only files that were in the folder and listed under a key
      of the current year, and loses none: every file is still in the folder or among the
      moved ones, as often as before. */
  lemma {:induction false} KeysMove(st: MoveState, keys: seq<string>, year: int, overwrite: string -> bool)
    ensures var st' := MoveKeys(st, keys, year, overwrite);
      MovesOnly(st, st', q => InYear(st.dates, year, q)) &&
      forall q :: InYear(st'.dates, year, q) ==> InYear(st.dates, year, q)
  {
    if keys != [] {
      var init, k := keys[..|keys| - 1], keys[|keys| - 1];
      KeysMove(st, init, year, overwrite);
      var before := MoveKeys(st, init, year, overwrite);
      if MovesKey(k, year) {
        var ps := Lookup(before.dates, k);
        FilesMove(before, ps, overwrite, year);
        var st' := MoveKeys(st, keys, year, overwrite);
        forall q | q in st'.moved ensures q in st.moved || (q in st.files && InYear(st.dates, year, q)) {
          if q !in before.moved {
            LookupListed(before.dates, k, q);
            assert InYear(before.dates, year, q);
          }
        }
      }
    }
  }

  /** A file of the folder not listed under the current year stays in the folder. */
  lemma OtherFilesStay(st: MoveState, keys: seq<string>, year: int, overwrite: string -> bool, p: Path)
    requires p in st.files && p !in st.moved && !InYear(st.dates, year, p)
    ensures p in MoveKeys(st, keys, year, overwrite).files
  {
    KeysMove(st, keys, year, overwrite);
    var st' := MoveKeys(st, keys, year, overwrite);
    assert p !in st'.moved;
    assert (multiset(st'.files) + multiset(st'.moved))[p] == (multiset(st.files) + multiset(st.moved))[p];
  }
}
