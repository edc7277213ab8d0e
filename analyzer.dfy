/** `FileAnalyzer`: scans a podcast folder, files every analysed episode under a date key,
    a bitrate key and a format key, records durations, and keeps the timeline bounds of the
    current scan and of the snapshot taken before the first rescan. */
module Analyzer {
  import opened Wrappers
  import opened Text
  import opened Paths
  import opened Buckets
  import opened Dates
  import opened Tags
  import opened Timeline

  /** One entry of the folder listing: its path, what the tag reader makes of it, and its
      modification date (None when it cannot be read). */
  datatype AudioFile = AudioFile(path: Path, probe: Probe, mtime: Option<string>)

  /** The maps a scan builds, `all_vbr`, whether no file has been analysed yet, and whether
      an exception has left the loop. */
  datatype ScanState = ScanState(
    dates: Buckets<string>,
    bitrates: Buckets<string>,
    formats: Buckets<string>,
    durations: Buckets<real>,
    allVbr: bool,
    allBad: bool,
    raised: bool)

  const EmptyScan: ScanState := ScanState([], [], [], [], true, true, false)

  /** A file the scan analyses: an `.mp3` or `.m4a` name that yields metadata. */
  predicate Analysed(f: AudioFile)
  {
    IsAudioName(f.path.name) && AudioMetadata(f.probe).Meta?
  }

  /** A file whose analysis raises: an MP4 whose date lookup fails. */
  predicate Aborts(f: AudioFile)
  {
    IsAudioName(f.path.name) && AudioMetadata(f.probe).Abort?
  }

  /** Some file of the listing raises. */
  predicate RaisedIn(files: seq<AudioFile>)
  {
    exists i :: 0 <= i < |files| && Aborts(files[i])
  }

  /** The durations map after `analyze_audio_file` has seen `f`. */
  function DurationsAfter(d: Buckets<real>, f: AudioFile, patterns: seq<string>): Buckets<real>
  {
    if CountsDuration(f.probe, f.path.name, patterns) then Append(d, f.probe.length, f.path) else d
  }

  /** One iteration of the scan loop of `analyze_files`. After an exception no further
      file is seen; the file that raised has had its duration recorded. */
  function ScanFile(st: ScanState, f: AudioFile, patterns: seq<string>, parse: string -> Option<string>): ScanState
  {
    if st.raised || !IsAudioName(f.path.name) then st
    else match AudioMetadata(f.probe)
      case Skip => st
      case Abort => st.(durations := DurationsAfter(st.durations, f, patterns), raised := true)
      case Meta(md) =>
        ScanState(
          Append(st.dates, DateKey(md.recordingDate, f.path.name, f.mtime, parse), f.path),
          Append(st.bitrates, BitrateKey(md), f.path),
          Append(st.formats, FormatOf(f.path.name), f.path),
          DurationsAfter(st.durations, f, patterns),
          st.allVbr && md.vbr,
          false,
          false)
  }

  /** The scan loop over the folder listing in order. */
  function Scan(files: seq<AudioFile>, patterns: seq<string>, parse: string -> Option<string>): ScanState
  {
    if files == [] then EmptyScan
    else ScanFile(Scan(files[..|files| - 1], patterns, parse), files[|files| - 1], patterns, parse)
  }

  lemma ScanFileSnoc(files: seq<AudioFile>, f: AudioFile, patterns: seq<string>, parse: string -> Option<string>)
    ensures Scan(files + [f], patterns, parse) == ScanFile(Scan(files, patterns, parse), f, patterns, parse)
  {
    assert (files + [f])[..|files|] == files;
  }

  /** One more file of the listing. */
  lemma ScanNext(files: seq<AudioFile>, i: nat, patterns: seq<string>, parse: string -> Option<string>)
    requires i < |files|
    ensures Scan(files[..i + 1], patterns, parse) == ScanFile(Scan(files[..i], patterns, parse), files[i], patterns, parse)
  {
    assert files[..i + 1] == files[..i] + [files[i]];
    ScanFileSnoc(files[..i], files[i], patterns, parse);
  }

  /** Once the loop has raised, the rest of the listing changes nothing. */
  lemma {:induction false} ScanAfterRaise(files: seq<AudioFile>, i: nat, patterns: seq<string>, parse: string -> Option<string>)
    requires i <= |files|
    requires i < |files| ==> Scan(files[..i], patterns, parse).raised
    ensures Scan(files, patterns, parse) == Scan(files[..i], patterns, parse)
    decreases |files| - i
  {
    if i < |files| {
      ScanNext(files, i, patterns, parse);
      ScanAfterRaise(files, i + 1, patterns, parse);
    } else {
      assert files[..i] == files;
    }
  }

  /** What one file does to the flags of a scan. */
  lemma ScanFileFlags(st: ScanState, f: AudioFile, patterns: seq<string>, parse: string -> Option<string>)
    ensures var r := ScanFile(st, f, patterns, parse);
      r.allVbr == (st.allVbr && (st.raised || !Analysed(f) || AudioMetadata(f.probe).md.vbr)) &&
      r.allBad == (st.allBad && (st.raised || !Analysed(f))) &&
      r.raised == (st.raised || Aborts(f))
  {
  }

  /** A format key is only added for an analysed file. */
  lemma ScanFileFormats(st: ScanState, f: AudioFile, patterns: seq<string>, parse: string -> Option<string>, r: ScanState)
    requires r == ScanFile(st, f, patterns, parse)
    ensures forall k :: k in Keys(r.formats) ==> k in Keys(st.formats) || (Analysed(f) && k == FormatOf(f.path.name))
  {
    if st.raised || !IsAudioName(f.path.name) || !AudioMetadata(f.probe).Meta? {
      assert r.formats == st.formats;
    } else {
      var fmt := FormatOf(f.path.name);
      assert Analysed(f);
      assert r.formats == Append(st.formats, fmt, f.path);
      assert Keys(r.formats) == if fmt in Keys(st.formats) then Keys(st.formats) else Keys(st.formats) + [fmt];
    }
  }

  /** One file keeps the keys of every map unique. */
  lemma ScanFileUnique(st: ScanState, f: AudioFile, patterns: seq<string>, parse: string -> Option<string>, r: ScanState)
    requires r == ScanFile(st, f, patterns, parse)
    requires UniqueKeys(st.dates) && UniqueKeys(st.bitrates) && UniqueKeys(st.formats) && UniqueKeys(st.durations)
    ensures UniqueKeys(r.dates) && UniqueKeys(r.bitrates) && UniqueKeys(r.formats) && UniqueKeys(r.durations)
  {
    if !st.raised && Analysed(f) {
      var md := AudioMetadata(f.probe).md;
      assert r.dates == Append(st.dates, DateKey(md.recordingDate, f.path.name, f.mtime, parse), f.path);
      assert r.bitrates == Append(st.bitrates, BitrateKey(md), f.path);
      assert r.formats == Append(st.formats, FormatOf(f.path.name), f.path);
      assert r.durations == DurationsAfter(st.durations, f, patterns);
    } else {
      assert r.dates == st.dates && r.bitrates == st.bitrates && r.formats == st.formats;
      assert r.durations == st.durations || r.durations == DurationsAfter(st.durations, f, patterns);
    }
  }

  /** The number of analysed files the loop reaches before an exception. */
  function AnalysedCount(files: seq<AudioFile>): nat
  {
    if files == [] then 0
    else
      var init := files[..|files| - 1];
      AnalysedCount(init) + (if !RaisedIn(init) && Analysed(files[|files| - 1]) then 1 else 0)
  }

  lemma RaisedInSnoc(init: seq<AudioFile>, f: AudioFile)
    ensures RaisedIn(init + [f]) <==> RaisedIn(init) || Aborts(f)
  {
    var files := init + [f];
    assert forall i :: 0 <= i < |init| ==> files[i] == init[i];
    assert files[|init|] == f;
  }

  /** The scan has raised exactly when some file of the listing raises. */
  lemma {:induction false} ScanRaised(files: seq<AudioFile>, patterns: seq<string>, parse: string -> Option<string>)
    ensures Scan(files, patterns, parse).raised <==> RaisedIn(files)
  {
    if files != [] {
      var init, f := files[..|files| - 1], files[|files| - 1];
      assert files == init + [f];
      ScanRaised(init, patterns, parse);
      ScanFileFlags(Scan(init, patterns, parse), f, patterns, parse);
      RaisedInSnoc(init, f);
    }
  }

  /** A file whose tag container is absent or empty is skipped before anything is recorded:
      no bucket, no duration, and `all_bad` and the raise flag as they were. */
  lemma UntaggedSkipped(st: ScanState, f: AudioFile, patterns: seq<string>, parse: string -> Option<string>)
    requires Untagged(f.probe)
    ensures !Analysed(f) && !Aborts(f)
    ensures ScanFile(st, f, patterns, parse) == st
  {
  }

  /** One step of the scan files the file in all three maps, or in none of them. */
  lemma ScanFileTotals(st: ScanState, f: AudioFile, patterns: seq<string>, parse: string -> Option<string>)
    ensures var r, n := ScanFile(st, f, patterns, parse), if !st.raised && Analysed(f) then 1 else 0;
      Total(r.dates) == Total(st.dates) + n && Total(r.bitrates) == Total(st.bitrates) + n &&
      Total(r.formats) == Total(st.formats) + n && r.allBad == (st.allBad && n == 0) &&
      (n == 0 ==> r.dates == st.dates && r.bitrates == st.bitrates && r.formats == st.formats)
  {
    if !st.raised && Analysed(f) {
      var md := AudioMetadata(f.probe).md;
      AppendTotal(st.dates, DateKey(md.recordingDate, f.path.name, f.mtime, parse), f.path);
      AppendTotal(st.bitrates, BitrateKey(md), f.path);
      AppendTotal(st.formats, FormatOf(f.path.name), f.path);
    }
  }

  /** Every analysed file the loop reaches is filed exactly once in each of the three
      bucket maps, and the scan stays "all bad" exactly when no file was analysed. */
  lemma {:induction false} ScanFilesEachOnce(files: seq<AudioFile>, patterns: seq<string>, parse: string -> Option<string>)
    ensures var s := Scan(files, patterns, parse);
      Total(s.dates) == AnalysedCount(files) && Total(s.bitrates) == AnalysedCount(files) &&
      Total(s.formats) == AnalysedCount(files) &&
      (s.allBad <==> AnalysedCount(files) == 0) &&
      (s.allBad ==> s.dates == [] && s.bitrates == [] && s.formats == [])
  {
    if files != [] {
      var init, f := files[..|files| - 1], files[|files| - 1];
      ScanFilesEachOnce(init, patterns, parse);
      ScanRaised(init, patterns, parse);
      var p := Scan(init, patterns, parse);
      assert Scan(files, patterns, parse) == ScanFile(p, f, patterns, parse);
      ScanFileTotals(p, f, patterns, parse);
    }
  }

  /** A scan that analysed no file has an empty date map. */
  lemma AllBadNoDates(files: seq<AudioFile>, patterns: seq<string>, parse: string -> Option<string>)
    ensures Scan(files, patterns, parse).allBad ==> Scan(files, patterns, parse).dates == []
  {
    ScanFilesEachOnce(files, patterns, parse);
  }

  /** Every analysed file the loop reaches before an exception is in VBR mode. */
  predicate AllAnalysedVbr(files: seq<AudioFile>)
  {
    forall i :: 0 <= i < |files| && Analysed(files[i]) && !RaisedIn(files[..i]) ==>
      AudioMetadata(files[i].probe).md.vbr
  }

  lemma AllAnalysedVbrSnoc(init: seq<AudioFile>, f: AudioFile)
    ensures AllAnalysedVbr(init + [f]) <==>
      AllAnalysedVbr(init) && (RaisedIn(init) || !Analysed(f) || AudioMetadata(f.probe).md.vbr)
  {
    var files := init + [f];
    assert forall i :: 0 <= i <= |init| ==> files[..i] == init[..i];
    assert forall i :: 0 <= i < |init| ==> files[i] == init[i];
    assert files[|init|] == f;
    assert files[..|init|] == init;
  }

  /** `all_vbr` survives the scan exactly when every analysed file the loop reaches is in
      VBR mode. */
  lemma {:induction false} ScanAllVbr(files: seq<AudioFile>, patterns: seq<string>, parse: string -> Option<string>)
    ensures Scan(files, patterns, parse).allVbr <==> AllAnalysedVbr(files)
  {
    if files != [] {
      var init, f := files[..|files| - 1], files[|files| - 1];
      assert files == init + [f];
      ScanAllVbr(init, patterns, parse);
      ScanRaised(init, patterns, parse);
      ScanFileFlags(Scan(init, patterns, parse), f, patterns, parse);
      AllAnalysedVbrSnoc(init, f);
    }
  }

  /** Only the formats "mp3" and "m4a" occur, and each map keeps its keys unique. */
  lemma {:induction false} ScanKeysWellFormed(files: seq<AudioFile>, patterns: seq<string>, parse: string -> Option<string>)
    ensures var s := Scan(files, patterns, parse);
      (forall k :: k in Keys(s.formats) ==> k == "mp3" || k == "m4a") &&
      UniqueKeys(s.dates) && UniqueKeys(s.bitrates) && UniqueKeys(s.formats) && UniqueKeys(s.durations)
  {
    if files != [] {
      var init, f := files[..|files| - 1], files[|files| - 1];
      ScanKeysWellFormed(init, patterns, parse);
      var p := Scan(init, patterns, parse);
      ScanFileFormats(p, f, patterns, parse, Scan(files, patterns, parse));
      ScanFileUnique(p, f, patterns, parse, Scan(files, patterns, parse));
      if Analysed(f) {
        AudioFormats(f.path.name);
      }
    }
  }

  /** The largest value of a non-empty list. */
  function MaxOf(xs: seq<real>): (r: Option<real>)
    ensures r.None? <==> xs == []
    ensures r.Some? ==> r.value in xs && forall x :: x in xs ==> x <= r.value
  {
    if xs == [] then None
    else
      assert forall x :: x in xs ==> x == xs[0] || x in xs[1..];
      match MaxOf(xs[1..])
      case None => Some(xs[0])
      case Some(m) => Some(if xs[0] < m then m else xs[0])
  }

  /** The smallest value of a non-empty list. */
  function MinOf(xs: seq<real>): (r: Option<real>)
    ensures r.None? <==> xs == []
    ensures r.Some? ==> r.value in xs && forall x :: x in xs ==> r.value <= x
  {
    if xs == [] then None
    else
      assert forall x :: x in xs ==> x == xs[0] || x in xs[1..];
      match MinOf(xs[1..])
      case None => Some(xs[0])
      case Some(m) => Some(if m < xs[0] then m else xs[0])
  }

  /** The loop `for l in d.values(): if p in l: l.remove(p)`. */
  method RemoveEach<K>(b: Buckets<K>, p: Path) returns (r: Buckets<K>)
    ensures r == RemoveFromAll(b, p)
  {
    r := [];
    var i := 0;
    while i < |b|
      invariant 0 <= i <= |b| && |r| == i
      invariant forall j :: 0 <= j < i ==> r[j] == Bucket(b[j].key, RemoveFirst(b[j].paths, p))
    {
      var paths := b[i].paths;
      if p in paths {
        paths := RemoveFirst(paths, p);
      }
      r := r + [Bucket(b[i].key, paths)];
      i := i + 1;
    }
    assert forall j :: 0 <= j < |b| ==> r[j] == RemoveFromAll(b, p)[j];
  }

  /** The loop `for l in d.values(): if src in l: l.remove(src); l.append(dst)`. */
  method RenameEach<K>(b: Buckets<K>, src: Path, dst: Path) returns (r: Buckets<K>)
    ensures r == RenameInAll(b, src, dst)
  {
    r := [];
    var i := 0;
    while i < |b|
      invariant 0 <= i <= |b| && |r| == i
      invariant forall j :: 0 <= j < i ==> r[j] == RenameInAll(b, src, dst)[j]
    {
      var paths := b[i].paths;
      if src in paths {
        paths := RemoveFirst(paths, src) + [dst];
      }
      r := r + [Bucket(b[i].key, paths)];
      i := i + 1;
    }
  }

  class FileAnalyzer {
    var fileDates: Buckets<string>
    var bitrates: Buckets<string>
    var fileFormats: Buckets<string>
    var durations: Buckets<real>
    var allVbr: bool
    var earliestYear: Option<int>
    var firstEpisodeDate: Option<string>
    var lastEpisodeDate: Option<string>
    var realFirstEpisodeDate: Option<string>
    var realLastEpisodeDate: Option<string>
    var originalFiles: Option<Buckets<string>>

    /** Every map is a dictionary: each key once. */
    ghost predicate Valid()
      reads this
    {
      UniqueKeys(fileDates) && UniqueKeys(bitrates) && UniqueKeys(fileFormats) && UniqueKeys(durations)
    }

    function CurrentBounds(): Bounds
      reads this
    {
      Bounds(earliestYear, firstEpisodeDate, lastEpisodeDate, realFirstEpisodeDate, realLastEpisodeDate)
    }

    /** The bounds are those `get_date_range` computes from the current date keys and the
        snapshot. */
    ghost predicate BoundsFresh()
      reads this
    {
      CurrentBounds() == DateRange(Keys(fileDates), OriginalKeys())
    }

    /** The snapshot's keys, in its order. */
    function OriginalKeys(): Option<seq<string>>
      reads this
    {
      match originalFiles
      case None => None
      case Some(o) => Some(Keys(o))
    }

    /** A fresh analyser: no buckets, no bounds, no snapshot. */
    constructor ()
      ensures Valid()
      ensures fileDates == [] && bitrates == [] && fileFormats == [] && durations == []
      ensures CurrentBounds() == NoBounds && originalFiles == None
    {
      fileDates, bitrates, fileFormats, durations := [], [], [], [];
      allVbr := true;
      earliestYear, firstEpisodeDate, lastEpisodeDate := None, None, None;
      realFirstEpisodeDate, realLastEpisodeDate := None, None;
      originalFiles := None;
    }

    /** `analyze_audio_file`: the metadata of `f` (`Skip` when it is neither an MP3 nor an
        MP4 or has no tags, `Abort` when the MP4 date lookup raises), its duration recorded
        when it counts (before the lookup can raise), and `all_vbr` cleared by a file that
        is not in VBR mode. */
    method AnalyzeAudioFile(f: AudioFile, patterns: seq<string>) returns (md: Analysis)
      requires Valid()
      modifies this`durations, this`allVbr
      ensures Valid()
      ensures md == AudioMetadata(f.probe)
      ensures durations == DurationsAfter(old(durations), f, patterns)
      ensures allVbr == (old(allVbr) && (!md.Meta? || md.md.vbr))
    {
      if f.probe.Unreadable? || Untagged(f.probe) {
        return Skip;
      }
      if !IsTrailerName(f.path.name, patterns) && (f.probe.Mp3? || f.probe.Mp4?) && f.probe.length != 0.0 {
        durations := Append(durations, f.probe.length, f.path);
      }
      md := AudioMetadata(f.probe);
      if md.Meta? && !md.md.vbr {
        allVbr := false;
      }
    }

    /** The body of the scan loop of `analyze_files` for one listing entry; `raised` is
        set when the analysis of the entry raises. */
    method ScanOne(f: AudioFile, patterns: seq<string>, parse: string -> Option<string>, allBad: bool)
      returns (allBad': bool, raised: bool)
      requires Valid()
      modifies this`fileDates, this`bitrates, this`fileFormats, this`durations, this`allVbr
      ensures Valid()
      ensures ScanState(fileDates, bitrates, fileFormats, durations, this.allVbr, allBad', raised) ==
        ScanFile(ScanState(old(fileDates), old(bitrates), old(fileFormats), old(durations), old(this.allVbr), allBad, false),
          f, patterns, parse)
    {
      allBad', raised := allBad, false;
      if IsAudioName(f.path.name) {
        var md := AnalyzeAudioFile(f, patterns);
        if md.Abort? {
          raised := true;
        } else if md.Meta? {
          allBad' := false;
          ProcessMetadata(md.md, f, parse);
        }
      }
    }

    /** `process_metadata`: `f` is appended to its date bucket, its bitrate bucket and its
        format bucket. */
    method ProcessMetadata(md: Metadata, f: AudioFile, parse: string -> Option<string>)
      requires Valid()
      modifies this`fileDates, this`bitrates, this`fileFormats
      ensures Valid()
      ensures fileDates == Append(old(fileDates), DateKey(md.recordingDate, f.path.name, f.mtime, parse), f.path)
      ensures bitrates == Append(old(bitrates), BitrateKey(md), f.path)
      ensures fileFormats == Append(old(fileFormats), FormatOf(f.path.name), f.path)
    {
      var dateKey := DateKey(md.recordingDate, f.path.name, f.mtime, parse);
      var bitrateKey := BitrateKey(md);
      var format := FormatOf(f.path.name);
      AddToBuckets(dateKey, bitrateKey, format, f.path);
    }

    /** The three appends of `process_metadata`, once the keys are known. */
    method AddToBuckets(dateKey: string, bitrateKey: string, format: string, p: Path)
      requires Valid()
      modifies this`fileDates, this`bitrates, this`fileFormats
      ensures Valid()
      ensures fileDates == Append(old(fileDates), dateKey, p)
      ensures bitrates == Append(old(bitrates), bitrateKey, p)
      ensures fileFormats == Append(old(fileFormats), format, p)
    {
      var d, b, m := fileDates, bitrates, fileFormats;
      assert UniqueKeys(d) && UniqueKeys(b) && UniqueKeys(m) && UniqueKeys(durations);
      var d', b', m' := Append(d, dateKey, p), Append(b, bitrateKey, p), Append(m, format, p);
      assert UniqueKeys(d') && UniqueKeys(b') && UniqueKeys(m');
      fileDates, bitrates, fileFormats := d', b', m';
    }

    /** `get_date_range`: empty buckets are dropped, then the bounds are recomputed from
        the remaining keys and, when there is a non-empty snapshot, its keys. */
    method GetDateRange()
      requires Valid()
      modifies this`fileDates, this`earliestYear, this`firstEpisodeDate, this`lastEpisodeDate,
        this`realFirstEpisodeDate, this`realLastEpisodeDate
      ensures Valid()
      ensures fileDates == Prune(old(fileDates))
      ensures CurrentBounds() == DateRange(Keys(fileDates), OriginalKeys())
    {
      fileDates := Prune(fileDates);
      ScanCurrentKeys();
      if originalFiles.Some? && originalFiles.value != [] {
        ExtendFromSnapshot();
      }
    }

    /** The first loop of `get_date_range`: clears the bounds and runs over the current
        keys in order. */
    method ScanCurrentKeys()
      modifies this`earliestYear, this`firstEpisodeDate, this`lastEpisodeDate,
        this`realFirstEpisodeDate, this`realLastEpisodeDate
      ensures CurrentBounds() == ScanKeys(Keys(fileDates))
    {
      earliestYear, firstEpisodeDate, realFirstEpisodeDate := None, None, None;
      lastEpisodeDate, realLastEpisodeDate := None, None;
      var keys := Keys(fileDates);
      var i := 0;
      while i < |keys|
        invariant 0 <= i <= |keys|
        invariant CurrentBounds() == ScanKeys(keys[..i])
      {
        ScanKeysNext(keys, i);
        ScanKey(keys[i]);
        i := i + 1;
      }
      assert keys[..i] == keys;
    }

    /** One iteration of the first loop of `get_date_range`. */
    method ScanKey(k: string)
      modifies this`earliestYear, this`firstEpisodeDate, this`lastEpisodeDate,
        this`realFirstEpisodeDate, this`realLastEpisodeDate
      ensures CurrentBounds() == ScanStep(old(CurrentBounds()), k)
    {
      if k != "Unknown" {
        var year := KeyYear(k);
        if year.Some? {
          var y := year.value;
          if earliestYear.None? || (y != 0 && y < earliestYear.value) {
            earliestYear := Some(y);
          }
          if firstEpisodeDate.None? || LexLess(k, firstEpisodeDate.value) {
            firstEpisodeDate, realFirstEpisodeDate := Some(k), Some(k);
          }
          if lastEpisodeDate.None? || LexLess(lastEpisodeDate.value, k) {
            lastEpisodeDate, realLastEpisodeDate := Some(k), Some(k);
          }
        }
      }
    }

    /** The second loop of `get_date_range`: widens the real bounds over the snapshot's
        keys in order. */
    method ExtendFromSnapshot()
      requires originalFiles.Some?
      modifies this`realFirstEpisodeDate, this`realLastEpisodeDate
      ensures CurrentBounds() == ExtendKeys(old(CurrentBounds()), Keys(originalFiles.value))
    {
      var oks := Keys(originalFiles.value);
      var j := 0;
      while j < |oks|
        invariant 0 <= j <= |oks|
        invariant CurrentBounds() == ExtendKeys(old(CurrentBounds()), oks[..j])
      {
        var k := oks[j];
        ExtendKeysNext(old(CurrentBounds()), oks, j);
        if k != "Unknown" {
          if realFirstEpisodeDate.None? || (k != "" && LexLess(k, realFirstEpisodeDate.value)) {
            realFirstEpisodeDate := Some(k);
          }
          if realLastEpisodeDate.None? || (k != "" && LexLess(realLastEpisodeDate.value, k)) {
            realLastEpisodeDate := Some(k);
          }
        }
        j := j + 1;
      }
      assert oks[..j] == oks;
    }

    /** `analyze_files`: takes the snapshot (only when the date map is non-empty and there
        is no non-empty snapshot yet), rebuilds every map from the folder listing, and, when
        some file was analysed, sorts the date map by key and recomputes the bounds. When no
        file was analysed the bounds are left as they were. `raised` reports the exception
        an MP4 date lookup lets out: the maps then hold what the loop filed before it, and
        neither the sort nor the bounds happen. */
    method AnalyzeFiles(files: seq<AudioFile>, patterns: seq<string>, parse: string -> Option<string>)
      returns (raised: bool)
      requires Valid()
      modifies this
      ensures Valid()
      ensures raised <==> RaisedIn(files)
      ensures originalFiles ==
        if old(fileDates) != [] && (old(originalFiles).None? || old(originalFiles).value == [])
        then Some(old(fileDates)) else old(originalFiles)
      ensures bitrates == Scan(files, patterns, parse).bitrates && fileFormats == Scan(files, patterns, parse).formats
      ensures durations == Scan(files, patterns, parse).durations && allVbr == Scan(files, patterns, parse).allVbr
      ensures raised ==> fileDates == Scan(files, patterns, parse).dates && CurrentBounds() == old(CurrentBounds())
      ensures Scan(files, patterns, parse).allBad ==> fileDates == [] && CurrentBounds() == old(CurrentBounds())
      ensures !raised && !Scan(files, patterns, parse).allBad ==>
        fileDates == Prune(SortByKey(Scan(files, patterns, parse).dates)) &&
        CurrentBounds() == DateRange(Keys(fileDates), OriginalKeys())
    {
      ghost var scan := Scan(files, patterns, parse);
      ScanRaised(files, patterns, parse);
      AllBadNoDates(files, patterns, parse);
      var allBad;
      allBad, raised := Rescan(files, patterns, parse);
      assert fileDates == scan.dates && allBad == scan.allBad && raised == scan.raised;
      if !raised && !allBad {
        SortDates();
      }
    }

    /** Clear the maps, then scan the listing. */
    method Rescan(files: seq<AudioFile>, patterns: seq<string>, parse: string -> Option<string>)
      returns (allBad: bool, raised: bool)
      requires Valid()
      modifies this`fileDates, this`bitrates, this`fileFormats, this`durations, this`allVbr, this`originalFiles
      ensures Valid()
      ensures originalFiles ==
        if old(fileDates) != [] && (old(originalFiles).None? || old(originalFiles).value == [])
        then Some(old(fileDates)) else old(originalFiles)
      ensures ScanState(fileDates, bitrates, fileFormats, durations, allVbr, allBad, raised) == Scan(files, patterns, parse)
    {
      ResetMaps();
      allBad, raised := ScanListing(files, patterns, parse);
    }

    /** The start of `analyze_files`: the snapshot is taken when the date map is non-empty
        and there is no non-empty snapshot yet, then the maps are cleared. */
    method ResetMaps()
      requires Valid()
      modifies this`fileDates, this`bitrates, this`fileFormats, this`durations, this`allVbr, this`originalFiles
      ensures Valid() && fileDates == [] && bitrates == [] && fileFormats == [] && durations == [] && allVbr
      ensures originalFiles ==
        if old(fileDates) != [] && (old(originalFiles).None? || old(originalFiles).value == [])
        then Some(old(fileDates)) else old(originalFiles)
    {
      bitrates := [];
      fileFormats := [];
      if fileDates != [] && (originalFiles.None? || originalFiles.value == []) {
        originalFiles := Some(fileDates);
      }
      fileDates := [];
      allVbr := true;
      durations := [];
    }

    /** The scan loop of `analyze_files` over the listing, from empty maps; it stops at
        the first entry whose analysis raises. */
    method ScanListing(files: seq<AudioFile>, patterns: seq<string>, parse: string -> Option<string>)
      returns (allBad: bool, raised: bool)
      requires Valid() && fileDates == [] && bitrates == [] && fileFormats == [] && durations == [] && allVbr
      modifies this`fileDates, this`bitrates, this`fileFormats, this`durations, this`allVbr
      ensures Valid()
      ensures ScanState(fileDates, bitrates, fileFormats, durations, allVbr, allBad, raised) == Scan(files, patterns, parse)
    {
      allBad, raised := true, false;
      var i := 0;
      while i < |files| && !raised
        invariant 0 <= i <= |files|
        invariant Valid()
        invariant ScanState(fileDates, bitrates, fileFormats, durations, allVbr, allBad, raised) == Scan(files[..i], patterns, parse)
      {
        ScanNext(files, i, patterns, parse);
        allBad, raised := ScanOne(files[i], patterns, parse, allBad);
        i := i + 1;
      }
      ScanAfterRaise(files, i, patterns, parse);
    }

    /** The end of `analyze_files` after a scan that analysed a file: the date buckets are
        sorted by key and the bounds recomputed. */
    method SortDates()
      requires Valid()
      modifies this`fileDates, this`earliestYear, this`firstEpisodeDate, this`lastEpisodeDate,
        this`realFirstEpisodeDate, this`realLastEpisodeDate
      ensures Valid()
      ensures fileDates == Prune(SortByKey(old(fileDates)))
      ensures CurrentBounds() == DateRange(Keys(fileDates), OriginalKeys())
    {
      SortByKeySorted(fileDates);
      fileDates := SortByKey(fileDates);
      GetDateRange();
    }

    /** `get_longest_duration`: the largest recorded duration, None when there is none. */
    function LongestDuration(): (r: Option<real>)
      reads this
      ensures r.None? <==> durations == []
      ensures r.Some? ==> r.value in Keys(durations) && forall d :: d in Keys(durations) ==> d <= r.value
    {
      MaxOf(Keys(durations))
    }

    /** `get_shortest_duration`: the smallest recorded duration, None when there is none. */
    function ShortestDuration(): (r: Option<real>)
      reads this
      ensures r.None? <==> durations == []
      ensures r.Some? ==> r.value in Keys(durations) && forall d :: d in Keys(durations) ==> r.value <= d
    {
      MinOf(Keys(durations))
    }

    /** `remove_file`: every bitrate, format and date bucket holding `p` loses one
        occurrence of it, then the bounds are recomputed. Durations, `all_vbr` and the
        snapshot are untouched. */
    method RemoveFile(p: Path)
      requires Valid()
      modifies this`bitrates, this`fileFormats, this`fileDates, this`earliestYear,
        this`firstEpisodeDate, this`lastEpisodeDate, this`realFirstEpisodeDate, this`realLastEpisodeDate
      ensures Valid()
      ensures bitrates == RemoveFromAll(old(bitrates), p)
      ensures fileFormats == RemoveFromAll(old(fileFormats), p)
      ensures fileDates == Prune(RemoveFromAll(old(fileDates), p))
      ensures CurrentBounds() == DateRange(Keys(fileDates), OriginalKeys())
    {
      var b := RemoveEach(bitrates, p);
      var f := RemoveEach(fileFormats, p);
      var d := RemoveEach(fileDates, p);
      SameKeysUnique(bitrates, b);
      SameKeysUnique(fileFormats, f);
      SameKeysUnique(fileDates, d);
      bitrates, fileFormats, fileDates := b, f, d;
      GetDateRange();
    }

    /** `update_file_path`: in every bitrate, format and date bucket holding `src`, one
        occurrence of it is replaced by `dst` at the end; the bounds are not recomputed. */
    method UpdateFilePath(src: Path, dst: Path)
      requires Valid()
      modifies this`bitrates, this`fileFormats, this`fileDates
      ensures Valid()
      ensures bitrates == RenameInAll(old(bitrates), src, dst)
      ensures fileFormats == RenameInAll(old(fileFormats), src, dst)
      ensures fileDates == RenameInAll(old(fileDates), src, dst)
    {
      var b := RenameEach(bitrates, src, dst);
      var f := RenameEach(fileFormats, src, dst);
      var d := RenameEach(fileDates, src, dst);
      SameKeysUnique(bitrates, b);
      SameKeysUnique(fileFormats, f);
      SameKeysUnique(fileDates, d);
      bitrates, fileFormats, fileDates := b, f, d;
    }
  }
}
