/** What the analyser reads from one audio file: its recording-date token (the MP3 tag
    cascade or the MP4 `©day` atom), its bitrate and bitrate mode, and its duration; and
    the three bucket keys it files the file under. The tag reader itself is not modelled:
    a file's tags arrive as a `Probe` value. */
module Tags {
  import opened Wrappers
  import opened Text
  import opened Paths
  import opened Dates

  datatype BitrateMode = UnknownMode | CBR | VBR | ABR

  /** A user-defined text frame: its description and its text list. */
  datatype Txxx = Txxx(desc: string, text: seq<string>)

  /** An MP3's ID3 tag: the text list of its `TDRC` frame when it has one, its `TXXX`
      frames in order, and how many other frames it holds. */
  datatype Id3 = Id3(tdrc: Option<seq<string>>, txxx: seq<Txxx>, others: nat)

  /** The EasyID3 view of the same file: key to value list. */
  type EasyTags = map<string, seq<string>>

  /** What opening a file yields. `Unreadable`: no file object or no stream info.
      `OtherAudio`: an audio type that is neither MP3 nor MP4. For an MP3, `tags` is None
      when the file has no ID3 tag and `easy` is None when EasyID3 cannot open the file.
      For an MP4, `atoms` is None when the file has no tag atom at all, and otherwise maps
      each atom name to its value list. A file object is a mapping over its tags, so an
      MP3 or MP4 without tags, or with an empty tag container, is falsy (`Untagged`). */
  datatype Probe =
    | Unreadable
    | OtherAudio
    | Mp3(length: real, bitrate: nat, mode: BitrateMode, tags: Option<Id3>, easy: Option<EasyTags>)
    | Mp4(length: real, bitrate: nat, atoms: Option<EasyTags>)

  /** `not audiofile` for an opened MP3 or MP4: its tag container is absent or empty. */
  predicate Untagged(p: Probe)
  {
    match p
    case Mp3(_, _, _, tags, _) => tags.None? || (tags.value.tdrc.None? && tags.value.txxx == [] && tags.value.others == 0)
    case Mp4(_, _, atoms) => atoms.None? || atoms.value == map[]
    case _ => false
  }

  /** A Python string used as a condition. */
  predicate Truthy(v: Option<string>) { v.Some? && v.value != "" }

  /** `easy.get(key, [None])[0]`: `Raised` when the key holds an empty list. */
  datatype Got = Raised | Got(value: Option<string>)

  function EasyGet(easy: EasyTags, key: string): (g: Got)
    ensures g.Raised? <==> key in easy && easy[key] == []
    ensures g.Got? && g.value.Some? ==> key in easy && g.value.value == easy[key][0]
  {
    if key !in easy then Got(None)
    else if easy[key] == [] then Raised
    else Got(Some(easy[key][0]))
  }

  predicate IsReleaseDate(t: Txxx)
  {
    Contains(LowerStr(t.desc), "releasedate")
  }

  /** Index of the first `TXXX` frame whose lower-cased description contains "releasedate". */
  function FirstRelease(frames: seq<Txxx>): (r: Option<nat>)
    ensures r.Some? ==> r.value < |frames| && IsReleaseDate(frames[r.value])
    ensures r.Some? ==> forall j :: 0 <= j < r.value ==> !IsReleaseDate(frames[j])
    ensures r.None? ==> forall j :: 0 <= j < |frames| ==> !IsReleaseDate(frames[j])
  {
    if frames == [] then None
    else if IsReleaseDate(frames[0]) then Some(0)
    else match FirstRelease(frames[1..])
      case None => None
      case Some(i) => Some(i + 1)
  }

  /** The `TXXX` step: the stripped first text of the first "releasedate" frame; the search
      stops at that frame even when its text is empty. */
  function ReleaseDate(frames: seq<Txxx>): Option<string>
  {
    match FirstRelease(frames)
    case None => None
    case Some(i) =>
      if frames[i].text == [] then None
      else
        var r := Strip(frames[i].text[0]);
        if r != "" then Some(r) else None
  }

  /** `mp3_date_extract_alternatives`: EasyID3 `date`, then `originaldate`, then `year`
      (the first truthy one, unstripped), then the `TXXX` release date; None when EasyID3
      cannot open the file or a looked-up key holds an empty list. */
  function Mp3DateAlternatives(tags: Id3, easy: Option<EasyTags>): Option<string>
  {
    match easy
    case None => None
    case Some(e) =>
      match EasyGet(e, "date")
      case Raised => None
      case Got(d1) =>
        if Truthy(d1) then d1
        else match EasyGet(e, "originaldate")
          case Raised => None
          case Got(d2) =>
            if Truthy(d2) then d2
            else match EasyGet(e, "year")
              case Raised => None
              case Got(d3) => if Truthy(d3) then d3 else ReleaseDate(tags.txxx)
  }

  /** The stripped first `TDRC` text, when there is one and it is not blank. */
  function TdrcValue(tags: Id3): Option<string>
  {
    if tags.tdrc.Some? && tags.tdrc.value != [] && Strip(tags.tdrc.value[0]) != "" then
      Some(Strip(tags.tdrc.value[0]))
    else None
  }

  /** The recording-date token of an MP3: the `TDRC` frame, else the alternatives; None
      when the file has no ID3 tag at all, a case `analyze_audio_file` skips before it
      reads the tags. */
  function Mp3RecordingDate(tags: Option<Id3>, easy: Option<EasyTags>): Option<string>
  {
    match tags
    case None => None
    case Some(t) =>
      if TdrcValue(t).Some? then TdrcValue(t) else Mp3DateAlternatives(t, easy)
  }

  /** One source of the cascade: it yields a value, passes to the next source, or ends
      the search without a value (an exception or a `break`). */
  datatype Step = Value(v: string) | Pass | Stop

  /** The value of the first source that yields one, unless a source before it stops. */
  function FirstValue(steps: seq<Step>): Option<string>
  {
    if steps == [] then None
    else match steps[0]
      case Value(v) => Some(v)
      case Stop => None
      case Pass => FirstValue(steps[1..])
  }

  /** `FirstValue` yields the value of a source exactly when only passing sources come
      before it, and yields nothing exactly when a stopping source comes before every
      source with a value. */
  lemma {:induction false} FirstValueMeaning(steps: seq<Step>)
    ensures var r := FirstValue(steps);
      (r.Some? ==> exists i :: (0 <= i < |steps| && steps[i] == Value(r.value) &&
        forall j :: 0 <= j < i ==> steps[j] == Pass)) &&
      (r.None? ==> forall i :: 0 <= i < |steps| && steps[i].Value? ==>
        exists j :: 0 <= j < i && steps[j] == Stop)
  {
    if steps != [] && steps[0].Pass? {
      var tail := steps[1..];
      FirstValueMeaning(tail);
      var r := FirstValue(tail);
      if r.Some? {
        var i :| 0 <= i < |tail| && tail[i] == Value(r.value) &&
          forall j :: 0 <= j < i ==> tail[j] == Pass;
        assert steps[i + 1] == Value(r.value);
        forall j | 0 <= j < i + 1 ensures steps[j] == Pass {
          if j > 0 { assert steps[j] == tail[j - 1]; }
        }
      } else {
        forall i | 0 <= i < |steps| && steps[i].Value?
          ensures exists j :: 0 <= j < i && steps[j] == Stop
        {
          assert tail[i - 1] == steps[i];
          var j :| 0 <= j < i - 1 && tail[j] == Stop;
          assert steps[j + 1] == Stop;
        }
      }
    }
  }

  /** An EasyID3 lookup as a source: a truthy value is yielded, an empty list raises. */
  function EasyStep(e: EasyTags, key: string): Step
  {
    match EasyGet(e, key)
    case Raised => Stop
    case Got(v) => if Truthy(v) then Value(v.value) else Pass
  }

  /** The `TXXX` source: the first "releasedate" frame yields its stripped text or stops. */
  function ReleaseStep(frames: seq<Txxx>): Step
  {
    match FirstRelease(frames)
    case None => Pass
    case Some(i) =>
      if frames[i].text != [] && Strip(frames[i].text[0]) != "" then Value(Strip(frames[i].text[0]))
      else Stop
  }

  /** The sources of an MP3's recording date in the order they are consulted. */
  function Cascade(tags: Option<Id3>, easy: Option<EasyTags>): seq<Step>
  {
    match tags
    case None => [Stop]
    case Some(t) =>
      var tdrc := if TdrcValue(t).Some? then Value(TdrcValue(t).value) else Pass;
      match easy
      case None => [tdrc, Stop]
      case Some(e) => [tdrc] + AlternativeSteps(t, e)
  }

  /** One step of `FirstValue`. */
  lemma FirstValueCons(s: Step, rest: seq<Step>)
    ensures FirstValue([s] + rest) == match s
      case Value(v) => Some(v)
      case Stop => None
      case Pass => FirstValue(rest)
  {
    assert ([s] + rest)[0] == s && ([s] + rest)[1..] == rest;
  }

  /** An EasyID3 lookup followed by `fallback` when the value is not truthy. */
  function EasyThen(e: EasyTags, key: string, fallback: Option<string>): Option<string>
  {
    match EasyGet(e, key)
    case Raised => None
    case Got(d) => if Truthy(d) then d else fallback
  }

  lemma EasyStepFirst(e: EasyTags, key: string, rest: seq<Step>)
    ensures FirstValue([EasyStep(e, key)] + rest) == EasyThen(e, key, FirstValue(rest))
  {
    FirstValueCons(EasyStep(e, key), rest);
  }

  lemma ReleaseStepFirst(frames: seq<Txxx>)
    ensures FirstValue([ReleaseStep(frames)]) == ReleaseDate(frames)
  {
    FirstValueCons(ReleaseStep(frames), []);
    assert [ReleaseStep(frames)] + [] == [ReleaseStep(frames)];
  }

  /** The alternatives' cascade, EasyID3 `date`, `originaldate`, `year`, then TXXX. */
  function AlternativeSteps(t: Id3, e: EasyTags): seq<Step>
  {
    [EasyStep(e, "date"), EasyStep(e, "originaldate"), EasyStep(e, "year"), ReleaseStep(t.txxx)]
  }

  lemma AlternativesFirstValue(t: Id3, e: EasyTags)
    ensures Mp3DateAlternatives(t, Some(e)) == FirstValue(AlternativeSteps(t, e))
  {
    var s1, s2, s3, s4 := EasyStep(e, "date"), EasyStep(e, "originaldate"), EasyStep(e, "year"), ReleaseStep(t.txxx);
    ReleaseStepFirst(t.txxx);
    EasyStepFirst(e, "year", [s4]);
    assert [s3] + [s4] == [s3, s4];
    EasyStepFirst(e, "originaldate", [s3, s4]);
    assert [s2] + [s3, s4] == [s2, s3, s4];
    EasyStepFirst(e, "date", [s2, s3, s4]);
    assert [s1] + [s2, s3, s4] == AlternativeSteps(t, e);
  }

  /** The nested tag lookups are exactly "first source that yields a value wins" over the
      cascade TDRC, date, originaldate, year, TXXX releasedate. */
  lemma RecordingDateIsFirstValue(tags: Option<Id3>, easy: Option<EasyTags>)
    ensures Mp3RecordingDate(tags, easy) == FirstValue(Cascade(tags, easy))
  {
    match tags
    case None =>
    case Some(t) =>
      var tdrc := if TdrcValue(t).Some? then Value(TdrcValue(t).value) else Pass;
      match easy
      case None =>
        FirstValueCons(tdrc, [Stop]);
        FirstValueCons(Stop, []);
        assert [Stop] + [] == [Stop];
      case Some(e) =>
        AlternativesFirstValue(t, e);
        FirstValueCons(tdrc, AlternativeSteps(t, e));
  }

  /** Blanks around a TDRC value do not matter, and a non-blank TDRC value wins over every
      other source. */
  lemma TdrcWins(pre: string, v: string, post: string, rest: seq<string>, frames: seq<Txxx>, others: nat, easy: Option<EasyTags>)
    requires forall k :: 0 <= k < |pre| ==> pre[k] in Whitespace
    requires forall k :: 0 <= k < |post| ==> post[k] in Whitespace
    requires v != [] && v[0] !in Whitespace && v[|v| - 1] !in Whitespace
    ensures Mp3RecordingDate(Some(Id3(Some([pre + v + post] + rest), frames, others)), easy) == Some(v)
  {
    StripSurrounding(pre, v, post);
  }

  /** With a blank TDRC frame, a non-blank EasyID3 `date` is used as it is. */
  lemma EasyDateAfterBlankTdrc(blank: string, d: string, e: EasyTags, frames: seq<Txxx>, others: nat)
    requires forall k :: 0 <= k < |blank| ==> blank[k] in Whitespace
    requires "date" in e && e["date"] != [] && e["date"][0] == d && d != ""
    ensures Mp3RecordingDate(Some(Id3(Some([blank]), frames, others)), Some(e)) == Some(d)
  {
    StripSurrounding(blank, "", "");
    assert blank + "" + "" == blank;
  }

  /** Python's `round(b / 1000)` for an integer bitrate: the nearest integer, ties to even. */
  function RoundKbps(b: nat): (r: nat)
    ensures -500 <= 1000 * r - b <= 500
    ensures (1000 * r - b == 500 || b - 1000 * r == 500) ==> r % 2 == 0
  {
    var q, rem := b / 1000, b % 1000;
    if rem > 500 || (rem == 500 && q % 2 == 1) then q + 1 else q
  }

  /** The analysed properties of one file, as the `metadata` dictionary holds them; `vbr`
      is the bitrate mode "VBR" (otherwise the mode is "CBR"). */
  datatype Metadata = Metadata(recordingDate: Option<string>, bitrate: nat, vbr: bool)

  /** The name of the MP4 date atom, `\xa9day`. */
  const DayAtom: string := ['\U{A9}', 'd', 'a', 'y']

  /** `audiofile.tags.get("\xa9day", [None])[0]`, which no `try` guards: a file without a
      tag atom (`tags` is None) and an empty `©day` list both raise. */
  function Mp4Day(tags: Option<EasyTags>): (g: Got)
    ensures g.Raised? <==> tags.None? || (DayAtom in tags.value && tags.value[DayAtom] == [])
    ensures g.Got? && g.value.Some? ==> tags.Some? && DayAtom in tags.value && g.value.value == tags.value[DayAtom][0]
    ensures g.Got? && tags.Some? && DayAtom !in tags.value ==> g.value.None?
  {
    match tags
    case None => Raised
    case Some(t) => EasyGet(t, DayAtom)
  }

  /** What `analyze_audio_file` makes of one opened file: no metadata (`Skip`), metadata,
      or an exception that leaves the method (`Abort`). */
  datatype Analysis = Skip | Meta(md: Metadata) | Abort

  /** `analyze_audio_file` without its side effects: metadata for a tagged MP3 or MP4,
      `Skip` for anything else, and `Abort` where the MP4 date lookup raises. */
  function AudioMetadata(p: Probe): (r: Analysis)
    ensures r.Skip? <==> (!p.Mp3? && !p.Mp4?) || Untagged(p)
    ensures r.Abort? <==> (p.Mp4? && p.atoms.Some? && p.atoms.value != map[] &&
      DayAtom in p.atoms.value && p.atoms.value[DayAtom] == [])
    ensures r.Meta? && p.Mp3? ==> r.md == Metadata(Mp3RecordingDate(p.tags, p.easy), RoundKbps(p.bitrate), p.mode == VBR)
    ensures r.Meta? && p.Mp4? ==> r.md.recordingDate == Mp4Day(p.atoms).value && r.md.bitrate == RoundKbps(p.bitrate)
  {
    if Untagged(p) then Skip
    else match p
    case Unreadable => Skip
    case OtherAudio => Skip
    case Mp3(_, b, mode, tags, easy) => Meta(Metadata(Mp3RecordingDate(tags, easy), RoundKbps(b), mode == VBR))
    case Mp4(_, b, tags) =>
      match Mp4Day(tags)
      case Raised => Abort
      case Got(day) => var k := RoundKbps(b); Meta(Metadata(day, k, k == 0))
  }

  /** An MP4 without a tag atom, or with no atoms, is skipped before the date lookup; one
      with an empty `©day` list aborts the analysis, and one with no `©day` atom has no
      date, whatever its bitrate and length. */
  lemma Mp4DayCases(length: real, b: nat, e: EasyTags)
    ensures AudioMetadata(Mp4(length, b, None)) == Skip
    ensures AudioMetadata(Mp4(length, b, Some(map[]))) == Skip
    ensures AudioMetadata(Mp4(length, b, Some(e[DayAtom := []]))).Abort?
    ensures DayAtom !in e && e != map[] ==> AudioMetadata(Mp4(length, b, Some(e))) == Meta(Metadata(None, RoundKbps(b), RoundKbps(b) == 0))
  {
    assert DayAtom in e[DayAtom := []];
  }

  /** An MP3 without an ID3 tag, or with an empty one, is skipped whatever EasyID3 would
      read from it; one with any frame is analysed. */
  lemma Mp3TagsCases(length: real, b: nat, mode: BitrateMode, easy: Option<EasyTags>, t: Id3)
    ensures AudioMetadata(Mp3(length, b, mode, None, easy)) == Skip
    ensures AudioMetadata(Mp3(length, b, mode, Some(Id3(None, [], 0)), easy)) == Skip
    ensures t.tdrc.Some? || t.txxx != [] || t.others > 0 ==>
      AudioMetadata(Mp3(length, b, mode, Some(t), easy)).Meta?
  {
  }

  /** An MP4 counts as VBR exactly when its bitrate rounds to 0 kbps, that is when it is at
      most 500 bits per second. */
  lemma Mp4VbrIffSlow(length: real, b: nat, tags: Option<EasyTags>)
    requires AudioMetadata(Mp4(length, b, tags)).Meta?
    ensures AudioMetadata(Mp4(length, b, tags)).md.vbr <==> b <= 500
  {
    var k := RoundKbps(b);
    if b > 500 {
      assert k != 0;
    }
  }

  /** `any(pattern.lower() in name.lower() for pattern in trailer_patterns)`. */
  predicate IsTrailerName(name: string, patterns: seq<string>)
  {
    exists i :: 0 <= i < |patterns| && ContainsIgnoreCase(name, patterns[i])
  }

  /** The duration of a file is recorded when it is an MP3 or an MP4 with a non-zero length
      and its name matches no trailer pattern. */
  predicate CountsDuration(p: Probe, name: string, patterns: seq<string>)
  {
    (p.Mp3? || p.Mp4?) && !Untagged(p) && p.length != 0.0 && !IsTrailerName(name, patterns)
  }

  /** The files the analyser opens at all: suffix `.mp3` or `.m4a`, in any case. */
  predicate IsAudioName(name: string)
  {
    LowerStr(Suffix(name)) == ".mp3" || LowerStr(Suffix(name)) == ".m4a"
  }

  /** The format bucket of an analysed file is "mp3" or "m4a". */
  lemma AudioFormats(name: string)
    requires IsAudioName(name)
    ensures FormatOf(name) == "mp3" || FormatOf(name) == "m4a"
  {
    var s := LowerStr(Suffix(name));
    assert s[1..] == "mp3" || s[1..] == "m4a";
  }

  /** `process_metadata`'s date key: a present token goes through the date parser (None
      where every parser fails); without a token, the first date in the file name, or
      "Unknown" when it is not a calendar date; without either, the modification date. */
  function DateKey(token: Option<string>, name: string, mtime: Option<string>,
                   parse: string -> Option<string>): (k: string)
    ensures k == "Unknown" || (Truthy(token) && parse(token.value) == Some(k)) ||
      (!Truthy(token) && FindDate(name) == Some(k) && IsoShape(k) && ValidIsoDate(k)) ||
      (!Truthy(token) && FindDate(name).None? && mtime == Some(k))
  {
    if Truthy(token) then
      match parse(token.value)
      case Some(d) => d
      case None => "Unknown"
    else
      match FindDate(name)
      case Some(d) => if ValidIsoDate(d) then d else "Unknown"
      case None =>
        match mtime
        case Some(m) => m
        case None => "Unknown"
  }

  /** When the parser and the clock only produce calendar dates, every date key is a
      calendar date or "Unknown". */
  lemma DateKeysAreDates(token: Option<string>, name: string, mtime: Option<string>,
                         parse: string -> Option<string>)
    requires forall t :: parse(t).Some? ==> IsoShape(parse(t).value) && ValidIsoDate(parse(t).value)
    requires mtime.Some? ==> IsoShape(mtime.value) && ValidIsoDate(mtime.value)
    ensures var k := DateKey(token, name, mtime, parse);
      k == "Unknown" || (IsoShape(k) && ValidIsoDate(k))
  {
  }

  /** A name's own date is used only when no token was found, and an impossible date in
      the name gives "Unknown" rather than falling back to the modification date. */
  lemma NameDateOverridesMtime(token: Option<string>, name: string, mtime: Option<string>, parse: string -> Option<string>)
    requires !Truthy(token) && FindDate(name).Some?
    ensures var d := FindDate(name).value;
      DateKey(token, name, mtime, parse) == if ValidIsoDate(d) then d else "Unknown"
  {
  }

  /** A truthy token alone decides the key: the parser's date, or "Unknown" when every
      parser fails; neither the name nor the modification date is consulted. */
  lemma TokenDecidesKey(token: Option<string>, name: string, mtime: Option<string>, parse: string -> Option<string>)
    requires Truthy(token)
    ensures DateKey(token, name, mtime, parse) ==
      if parse(token.value).Some? then parse(token.value).value else "Unknown"
  {
  }

  /** Without a token and without a date in the name, the key is the modification date, or
      "Unknown" when it cannot be read. */
  lemma MtimeLastResort(token: Option<string>, name: string, mtime: Option<string>, parse: string -> Option<string>)
    requires !Truthy(token) && FindDate(name).None?
    ensures DateKey(token, name, mtime, parse) == if mtime.Some? then mtime.value else "Unknown"
  {
  }

  /** The bitrate bucket: "VBR", "<n> kbps" for a non-zero bitrate, else "Unknown". */
  function BitrateKey(md: Metadata): (k: string)
    ensures k == "VBR" <==> md.vbr
    ensures k == "Unknown" <==> !md.vbr && md.bitrate == 0
    ensures k != "VBR" && k != "Unknown" ==>
      |k| > 5 && k[|k| - 5..] == " kbps" && AllDigits(k[..|k| - 5]) &&
      ParseDigits(k[..|k| - 5]) == md.bitrate
  {
    if md.vbr then "VBR"
    else if md.bitrate != 0 then
      var s := NatToString(md.bitrate);
      var k := s + " kbps";
      assert k[..|k| - 5] == s;
      assert k != "VBR" by { assert k[|k| - 1] == 's'; }
      assert k != "Unknown" by { assert k[|k| - 1] == 's'; }
      k
    else "Unknown"
  }

  /** Only an MP3 in a constant mode whose bitrate rounds to zero lands in "Unknown";
      an MP4 never does. */
  lemma UnknownBitrateOnlyForSilentMp3(p: Probe)
    requires AudioMetadata(p).Meta?
    ensures BitrateKey(AudioMetadata(p).md) == "Unknown" <==>
      p.Mp3? && p.mode != VBR && RoundKbps(p.bitrate) == 0
  {
  }
}
