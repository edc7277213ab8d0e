# Podcast timeline and episode-number reconciler, in Dafny

This project models the two classes at the heart of a podcast archive organiser.

`FileAnalyzer` (`classes/file_analyzer.py`) is the timeline aggregator:

- It scans a podcast folder. For each `.mp3`/`.m4a` file it derives a recording date from a cascade of tag sources, the file name and the modification time.
- It files every analysed episode into three maps from a key to a list of paths: `file_dates`, `bitrates` and `file_formats`. It also records durations.
- From the date keys it derives the bounds of the current scan: `earliest_year`, `first_episode_date` and `last_episode_date`.
- It also derives the "real" bounds, which also cover a snapshot of the date map taken before the first rescan.
- `remove_file` and `update_file_path` keep every map in step when an episode is moved or renamed.

`FileOrganizer` (`classes/file_organizer.py`) is the episode-number reconciler:

- `pad_episode_numbers` zero-pads every episode number to the width of the largest one.
- `find_files_without_episode_numbers` groups files by the date in their names and keeps, for shared dates, the files without an episode marker.
- `assign_episode_numbers_from_rss` numbers those files from the oldest-first feed titles. The numbers shift down by one when the oldest title is a trailer.
- `fix_episode_numbering` moves a trailing episode number in front of the title.
- `check_split` decides whether an active multi-year podcast is split, and moves the current year's files into a `--CURRENT--` folder.

How the model represents the system:

- **Maps.** A Python dictionary keeps insertion order, so each map is an association list `Buckets` with unique keys. `defaultdict(list)` appends become `Buckets.Append`.
- **String order.** Python compares strings lexicographically. That order is `Text.LexLess`, with its order laws proved.
- **The folder.** It is the sequence of paths `rglob('*')` lists, and a rename replaces an entry.
- **`FileAnalyzer`** is a class whose methods update its fields. Each method is proved against a function on values: `Scan`, `ScanKeys`, `ExtendKeys`, `DateRange`, `RemoveFromAll`, `RenameInAll`, `Prune`, `SortByKey`.
- **`FileOrganizer`** is a class over the folder listing, the `--CURRENT--` folder and a shared `FileAnalyzer`. Each pass is proved against a specification function:
  - padding: `PaddedFolder`
  - grouping: `WithoutNumbers`
  - assigning: `AssignEpisodeNumbers`
  - renaming: `Renumber.FixEpisodeNumbering`
  - the move loop: `MoveKeys`
- **Regular expressions.** The default patterns are recognisers written out by hand, with Python's search and backtracking order modelled explicitly:
  - episode marker: `(Ep\.?|Episode|E|Part)(\s*)(\d+)` for padding, `(Ep\.?|Episode)\s*(\d+)` for grouping, both case-insensitive;
  - date: `\b(\d{4}-\d{2}-\d{2})\b`;
  - title split: ` - (?=[^-]*$)`;
  - renumbering: the `ep_nr_at_end_file_pattern` default.

The model follows the code in these places:

- **Padding.** `pad_episode_numbers` renames files without telling the analyzer. After padding, the analyzer's maps keep the old paths.
- **Trailer patterns.** An empty `trailer_patterns` list joins to an empty regular expression. That matches every title, so the oldest title always counts as a trailer (`Naming.EmptyPatternsMatchEveryTitle`).
- **Earliest year.** `earliest_year` skips a year 0 only when it is not the first dated key. That makes it depend on key order (`Timeline.EarliestYearOrderDependent`).
- **Rename round trip.** Renaming a path and renaming it back restores each list's contents as a multiset but can reorder them, because `update_file_path` removes the old path and appends the new one at the end (`Buckets.RenameRoundTrip`, `Buckets.RenameRoundTripReorders`).
- **Untagged files.** A mutagen file object is a mapping over its tags, so an MP3 or MP4 whose tag container is absent or empty is falsy. `analyze_audio_file` skips it at line 73, before its duration is recorded. It files nothing and leaves `all_bad` as it was, so a folder of only such files takes the `all_bad` return (`Tags.Untagged`, `Analyzer.UntaggedSkipped`).
- **MP4 dates.** `analyze_audio_file` reads the MP4 `©day` atom outside any `try`. A tagged MP4 whose `©day` list is empty raises out of `analyze_audio_file` and `analyze_files`. The maps keep what the loop filed before it, and neither the sort nor the bounds happen (`Tags.AudioMetadata`, `Analyzer.FileAnalyzer.AnalyzeFiles`).
- **Move loop.** `remove_file` rebinds `file_dates` to a new dictionary, but the lists themselves are shared with the old one. The `check_split` loop therefore goes on over the old keys and sees each key's current list (`Split.MoveKeys`).
- **Exceptions.** Exceptions the code raises are modelled as outcomes:
  - a `Result` with a `Crash` in `check_split`;
  - a `raised` flag in the renaming loops. An exception ends them, and the renames done before it stay.

## Model

| member | source | states |
|---|---|---|
| Text.StripSurrounding | classes/file_analyzer.py:94 | `str.strip` removes exactly the whitespace around a value that neither starts nor ends with whitespace |
| Text.StripIdempotent | classes/file_analyzer.py:152 | stripping a stripped value changes nothing |
| Text.NatToString | classes/file_organizer.py:188 | `str(n)` is a non-empty run of digits that reads back as `n`, with a leading zero only for 0 |
| Text.NatToStringMonotonic | classes/file_organizer.py:187-188 | a larger number never has fewer digits, so the largest number fixes `num_digits` |
| Text.ZFill | classes/file_organizer.py:194 | `zfill` gives `max(len, width)` digits that read back as the same value |
| Text.LeadingZerosValue | classes/file_organizer.py:194 | leading zeros do not change the value of a digit string |
| Text.PyIntDigits | classes/file_analyzer.py:179 | `int()` of a digit string is its decimal value |
| Text.LexIrreflexive | classes/file_analyzer.py:186-189 | Python's string `<` is irreflexive |
| Text.LexTransitive | classes/file_analyzer.py:186-189 | Python's string `<` is transitive |
| Text.LexTotal | classes/file_analyzer.py:186-189 | any two different strings are ordered one way |
| Text.LexAsymmetric | classes/file_analyzer.py:186-189 | Python's string `<` is asymmetric |
| Paths.LastIndexOf | classes/file_analyzer.py:298 | the last position of a character, or None exactly when it does not occur |
| Paths.Suffix | classes/file_analyzer.py:298 | `Path.suffix` is empty or the final dot and at least one more character after the last dot, never the whole name |
| Dates.FirstDateFrom | classes/file_analyzer.py:268-269 | the search finds the leftmost word-bounded `YYYY-MM-DD` from a position, and None only when there is none |
| Dates.FindDate | classes/file_analyzer.py:268-271 | a date is found exactly when the name holds a word-bounded `YYYY-MM-DD`, and it is such a substring of the name |
| Dates.DaysInMonth | classes/file_analyzer.py:273 | months have 28 to 31 days, and February has 29 exactly in Gregorian leap years |
| Dates.LeapDayExists | classes/file_analyzer.py:272-274 | `strptime` accepts 29 February in 2024 and 2000 |
| Dates.LeapDayMissing | classes/file_analyzer.py:275-277 | 29 February 2023 and 1900 are not dates and give "Unknown" |
| Dates.OutOfRangeFields | classes/file_analyzer.py:275-277 | year 0 and month 13 are rejected |
| Dates.BoundaryExamples | classes/file_analyzer.py:268 | `\b` rejects a date glued to a word character and accepts one after a space |
| Tags.EasyGet | classes/file_analyzer.py:137-141 | `get(key, [None])[0]` raises exactly when the key holds an empty list, and otherwise gives the first value or None |
| Tags.FirstRelease | classes/file_analyzer.py:149-154 | the loop stops at the first `TXXX` frame whose lower-cased description contains "releasedate" |
| Tags.FirstValueMeaning | classes/file_analyzer.py:133-163 | a cascade yields the value of a source exactly when every source before it passes, and yields nothing when a stop comes first |
| Tags.AlternativesFirstValue | classes/file_analyzer.py:137-160 | `mp3_date_extract_alternatives` is the first value of the cascade `date`, `originaldate`, `year`, `TXXX` releasedate |
| Tags.RecordingDateIsFirstValue | classes/file_analyzer.py:87-107 | the MP3 token is the first value of the cascade `TDRC`, then the alternatives, none without an ID3 tag |
| Tags.TdrcWins | classes/file_analyzer.py:87-97 | a non-blank `TDRC` text, stripped, wins over every later source |
| Tags.EasyDateAfterBlankTdrc | classes/file_analyzer.py:94-101 | a blank `TDRC` falls through to the EasyID3 `date` |
| Tags.RoundKbps | classes/file_analyzer.py:109 | `round(b / 1000)` is within half a kbps of the bitrate, and ties go to the even number |
| Tags.Mp4Day | classes/file_analyzer.py:113 | `audiofile.tags.get("\xa9day", [None])[0]` raises exactly when there is no tag atom or the `©day` list is empty, and otherwise gives its first value or None |
| Tags.AudioMetadata | classes/file_analyzer.py:72-118 | metadata for a tagged MP3 (from the tag cascade) or a tagged MP4 (its `©day` value), `Skip` exactly for other audio and for a file without tags, and `Abort` exactly when a tagged MP4 has an empty `©day` list |
| Tags.Mp4DayCases | classes/file_analyzer.py:72-75 | an MP4 with no tag atom or no atoms is skipped, one with an empty `©day` list aborts, and one without `©day` gets no date |
| Tags.Mp3TagsCases | classes/file_analyzer.py:72-75 | an MP3 without an ID3 tag or with an empty one is skipped, and one with any frame is analysed |
| Tags.Mp4VbrIffSlow | classes/file_analyzer.py:114-115 | an analysed MP4 counts as VBR exactly when its bitrate is at most 500 bit/s |
| Tags.AudioFormats | classes/file_analyzer.py:298 | an analysed file's format key is "mp3" or "m4a" |
| Tags.DateKey | classes/file_analyzer.py:211-288 | the key comes from one source only: the parser's date for a truthy token, the name's valid date without a token, the modification date without either, or "Unknown" |
| Tags.TokenDecidesKey | classes/file_analyzer.py:211-262 | a truthy token alone decides the key: the parser's date, or "Unknown" when every parser fails |
| Tags.MtimeLastResort | classes/file_analyzer.py:278-288 | without a token and without a date in the name, the key is the modification date, or "Unknown" when it cannot be read |
| Tags.DateKeysAreDates | classes/file_analyzer.py:259-288 | with a parser and clock that give calendar dates, every key is a calendar date or "Unknown" |
| Tags.NameDateOverridesMtime | classes/file_analyzer.py:266-277 | without a truthy token, a date in the name is used before the modification date, and an invalid one gives "Unknown" rather than falling back |
| Tags.BitrateKey | classes/file_analyzer.py:293-295 | the key is "VBR" exactly for VBR, "Unknown" exactly for a zero constant bitrate, and otherwise "<n> kbps" with the bitrate's digits |
| Tags.UnknownBitrateOnlyForSilentMp3 | classes/file_analyzer.py:109-115 | only a constant-mode MP3 that rounds to 0 kbps is filed under "Unknown", and an MP4 never is |
| Buckets.Lookup | classes/file_analyzer.py:291 | a missing key has no files, and with unique keys the list under a key is that bucket's list |
| Buckets.Append | classes/file_analyzer.py:291 | appending adds the key at the end only when it is new, and keeps keys unique |
| Buckets.AppendLookup | classes/file_analyzer.py:291 | the list under the key gains the path at its end, and every other list is unchanged |
| Buckets.AppendNonEmpty | classes/file_analyzer.py:291 | appending leaves no new empty list |
| Buckets.AppendTotal | classes/file_analyzer.py:291 | appending files exactly one more path |
| Buckets.RemoveFirst | classes/file_analyzer.py:341-342 | `list.remove` takes out one occurrence when there is one, and otherwise leaves the list as it was |
| Buckets.FirstIndex | classes/file_analyzer.py:341-342 | the position `list.remove` works on holds the path, and no earlier position does |
| Buckets.RemoveFirstOccurrence | classes/file_analyzer.py:341-342 | `list.remove` takes out the first occurrence and keeps the other paths in order |
| Buckets.RemoveFromAll | classes/file_analyzer.py:340-351 | every list holding the path loses exactly one occurrence, and the keys and other lists are unchanged |
| Buckets.RenameInAll | classes/file_analyzer.py:362-376 | every list holding the old path swaps one occurrence for the new path at its end, keeping its length, and the others are unchanged |
| Buckets.RenameRoundTrip | classes/file_analyzer.py:355-376 | renaming there and back restores each list's contents as a multiset, when the new path was not listed before |
| Buckets.RenameRoundTripReorders | classes/file_analyzer.py:362-376 | the round trip can change a list's order |
| Buckets.Prune | classes/file_analyzer.py:169 | the rebuilt dictionary holds exactly the non-empty lists, with keys still unique |
| Buckets.PruneKeepsOrder | classes/file_analyzer.py:169 | the comprehension keeps key order: with one more list at the end, the result gains that list at its end when it is non-empty, and nothing otherwise |
| Buckets.PruneLookup | classes/file_analyzer.py:169 | pruning changes no key's list of files |
| Buckets.InsertByKey | classes/file_analyzer.py:61 | inserting adds exactly that item |
| Buckets.InsertByKeySorted | classes/file_analyzer.py:61 | inserting a new key into a key-sorted list keeps it sorted |
| Buckets.SortByKey | classes/file_analyzer.py:61 | `sorted(items())` is a permutation of the items |
| Buckets.SortByKeyMembers | classes/file_analyzer.py:61 | sorting keeps exactly the same items |
| Buckets.SortByKeySorted | classes/file_analyzer.py:61 | the sorted items are in strictly increasing key order, with unique keys |
| Timeline.IsoKeyYear | classes/file_analyzer.py:179 | a `YYYY-MM-DD` key is dated, and its year is its first four digits |
| Timeline.ScanFirstLast | classes/file_analyzer.py:176-189 | the first and last dates are the lexical minimum and maximum of the dated keys, None exactly when no key is dated, and the real bounds start equal to them |
| Timeline.ScanEarliestYear | classes/file_analyzer.py:176-185 | the earliest year is a dated key's year, at most every non-zero year, and None exactly when no key is dated |
| Timeline.EarliestYearIsMinimum | classes/file_analyzer.py:184-185 | without year 0, the earliest year is the least year |
| Timeline.EarliestYearOrderDependent | classes/file_analyzer.py:184-185 | a year 0 is kept only when it comes first, so the result depends on key order |
| Timeline.ExtendBounds | classes/file_analyzer.py:196-202 | the snapshot loop only widens the real bounds, and they come to cover every snapshot key that is not "Unknown" or empty |
| Timeline.RealBoundsExtend | classes/file_analyzer.py:165-202 | the real first date is at most the first date, the real last at least the last, they cover the snapshot, and no bound is "Unknown" |
| Timeline.SnapshotExtendsFirst | classes/file_analyzer.py:195-202 | a snapshot with an older episode moves only the real first date back |
| Analyzer.ScanFileFlags | classes/file_analyzer.py:51-55 | one file clears `all_bad` exactly when it is analysed, clears `all_vbr` exactly when it is analysed and not VBR, and raises exactly when its MP4 date lookup does; after a raise nothing changes |
| Analyzer.ScanAfterRaise | classes/file_analyzer.py:50-55 | once the loop has raised, the rest of the listing changes nothing |
| Analyzer.ScanRaised | classes/file_analyzer.py:50-55 | the scan raises exactly when some file of the listing does |
| Analyzer.UntaggedSkipped | classes/file_analyzer.py:72-75 | a file without tags is neither analysed nor aborting, and its loop step changes nothing: no bucket, no duration, `all_bad` as it was |
| Analyzer.ScanFileTotals | classes/file_analyzer.py:51-55 | one step of the scan files an analysed file reached before a raise in all three maps, any other file in none, and clears `all_bad` exactly when it files |
| Analyzer.ScanFilesEachOnce | classes/file_analyzer.py:50-59 | every analysed file the loop reaches is filed exactly once in each of the three maps, and `all_bad` holds exactly when none was analysed |
| Analyzer.AllBadNoDates | classes/file_analyzer.py:56-59 | a scan that analysed nothing has an empty date map |
| Analyzer.ScanAllVbr | classes/file_analyzer.py:120-121 | `all_vbr` survives a scan exactly when every analysed file the loop reaches is VBR |
| Analyzer.ScanKeysWellFormed | classes/file_analyzer.py:50-55 | the format keys are "mp3" and "m4a" only, and every map keeps its keys unique |
| Analyzer.MaxOf | classes/file_analyzer.py:318-321 | the maximum is None exactly for no durations, and otherwise a duration at least every other |
| Analyzer.MinOf | classes/file_analyzer.py:329-332 | the minimum is None exactly for no durations, and otherwise a duration at most every other |
| Analyzer.RemoveEach | classes/file_analyzer.py:340-351 | the loop over the lists gives `RemoveFromAll` |
| Analyzer.RenameEach | classes/file_analyzer.py:362-376 | the loop over the lists gives `RenameInAll` |
| Analyzer.FileAnalyzer.constructor | classes/file_analyzer.py:17-34 | the analyzer starts with empty maps, no bounds and no snapshot |
| Analyzer.FileAnalyzer.AnalyzeAudioFile | classes/file_analyzer.py:65-123 | returns the file's analysis (`Skip` for an untagged file, and the MP4 abort), records its duration when it counts, and clears `all_vbr` for a file that is not VBR |
| Analyzer.FileAnalyzer.ScanOne | classes/file_analyzer.py:51-55 | one iteration of the scan loop is one `ScanFile` step, and reports the raise |
| Analyzer.FileAnalyzer.ProcessMetadata | classes/file_analyzer.py:204-299 | files the path under its date key, bitrate key and format key |
| Analyzer.FileAnalyzer.AddToBuckets | classes/file_analyzer.py:291-299 | appends the path under the three given keys |
| Analyzer.FileAnalyzer.GetDateRange | classes/file_analyzer.py:165-202 | drops empty date lists and sets the bounds to `DateRange` of the keys and the snapshot |
| Analyzer.FileAnalyzer.ScanCurrentKeys | classes/file_analyzer.py:170-193 | the loop over the keys sets the bounds to `ScanKeys` |
| Analyzer.FileAnalyzer.ScanKey | classes/file_analyzer.py:177-193 | one key updates the bounds by `ScanStep` |
| Analyzer.FileAnalyzer.ExtendFromSnapshot | classes/file_analyzer.py:196-202 | the loop over the snapshot keys extends the real bounds by `ExtendKeys` |
| Analyzer.FileAnalyzer.AnalyzeFiles | classes/file_analyzer.py:36-63 | takes the snapshot only once, rebuilds the maps as `Scan` does (skipping untagged files), raises exactly when a file does, and only when it does not raise and some file was analysed sorts and prunes the date map and recomputes the bounds |
| Analyzer.FileAnalyzer.Rescan | classes/file_analyzer.py:40-59 | resets the maps, takes the snapshot at most once and scans the listing, reporting a raise |
| Analyzer.FileAnalyzer.ResetMaps | classes/file_analyzer.py:40-47 | empties the maps, sets `all_vbr`, and snapshots a non-empty date map when there is no snapshot yet |
| Analyzer.FileAnalyzer.ScanListing | classes/file_analyzer.py:50-55 | the scan loop over the listing stops at the first raise and leaves the state `Scan` describes |
| Analyzer.FileAnalyzer.SortDates | classes/file_analyzer.py:61-62 | sorts the date map by key and recomputes the bounds |
| Analyzer.FileAnalyzer.LongestDuration | classes/file_analyzer.py:312-321 | None exactly without durations, and otherwise the largest recorded duration |
| Analyzer.FileAnalyzer.ShortestDuration | classes/file_analyzer.py:323-332 | None exactly without durations, and otherwise the smallest recorded duration |
| Analyzer.FileAnalyzer.RemoveFile | classes/file_analyzer.py:334-353 | removes one occurrence of the path from every list, drops the emptied date lists and recomputes the bounds |
| Analyzer.FileAnalyzer.UpdateFilePath | classes/file_analyzer.py:355-376 | renames the path in every list of the three maps and leaves the bounds alone |
| Episodes.SkipSpace | classes/file_organizer.py:173 | greedy `\s*` consumes the maximal whitespace run |
| Episodes.SkipDigits | classes/file_organizer.py:173 | greedy `\d+` consumes the maximal digit run |
| Episodes.MatchAt | classes/file_organizer.py:173 | a match at a position is a marker there: a word, whitespace and at least one digit |
| Episodes.MatchAtFirstFit | classes/file_organizer.py:173 | the alternation takes the first alternative that fits, and fails exactly when none fits |
| Episodes.SearchFrom | classes/file_organizer.py:178 | a search result is a match at or after the start |
| Episodes.SearchSkips | classes/file_organizer.py:178 | `search` finds the leftmost match, and nothing only when no position matches |
| Episodes.SearchFindsFirst | classes/file_organizer.py:178 | the first matching position is what `search` finds |
| Episodes.FirstEpisodeNumber | classes/file_organizer.py:178-180 | a name has a number exactly when some position matches |
| Episodes.FirstDigits | classes/file_organizer.py:180 | group 3 of the first match is a digit string whose value is the first episode number |
| Episodes.PaddedDigits | classes/file_organizer.py:194 | the padded number reads back as the number and has `max(len(str(n)), width)` digits |
| Episodes.PadFromAt | classes/file_organizer.py:190-198 | `sub` keeps the text up to the first match's digits, puts the padded number in their place and goes on after them |
| Episodes.PadFromFirstMatch | classes/file_organizer.py:198 | in the substituted name, the search finds the same marker with the padded digits |
| Episodes.PadFromIdempotent | classes/file_organizer.py:190-198 | substituting again leaves a substituted text unchanged |
| Episodes.PadAllIdempotent | classes/file_organizer.py:198 | padding a padded name is the identity |
| Episodes.PadKeepsFirstNumber | classes/file_organizer.py:190-198 | padding keeps a name's first episode number, and adds none |
| Episodes.PadAllFirstDigits | classes/file_organizer.py:194-198 | after padding, the first number is written as its padded digits |
| Episodes.PadWithoutMatch | classes/file_organizer.py:198 | a name without a match is not changed |
| Padding.HitsFacts | classes/file_organizer.py:177-181 | each collected entry is in the listing and carries its first number |
| Padding.HitsOrdered | classes/file_organizer.py:177-181 | collected entries are in listing order, each once |
| Padding.HitsComplete | classes/file_organizer.py:177-181 | every numbered entry is collected |
| Padding.HitsGap | classes/file_organizer.py:197 | between two collected entries no entry has a number |
| Padding.GapUnnumbered | classes/file_organizer.py:197 | the rename loop skips only unnumbered entries of the folder |
| Padding.MaxNumber | classes/file_organizer.py:187 | the largest collected number, attained by some entry |
| Padding.PadWidthOfLargest | classes/file_organizer.py:187-188 | the width is the digit count of the largest first number |
| Padding.PaddedFolderKeeps | classes/file_organizer.py:197-201 | every entry is renamed in its own directory and keeps its first episode number |
| Padding.WidthCoversAll | classes/file_organizer.py:187-188 | every number fits the width, and some number fills it exactly |
| Padding.PaddedNumbersUniform | classes/file_organizer.py:187-198 | after padding, each numbered entry shows its number with exactly `num_digits` digits |
| Padding.NoHitsNoRenames | classes/file_organizer.py:183-185 | without numbered entries nothing is renamed |
| Padding.PaddedFolderIdempotent | classes/file_organizer.py:169-202 | padding the padded folder renames nothing |
| Grouping.DatedAs | classes/file_organizer.py:213-221 | the entries whose first date is the given one |
| Grouping.Unmarked | classes/file_organizer.py:227-229 | the comprehension keeps exactly the files without an episode marker |
| Grouping.GroupByDateLookup | classes/file_organizer.py:211-221 | `files_by_date` has each date once, lists exactly that date's entries in order, and has a date exactly when some entry does |
| Grouping.GroupsNonEmpty | classes/file_organizer.py:218-221 | every list of `files_by_date` is non-empty |
| Grouping.UnnumberedUnique | classes/file_organizer.py:223-231 | the result has each date once |
| Grouping.UnnumberedLookup | classes/file_organizer.py:223-231 | a date's result is the unmarked part of its list when that list has several entries, and it is a key exactly when that part is non-empty |
| Grouping.WithoutNumbersLookup | classes/file_organizer.py:204-235 | under each date, exactly the unmarked entries of a date shared by several entries, and the date only when there are some |
| Grouping.WithoutNumbersMembers | classes/file_organizer.py:204-235 | every returned file is in the folder, has that date and has no episode marker |
| Naming.Reversed | classes/file_organizer.py:241-242 | `reverse()` puts the feed's titles oldest first |
| Naming.EmptyPatternsMatchEveryTitle | classes/file_organizer.py:246-249 | with no trailer patterns, every title counts as a trailer |
| Naming.AssignedNumberWidth | classes/file_organizer.py:252-262 | each assigned number has the digits of the title count and reads as the 1-based position, one less with a trailer |
| Naming.TitleFrom | classes/file_organizer.py:257-261 | the first title from a position whose normalised form is in the normalised name, and None when there is none |
| Naming.FindTitle | classes/file_organizer.py:255-273 | the title loop finds the first matching title, oldest first, and None when none matches |
| Naming.DropDateFrom | classes/file_organizer.py:264 | the left-to-right removal never lengthens the rest of the name, and leaves it unchanged when no "date " follows a word boundary |
| Naming.DropDate | classes/file_organizer.py:264 | `re.sub` of the date and its space never lengthens the name, and leaves it unchanged when no "date " follows a word boundary |
| Naming.SplitAtUnique | classes/file_organizer.py:265 | ` - (?=[^-]*$)` can split at one place only |
| Naming.SplitLast | classes/file_organizer.py:265 | the split cuts the name at a " - " after which no dash follows, into two parts around it, and gives no second part (so `[1]` raises) exactly when there is no such place |
| Naming.SplitAtLastDash | classes/file_organizer.py:265 | where the separator matches, its dash is the last dash of the name |
| Naming.TemplateHasMarker | classes/file_organizer.py:243 | a name built from the template carries an episode marker |
| Naming.AssignedNameHasMarker | classes/file_organizer.py:264-267 | every new name has an episode marker, so it is not a candidate again |
| Naming.AssignmentRenames | classes/file_organizer.py:255-273 | a file is skipped exactly when no title matches, and a renamed one gets the template name with the matched number at `num_digits` digits |
| Assigning.Replace | classes/file_organizer.py:270 | a rename replaces one entry of the listing and keeps its length |
| Assigning.AssignStepCases | classes/file_organizer.py:255-273 | one file is skipped without a match, raises for an unsplittable name or a missing file, and is otherwise renamed in the folder and in the three maps |
| Assigning.FilesRaisedStays | classes/file_organizer.py:255-273 | after an exception the inner loop changes nothing |
| Assigning.FilesRaisedPrefix | classes/file_organizer.py:255-273 | once an exception is raised, the rest of a date's files change nothing |
| Assigning.AllRaisedPrefix | classes/file_organizer.py:251-273 | once an exception is raised, the rest of the dates change nothing |
| Assigning.StepKeeps | classes/file_organizer.py:255-273 | one file keeps the folder size and the map keys, and brings in only a name with a marker |
| Assigning.FilesKeep | classes/file_organizer.py:255-273 | a date's loop keeps the folder size and the map keys, and brings in only names with markers |
| Assigning.AssignKeeps | classes/file_organizer.py:251-273 | both loops keep the folder size and the map keys, and every new name has a marker |
| Assigning.EmptyFeedChangesNothing | classes/file_organizer.py:251-273 | an empty feed renames nothing |
| Assigning.EmptyFeedFiles | classes/file_organizer.py:255-273 | an empty feed renames none of a date's files |
| Renumber.End | classes/file_organizer.py:30 | `$` matches at the end or before one final newline |
| Renumber.NumberShapeOf | classes/file_organizer.py:30 | an episode word, whitespace and digits form group 5 |
| Renumber.TitleEndOfMeaning | classes/file_organizer.py:30 | the lazy group 3 ends at the first place a match allows, and nowhere when none does |
| Renumber.MatchAtMeaning | classes/file_organizer.py:30 | the match puts the date at the last feasible place and ends the title at the first, and there is none only when no date start allows a match |
| Renumber.MatchGroups | classes/file_organizer.py:58-64 | the groups exist exactly when the pattern matches |
| Renumber.MatchGroupsShape | classes/file_organizer.py:58-64 | the groups tile the name, and each has the shape its part of the pattern demands |
| Renumber.FixedNameSwaps | classes/file_organizer.py:58-71 | a name the pattern does not match is kept, and a matched one is rebuilt from the same groups with the number before the title |
| Renumber.FixKeepsSuffix | classes/file_organizer.py:64-66 | renumbering keeps the file's extension and format |
| Split.SplitDecisionCrashes | classes/file_organizer.py:320-335 | the rule as written raises exactly when an active full-years podcast has no earliest year, no last date or a last date without a numeric year, and agrees with the intended rule elsewhere |
| Split.SplitDecisionMeaning | classes/file_organizer.py:320-346 | a podcast is split exactly when it is active, set to full years, its non-zero first and last years differ, the last is the current year, and the folder is new or the user proceeds |
| Split.NoDatedFilesCrash | classes/file_organizer.py:329-330 | a folder of undated files makes the rule as written raise `TypeError`, where the intended rule does not split |
| Split.UnknownKeyCrashes | classes/file_organizer.py:349 | `int("Unkn")` raises on the "Unknown" key, which the intended loop skips |
| Split.MovesKeyAgrees | classes/file_organizer.py:349-350 | where the loop as written does not raise, it moves exactly the keys the intended test moves |
| Split.RemovalShrinks | classes/file_analyzer.py:334-353 | `remove_file` lists no file under a year that was not listed before |
| Split.StepMoves | classes/file_organizer.py:351-366 | one file either changes nothing or leaves the folder for the moved ones, and the maps lose it |
| Split.FilesMove | classes/file_organizer.py:351-366 | the loop over a list moves only that list's files and loses none |
| Split.KeysMove | classes/file_organizer.py:348-366 | the move loop moves only folder files listed under the current year, and every file stays in the folder or among the moved ones, as often as before |
| Split.OtherFilesStay | classes/file_organizer.py:348-366 | a file not listed under the current year stays in the folder |
| Organizer.FileOrganizer.constructor | classes/file_organizer.py:13-24 | the organizer holds the given folder, analyzer and settings |
| Organizer.FileOrganizer.PadEpisodeNumbers | classes/file_organizer.py:169-202 | the folder becomes `PaddedFolder` of itself, and the analyzer is not touched |
| Organizer.FileOrganizer.FindFilesWithoutEpisodeNumbers | classes/file_organizer.py:204-235 | returns `WithoutNumbers` of the folder, with each date once |
| Organizer.FileOrganizer.AssignEpisodeNumbersFromRss | classes/file_organizer.py:237-273 | the folder and maps become `AssignEpisodeNumbers` of the old ones, and it reports whether an exception ended the loops |
| Organizer.FileOrganizer.AssignDates | classes/file_organizer.py:251-273 | the outer loop performs `AssignAll` |
| Organizer.FileOrganizer.AssignDate | classes/file_organizer.py:255-273 | the inner loop performs `AssignFiles` |
| Organizer.FileOrganizer.AssignFile | classes/file_organizer.py:256-273 | one candidate performs `AssignStep` |
| Organizer.FileOrganizer.FixEpisodeNumbering | classes/file_organizer.py:51-71 | a non-matching path is returned unchanged, a missing file raises, and otherwise the file is renamed to the fixed name |
| Organizer.FileOrganizer.CheckSplit | classes/file_organizer.py:314-366 | splits exactly as the intended year rule says; without a split the folder and all three maps and the bounds are unchanged; with one it leaves the state `MoveKeys` gives over the keys as they were at the start, with the old bounds when no file moved and the bounds `DateRange` gives otherwise |
| Organizer.FileOrganizer.MoveYear | classes/file_organizer.py:348-366 | the loop over the keys performs `MoveKeys`, keeps the bounds when no file moved and leaves the recomputed bounds otherwise |
| Organizer.FileOrganizer.MoveKey | classes/file_organizer.py:349-366 | one key of the loop: the files of a key of the current year go through `MoveFiles` and any other key moves nothing; no file moved keeps the date map and bounds, a moved file leaves the recomputed bounds |
| Organizer.FileOrganizer.MoveListed | classes/file_organizer.py:351-366 | the loop over a copy of a list performs `MoveFiles`, keeps the date map and bounds when no file moved and leaves the recomputed bounds otherwise |
| Organizer.FileOrganizer.MoveFile | classes/file_organizer.py:352-366 | one file performs `MoveStep`; a moved file leaves the bounds `remove_file` recomputes, and a skipped one changes nothing |
| Organizer.NumberedEntries | classes/file_organizer.py:175-181 | the first loop collects `Hits`: every numbered entry with its first number |
| Organizer.LargestNumber | classes/file_organizer.py:187 | the largest collected number |
| Organizer.PadHits | classes/file_organizer.py:197-201 | the rename loop over the collected entries gives `PaddedFolder` |
| Organizer.GroupFiles | classes/file_organizer.py:211-221 | the grouping loop gives `GroupByDate` |
| Organizer.CollectUnnumbered | classes/file_organizer.py:223-231 | the second loop gives `Unnumbered` |

## Left out

- Analyzer.FileAnalyzer.constructor: also sets `bitrates`, `file_formats`, `durations` and `all_vbr`, which `__init__` leaves unset. The model assumes `analyze_files` runs first, so the `AttributeError` that `remove_file`, `update_file_path` or `get_longest_duration` raise before it is not modelled.
- Tag reading through mutagen (`mutagen.File`, `EasyID3`, `MP4`, the ID3 frames) is an input: a `Probe` per file holding what the reader would report. A tag reader that raises while reading `TDRC` is not modelled; an MP3 without an ID3 tag never gets there, because line 73 skips it. The falsiness of a file object is taken from mutagen, whose code is not part of this model: an MP3 or MP4 is falsy exactly when its tag container is absent or empty. The exception a tagged MP4's date lookup raises is modelled up to `analyze_files`; what its caller does with it is not part of this model.
- Date parsing with `strptime` formats, `dateutil` and `parsedate_to_datetime` is a parameter `parse` that gives a canonical date or None. Only the file-name date check is written out.
- The modification time of a file is an input (`AudioFile.mtime`). `datetime.now()` in `check_split` is the parameter `currentYear`.
- The prompts `ask_yes_no` are parameters: `proceed` for an existing `--CURRENT--` folder, and `overwrite` per file name.
- `normalize_string` is a parameter `normalize`. `utils.py` is not part of this model, and neither are logging, the spinner, `titlecase_filename` and `perform_replacements`.
- `rename_files`, `rename_file` and `get_new_name` are not modelled. Only `fix_episode_numbering` is, as a pass on one path; its pattern is the default one.
- `update_file_metadata`, `find_unwanted_files`, `rename_folder`, `check_numbering`, `duplicate_metadata` and `organize_files` are outside the core. They rely on tag writing, prompts and other helpers not modelled here.
- `get_average_duration` is not modelled, because it divides floating-point durations.
- Configured patterns (`episode_pattern`, `date_pattern`, `title_split_pattern`, `ep_nr_at_end_file_pattern`, `conflicing_dates_replacement`) are modelled at their defaults only.
- `\s`, `\d`, `\w` and case-insensitive matching are ASCII only. Unicode digits, letters, whitespace and case folding are not modelled.
- `rglob('*')` recursion is a flat listing given as input. Directories in the listing, and the difference between `iterdir` and `rglob`, are not modelled.
- On POSIX, `rename` onto an existing path replaces it. The model's listing replaces the renamed entry and does not drop another entry with the target's path.
- Renumber.FixKeepsSuffix: stated only for names without a final newline, because `$` may match before a final newline and the extension group then ends before it.
- Organizer.FileOrganizer.PadEpisodeNumbers: leaves the analyzer's maps holding the old paths, as the code does. No property relates them to the padded folder.
- Organizer.FileOrganizer.CheckSplit: uses the intended year rule and key test (see Findings), so the model does not raise where the code does. The crash is stated about `Split.SplitDecisionAsWritten` and `Split.KeyYearAsWritten`.
- `duplicate_metadata` after the move, and creating the `--CURRENT--` folder on disk, are reduced to recording the folder's names.

## Findings

| source | as written | input that shows it | evidently intended | confidence | as-written member | corrected member |
|---|---|---|---|---|---|---|
| classes/file_organizer.py:329 | `int(self.podcast.analyzer.earliest_year)` and `last_episode_date[:4]` with no dated key | an active podcast with `full_years_only` whose files all have the date key "Unknown": `earliest_year` and `last_episode_date` are None and `int(None)` raises `TypeError` | a podcast without dated files spans no years and is not split | high; not executed | Split.SplitDecisionAsWritten, Split.NoDatedFilesCrash | Split.SplitDecision, Split.SplitDecisionMeaning |
| classes/file_organizer.py:349 | `year = int(date[:4])` over every key of `file_dates` | a split podcast with at least one undated file has the key "Unknown", and `int("Unkn")` raises `ValueError`; the keys are sorted, so "Unknown" comes last and the raise comes after every move and before `duplicate_metadata` | keys without a numeric year are skipped, as `get_date_range` does | high; not executed | Split.KeyYearAsWritten, Split.UnknownKeyCrashes | Split.MovesKey, Split.MovesKeyAgrees |
