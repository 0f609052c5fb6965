# screenshot-memories, modelled in Dafny

`screenshot-memories.py` gives screenshots the date metadata that photos
carry, so that photo albums sort them in with the photos. For each image it:

- assembles a dictionary of facts about the file: its path, its sniffed
  format, a timestamp guessed from the file name, and its modification time;
- picks the earliest believable timestamp from that dictionary;
- writes that timestamp into six EXIF/XMP date fields, plus the XMP subject
  "Screenshot".

It does not overwrite a file that already holds EXIF or XMP data unless it is
forced to. In a dry run it only reports what it would write.

This project models the decision logic of the script and proves its
properties. It has one module per part:

- `Base` (`base.dfy`): option, result and error types, and a `Probe` for the
  result of a foreign call that may fail.
- `DateTimes` (`datetimes.dfy`): naive date-times. Field ranges follow the
  proleptic Gregorian calendar with leap years. Comparison is lexicographic.
- `PathTime` (`path_time.dfy`): the filename parser, as pure functions. Two
  semantics of the pattern are given:
  - `Matches`, the regular expression with full backtracking;
  - `Scan`, a deterministic scanner.
  Lemmas show they agree. `SearchFrom` is `re.search` and finds the leftmost
  start.
- `PathTimeExamples` (`path_time_examples.dfy`): the examples named in the
  script's comments, and the out-of-range cases.
- `Resolver` (`resolver.dfy`): `choose_best_datetime`, as a method whose loop
  fills the map of valid times, stated against ghost predicates for
  "survives" and "earliest survivor".
- `FileInfoGathering` (`file_info.dfy`): `gather_file_info`, building the
  dictionary key by key. The format sniffer's verdict and the modification
  time are inputs.
- `MetadataWriter` (`metadata_writer.dfy`): `persist_file_info`. It has:
  - a class for the file on disk;
  - a class for the in-memory `pyexiv2.ImageMetadata` container, with `Read`,
    `Assign` and `Write` methods;
  - the two loops, which build the write-set and then assign it;
  - the decision to skip, fail, preview or commit.
- `CommandLine` (`command_line.dfy`): the flag prefix of `main`.

## Model

| member | source | states |
|---|---|---|
| DateTimes.DaysInMonth | screenshot-memories.py:128-134 | a month has 28 to 31 days, and 29 exactly for February of a leap year |
| DateTimes.MakeDateTime | screenshot-memories.py:127-136 | the constructor yields the date-time with those fields and microsecond 0 exactly when every field is in range; any out-of-range field gives None, which stands for the caught ValueError |
| DateTimes.CalendarExamples | screenshot-memories.py:127-136 | 29 February exists in 2016 and 2000 but not in 1900; 30 February, 31 April, year 0, month 13 and hour 24 are rejected; 9999-12-31 23:59:59 is accepted |
| DateTimes.Before | screenshot-memories.py:58 | `a < b` on naive date-times compares year, month, day, hour, minute, second and microsecond in turn, the first field that differs deciding; a date-time is never before itself, and never before one of an earlier year |
| DateTimes.BeforeIsStrictTotalOrder | screenshot-memories.py:58 | the comparison of naive date-times is irreflexive, transitive and total |
| DateTimes.AtMostAntisymmetric | screenshot-memories.py:66 | two date-times that are each at most the other are equal |
| PathTime.DecimalValue | screenshot-memories.py:129-134 | `int()` of a run of n digits is below 10^n |
| PathTime.Matches | screenshot-memories.py:120 | the regular expression `(\d{4})\D?(\d{2})\D?…(\d{2})` with backtracking: `\d{n}` takes exactly n digits as a group, `\D?` takes one non-digit or nothing, and a match need not reach the end of the text; every match captures one group per `(\d{n})` |
| PathTime.Scan | screenshot-memories.py:120 | a successful scan captures one group per `(\d{n})` of the pattern, and every group is all digits |
| PathTime.ScanSound | screenshot-memories.py:120 | whatever the scanner captures is a match of the regular expression |
| PathTime.ScanComplete | screenshot-memories.py:120 | every match of the regular expression at a start is the one the scanner finds there |
| PathTime.MatchUnique | screenshot-memories.py:120 | at a given start the pattern matches in at most one way |
| PathTime.ScanIgnoresSuffix | screenshot-memories.py:120-121 | text after a match does not change the match |
| PathTime.PatternShape | screenshot-memories.py:120 | the pattern has six groups, and every `\D?` is followed by digits |
| PathTime.NoMatchWhereScanFails | screenshot-memories.py:120-121 | where the scanner fails, the regular expression has no match |
| PathTime.SearchFrom | screenshot-memories.py:121 | a found start is in range, and the scanner succeeds there with the reported groups |
| PathTime.SearchFromLeftmost | screenshot-memories.py:121 | the search reports a start where the pattern matches and no earlier start matches; when it reports nothing, no start matches |
| PathTime.DateTimeOfGroups | screenshot-memories.py:128-134 | the six groups, read as decimal numbers, are year, month, day, hour, minute and second with microsecond 0; the result is None exactly when those fields do not form a valid date-time |
| PathTime.GuessTimeFromPath | screenshot-memories.py:112-140 | a guess is always a valid date-time with no microseconds |
| PathTime.GuessFromLeftmostMatch | screenshot-memories.py:121-136 | the guess is decided by the groups of the leftmost match alone: it is those six numbers if they are in range, None otherwise |
| PathTime.GuessWithoutMatch | screenshot-memories.py:122-123 | a path with no match gives None |
| PathTimeExamples.ScanLayout | screenshot-memories.py:120 | a text holding six digit groups of widths 4,2,2,2,2,2, each joined to the next directly or by one non-digit, is scanned from the q-th group onward into exactly the remaining groups |
| PathTimeExamples.GuessFromLayout | screenshot-memories.py:120-134 | such a layout starting at position 0 decides the guess: it is the date-time of its six groups |
| PathTimeExamples.ParseByLayout | screenshot-memories.py:120-134 | the same, given the groups and their positions character by character |
| PathTimeExamples.GuessAtStart | screenshot-memories.py:121-134 | a match at position 0 decides the guess |
| PathTimeExamples.ParseCompact | screenshot-memories.py:119 | "20190815-073404" gives 2019-08-15 07:34:04 |
| PathTimeExamples.ParseIso | screenshot-memories.py:116 | "1997-08-29T02:14:00" gives 1997-08-29 02:14:00 |
| PathTimeExamples.ParseUnderscored | screenshot-memories.py:117 | "2016-06-23_16-41-53" gives 2016-06-23 16:41:53 |
| PathTimeExamples.ParseRunTogetherTime | screenshot-memories.py:118 | "2017-03-13-192338" gives 2017-03-13 19:23:38 |
| PathTimeExamples.ParseOutOfRange | screenshot-memories.py:126-136 | "20191332-999999" matches, but month 13 makes the guess None rather than an error |
| PathTimeExamples.ParseFebruary30 | screenshot-memories.py:126-136 | "2019-02-30_12-00-00" gives None |
| PathTimeExamples.ParseFirstMatchOnly | screenshot-memories.py:121-136 | an out-of-range first match gives None even though a valid match follows |
| PathTimeExamples.TwoSeparatorsRejected | screenshot-memories.py:120 | in "2019-08-15__07-34-04" no match starts at position 0: two non-digits between groups are one more than a separator allows |
| PathTimeExamples.FirstGroupFails | screenshot-memories.py:120 | no match starts where a non-digit falls within the first four characters |
| PathTimeExamples.TooCloseToEnd | screenshot-memories.py:120 | no match starts fewer than four characters before the end |
| PathTimeExamples.TwoSeparatorsNoGuess | screenshot-memories.py:120-123 | "2019-08-15__07-34-04" has no match at any start, so no timestamp is guessed from it |
| Resolver.Lower | screenshot-memories.py:55 | lower-casing keeps the length and maps each character on its own |
| Resolver.Contains | screenshot-memories.py:55 | `t in s`: t is a prefix of s or of one of its suffixes; a containing string is at least as long as t |
| Resolver.ContainsIsSubstring | screenshot-memories.py:55 | `t in s` holds exactly when t occurs at some index of s |
| Resolver.ShorterNeverContains | screenshot-memories.py:55 | a string shorter than t does not contain t |
| Resolver.IsCandidateName | screenshot-memories.py:55 | a key is a candidate exactly when its lower-cased form contains "time" or "date"; a candidate has at least four characters |
| Resolver.CandidateByOccurrence | screenshot-memories.py:55 | a key that shows "time" or "date" at some index, in any case, is a candidate |
| Resolver.PathIsNotCandidate | screenshot-memories.py:55 | the key "path" is never considered |
| Resolver.TypeIsNotCandidate | screenshot-memories.py:55 | the key "type" is never considered |
| Resolver.PathTimeIsCandidate | screenshot-memories.py:55 | the key "pathtime_obj" is considered |
| Resolver.MTimeIsCandidate | screenshot-memories.py:55 | the key "mtime_obj" is considered |
| Resolver.MixedCaseIsCandidate | screenshot-memories.py:55 | the test ignores case: "CreateDate" is considered |
| Resolver.InWindow | screenshot-memories.py:58 | a value is inside the window exactly when it is strictly after 1990-01-01 00:00:00 and strictly before local time or before UTC; such a value is from 1990 or later |
| Resolver.Earliest | screenshot-memories.py:66 | `sorted(values)[0]` is one of the values and at most every value |
| Resolver.ChooseBestDateTime | screenshot-memories.py:48-67 | success exactly when some candidate survives and no candidate holds a non-datetime; the result is a surviving value at most every survivor; InsufficientMetadata exactly when nothing survives and nothing is uncomparable; any other failure names a candidate key holding a non-datetime |
| Resolver.EarliestSurvivorUnique | screenshot-memories.py:62-67 | the earliest survivor is unique, so the result does not depend on iteration order |
| Resolver.WindowEdges | screenshot-memories.py:51-58 | 1990-01-01 00:00:00 itself is rejected; a value between the two clocks is accepted whichever clock is ahead; a value at or after both clocks, or not after the floor, is rejected |
| FileInfoGathering.GatherFileInfo | screenshot-memories.py:143-164 | an unreadable file is a FileAccess failure; a sniffed type other than jpeg or png is UnsupportedFileType carrying the tag, whatever the name and mtime; success exactly for a supported type with a readable mtime, and then the dictionary holds exactly path, type, mtime_obj, and pathtime_obj when the filename gives a guess |
| FileInfoGathering.GatheredInfoComparable | screenshot-memories.py:150-162 | a gathered dictionary holds a datetime under every key that names a time or a date, so resolving it never meets an uncomparable value |
| FileInfoGathering.GatheredSurvivorKeys | screenshot-memories.py:150-162 | only mtime_obj and pathtime_obj of a gathered dictionary can survive |
| FileInfoGathering.MTimeSurvives | screenshot-memories.py:162 | mtime_obj survives exactly when the modification time is inside the window |
| FileInfoGathering.NoGuessNoPathTime | screenshot-memories.py:156-157 | without a filename guess there is no pathtime_obj key |
| FileInfoGathering.PathTimeSurvives | screenshot-memories.py:156-157 | pathtime_obj survives exactly when there is a guess and it is inside the window |
| FileInfoGathering.GatheredInfoSurvivors | screenshot-memories.py:150-162 | the survivors of a gathered dictionary are exactly mtime_obj and pathtime_obj, each when its value is inside the window |
| FileInfoGathering.GatheredInfoResolves | screenshot-memories.py:150-162 | a gathered dictionary resolves exactly when the modification time or the filename guess is inside the window |
| MetadataWriter.SubjectIsNotDateField | screenshot-memories.py:182-191 | the subject key is not one of the six date fields |
| MetadataWriter.DistinctElementsCardinality | screenshot-memories.py:181-191 | a key list without repetitions yields as many distinct keys as entries |
| MetadataWriter.WriteSetHasSevenEntries | screenshot-memories.py:181-191 | the write-set has exactly seven entries |
| MetadataWriter.WriteSetUnique | screenshot-memories.py:181-191 | the write-set for a timestamp is unique |
| MetadataWriter.BuildWriteSet | screenshot-memories.py:181-191 | the write-set is exactly the six date fields holding the resolved timestamp, plus the subject holding ["Screenshot"] |
| MetadataWriter.HasExifOrXmpKeys | screenshot-memories.py:173 | `md.exif_keys or md.xmp_keys` holds exactly when some key of the container starts with "Exif." or "Xmp."; it never holds for an empty container |
| MetadataWriter.GuardExamples | screenshot-memories.py:173 | an EXIF key or an XMP key triggers the guard; an IPTC-only or empty container does not |
| MetadataWriter.ImageFile.constructor | screenshot-memories.py:171 | a file starts with the given committed metadata and modification time |
| MetadataWriter.ImageMetadata.constructor | screenshot-memories.py:171 | a new container is bound to its file and starts empty |
| MetadataWriter.ImageMetadata.Read | screenshot-memories.py:172 | reading loads the file's committed metadata into the container |
| MetadataWriter.ImageMetadata.Assign | screenshot-memories.py:195 | assigning one key changes that key of the in-memory copy only |
| MetadataWriter.ImageMetadata.AssignAll | screenshot-memories.py:193-195 | after the loop the container holds its old keys overridden by the whole write-set |
| MetadataWriter.ImageMetadata.Write | screenshot-memories.py:198 | committing copies the container to the file and keeps the modification time when asked to; when the file system refuses the write it reports failure (the OSError) and the file is unchanged |
| MetadataWriter.PersistFileInfo | screenshot-memories.py:167-201 | skipped exactly when the file holds EXIF or XMP data and force is off; otherwise, when resolution fails, a failure reported before any field is assigned: InsufficientMetadata exactly when no candidate is uncomparable, else NotComparable naming a candidate key of the dictionary whose value is not a date-time; when resolution succeeds, a preview in a dry run, a write in a real run the file system accepts, and FileAccess in a real run it refuses; a preview, a write or a refused write carries the earliest survivor and its write-set, and the container holds the old tags overridden by the write-set; only an accepted write changes the file; the modification time is always kept |
| MetadataWriter.PreviewMatchesWrite | screenshot-memories.py:196-201 | on two copies of one file, a dry run skips exactly when the real run skips, fails exactly when the real run fails for a reason other than file access, and previews exactly when the real run writes or has its write refused; the real run writes exactly when the dry run previews and the file system accepts the write, and then the preview shows the same timestamp and write-set |
| CommandLine.FlagPrefix | screenshot-memories.py:212-221 | the recognised prefix has one entry per flag that is set |
| CommandLine.ParseArgs | screenshot-memories.py:206-221 | usage with exit code 1 exactly for no arguments; the IndexError exactly for a lone `--dryrun`; otherwise the arguments are exactly the recognised flag prefix followed by the files; dryrun is set exactly when the first argument is `--dryrun`, and force exactly when the next one is `--force` |
| CommandLine.FlagOrderExamples | screenshot-memories.py:214-221 | `--force --dryrun f` is a forced real run on the files `--dryrun` and `f`; `--dryrun --dryrun` is a dry run on a file named `--dryrun`; a flag after a file name is a file name |

## Left out

- The metadata library's internals are not modelled: reading a file's
  metadata (and its failures), the conversion of each value into the EXIF
  `YYYY:MM:DD HH:MM:SS` or XMP ISO format, and the encoding on disk. A
  container is an abstract map from keys to values.
- Whether the file system accepts `md.write` is an input of
  `PersistFileInfo`. A refused write stands for the OSError it raises, which
  the loop of `main` catches (lines 234-235). Partial writes are not modelled.
- mtime preservation when writing is a promise of the metadata library. It is
  stated as the contract of `MetadataWriter.ImageMetadata.Write`, not proved.
- The foreign calls are inputs:
  - `imghdr.what` becomes a `Probe` of the format tag; Unreadable stands for
    any OSError it raises.
  - `os.path.getmtime` and its local-time conversion by
    `datetime.fromtimestamp` together become a `Probe` of the date-time.
    Overflow in that conversion is not modelled.
- The clocks `datetime.now()` and `datetime.utcnow()` are parameters of the
  resolver. The wall-clock time an unpreserved write would stamp is a
  parameter too.
- `_find_datetime_metadata_fields` (lines 70-109) is a debugging aid that
  prints and exits. It is not part of this model.
- Every `print` and stderr diagnostic is left out. What the messages report is
  kept as the `Decision` of a call and the `Invocation` of a command line.
- The per-file loop of `main` (lines 223-237) is left out: its `os.path.abspath`
  and its exception handlers are I/O plumbing. Each file is processed on its
  own, by `GatherFileInfo` followed by `PersistFileInfo`.
- Resolver.Lower: `str.lower()` acts on ASCII letters only. Python's version
  also lower-cases non-ASCII letters.
- PathTime.IsDigit: the `\d` and `\D` classes of the pattern (and so
  PathTime.Scan and PathTime.Matches) treat only ASCII 0-9 as digits. Python's
  `re` also counts other Unicode decimal digits.
- Resolver.ChooseBestDateTime: when several candidate keys hold
  non-datetimes, the order of Python's dictionary decides which one raises
  the TypeError. The model names some such key, so its contract does not say
  which.
- `gather_file_info` calls the parser twice on the same path (lines 156-157).
  The model calls it once: the parser is a pure function, so both calls give
  the same result.

Where the script's behaviour differs from what its description suggests, the
model follows the code:

- Each separator in the filename pattern is `\D?`, so at most one non-digit
  may stand between two groups, not several.
- The guard only looks at EXIF and XMP keys (line 173). A file whose only
  metadata is IPTC is written to without `--force`; its IPTC tags are kept.
- A key containing "time" or "date" whose value is not a date-time makes the
  comparison raise TypeError, and nothing catches it. This is modelled as the
  `NotComparable` error. A dictionary built by `gather_file_info` never has
  such a key (`GatheredInfoComparable`).
