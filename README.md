# DJI frame geotagging, modelled in Dafny

`frame_geotag_dji.py` geotags still frames extracted from DJI drone videos.
It scans a directory for `DJI_*.srt` subtitle files and for extracted frames
named `DJI_<digits>_SE_<digits>.jpg` or `DJI_<digits>_<digits>.jpg`, groups
the frames by video prefix and sorts each group by frame number. It pairs
each group with the subtitle file of the same prefix. For every frame it
computes the frame's time from the extraction rate and looks for the first
subtitle entry whose interval holds that time. It parses latitude,
longitude and altitudes out of that entry's text, builds an EXIF GPS record
and hands it to the EXIF writer. It counts successes per group and overall.

The model covers:

- `Numerals` (`numerals.dfy`): the `float()` syntax of the captured number
  tokens and the `int()` syntax of frame digits, with exact values.
- `FileNames` and `FileNameFacts` (`filenames.dfy`):
  - `extract_video_prefix` and `extract_frame_number`, with their
    case-insensitive regular expressions written out as scanners;
  - the `.srt`/`.jpg` tests of the directory scan.
- `Telemetry` and `TelemetryFacts` (`telemetry.dfy`):
  - `parse_dji_gps_data`: the four `re.search` calls as "leftmost match"
    searches, then the conversions;
  - a round trip from four number tokens written in the DJI layout back to
    the parsed fix.
- `GpsExif` and `GpsExifFacts` (`exif.dfy`):
  - `to_deg`;
  - the GPS record `set_gps_location` builds: references, degree/minute/second
    rationals and the altitude rational. These are tags of the GPS Info IFD
    of the Exif 2.3 specification (CIPA DC-008, section 4.6.6).
- `Grouping` and `GroupingFacts` (`grouping.dfy`):
  - the directory scan into `srt_files` and `image_groups`. Python's
    insertion-ordered dictionaries are modelled as a key order plus a map;
  - the stable sort by frame number;
  - the construction of `matched_groups`.
- `Alignment` and `AlignmentFacts` (`alignment.dfy`):
  - the frame time;
  - the search for the subtitle entry whose interval holds it;
  - what happens with that one entry.
- `Geotag` and `GeotagFacts` (`geotag.dfy`):
  - the extraction rate and its default;
  - the loops over groups and images with `group_success`, `total_success`
    and `total_images`;
  - the early exits;
  - the whole run (`Run`), which the method `GeotagDjiFrames` implements.

The loops of `geotag_dji_frames` are methods with `while` loops. Each is
proved against a specification function: `DiscoverFiles` against `Scan`,
`MatchGroups` against `Matched`, `TagFrame` against `FrameOutcomeOf`,
`TagGroup` against `Succeeded`, `ProcessGroups` against `Reports` and its
totals, and `GeotagDjiFrames` against `Run`. The properties are proved as
lemmas about those functions.

The outside world enters as parameters:

- The sorted directory listing is a sequence of names.
- `pysrt.open` is a function `openSrt` from file name to `Option` of subtitle
  entries. `None` stands for any exception.
- The EXIF write (`piexif.load`/`dump`/`insert`) is a function `write` from
  image name and GPS record to the `bool` that `set_gps_location` returns.
- The extraction-rate answer is an `Option<real>`. `None` stands for an
  empty or unconvertible answer.

Behaviour of the source worth noting:

- A frame takes the **first** entry, in file order, whose **closed**
  interval `[start, end]` holds its time. The search stops at that entry even
  when its text does not parse.
- Nothing clamps a frame to the last entry: a frame past the end of the
  video gets no telemetry.
- A coordinate of exactly zero gets the empty hemisphere reference `""`.
- Latitude and longitude are not range-checked.
- The `DJI_<digits>_<digits>.jpg` name form is accepted alongside the
  `_SE_` form.

## Model

| member | source | states |
|---|---|---|
| Numerals.ParseDecimal | frame_geotag_dji.py:41-44 | definition of `float()` on a `[-\d.]` token; properties in `ParseDecimalLiteral` and `ParseDecimalOnlyLiterals` |
| Numerals.ParseInt | frame_geotag_dji.py:98-106 | definition of `int()` on a captured group; properties in `ParseIntDigits` |
| Numerals.ParseUnsignedLiteral | frame_geotag_dji.py:41-44 | an unsigned well-formed literal (`12`, `12.`, `12.5`, `.5`) converts to the value its digits denote |
| Numerals.ParseDecimalLiteral | frame_geotag_dji.py:41-44 | `float()` accepts every literal made of an optional `-`, then digits with an optional `.` and fraction, or `.` and digits, and returns its exact value |
| Numerals.ParseUnsignedOnlyLiterals | frame_geotag_dji.py:41-44 | every unsigned token `float()` accepts is such a literal |
| Numerals.ParseDecimalOnlyLiterals | frame_geotag_dji.py:41-44 | every `[-\d.]` token `float()` accepts is such a literal and converts to its value; all others (`-`, `.`, `1.2.3`, `1-2`) are the `ValueError` path |
| Numerals.ParseIntDigits | frame_geotag_dji.py:98 | `int()` of a digit string is its value, leading zeros allowed |
| FileNames.DigitRunEnd | frame_geotag_dji.py:85 | `\d+` is greedy: the run ends at the first non-digit |
| FileNames.DigitRunStart | frame_geotag_dji.py:96 | the digit run that ends just before `.jpg` starts after the last non-digit |
| FileNames.LastUnderscore | frame_geotag_dji.py:101 | the last `_` before a position, with no `_` after it |
| FileNames.VideoPrefix | frame_geotag_dji.py:82-91 | definition of `extract_video_prefix`; properties in `VideoPrefixIff`, `VideoPrefixShape` and `ShapeVideoPrefix` |
| FileNames.FrameNumber | frame_geotag_dji.py:93-107 | definition of `extract_frame_number`; properties in `SeFrame`, `PlainFrame` and `PrefixedNamesHaveFrames` |
| FileNames.SeGroup | frame_geotag_dji.py:96-98 | definition of the `_SE_` search; properties in `SeFrame` and `PlainNotSe` |
| FileNames.PlainGroup | frame_geotag_dji.py:100-106 | definition of the fallback search; properties in `PlainFrame` |
| FileNames.SrtPrefix | frame_geotag_dji.py:120-122 | definition of the subtitle-name test and its prefix; properties in `SubtitleIsNoImage` and `ScanSrtFile` |
| FileNames.IsDjiJpg | frame_geotag_dji.py:125 | definition of the image-name test; properties in `SubtitleIsNoImage` and `ScanGroups` |
| FileNameFacts.VideoPrefixIff | frame_geotag_dji.py:82-91 | `extract_video_prefix` returns `p` exactly when the name is `p` + `_SE_<digits>.jpg` or `p` + `_<digits>.jpg`, `p` being `DJI_<digits>`, case-insensitively and anchored at both ends |
| FileNameFacts.VideoPrefixShape | frame_geotag_dji.py:82-91 | whatever `extract_video_prefix` returns has one of the two shapes |
| FileNameFacts.ShapeVideoPrefix | frame_geotag_dji.py:82-91 | each name of either shape yields its prefix |
| FileNameFacts.NotJpgRejected | frame_geotag_dji.py:85-91 | a name not ending in `.jpg` (in any case) has no prefix |
| FileNameFacts.SeFrame | frame_geotag_dji.py:96-98 | for an `_SE_` name the frame number is the value of the digits between `_SE_` and `.jpg` |
| FileNameFacts.PlainNotSe | frame_geotag_dji.py:96 | a plain-form name never matches the `_SE_` search |
| FileNameFacts.PlainLastUnderscore | frame_geotag_dji.py:101 | in a plain-form name the last `_` is the one before the frame digits |
| FileNameFacts.LastUnderscoreIs | frame_geotag_dji.py:101 | an `_` followed only by digits up to a position is the last `_` before it |
| FileNameFacts.PlainFrame | frame_geotag_dji.py:100-106 | for a plain-form name the frame number is the value of the digits after the last `_` |
| FileNameFacts.PrefixedNamesHaveFrames | frame_geotag_dji.py:127-131 | every name with a video prefix also has a frame number, so the `is not None` test never drops one |
| FileNameFacts.SeExample | frame_geotag_dji.py:83-94 | `DJI_0609_SE_000001.jpg` gives prefix `DJI_0609` and frame 1 |
| FileNameFacts.PlainExample | frame_geotag_dji.py:83-94 | `DJI_0609_000001.jpg` gives prefix `DJI_0609` and frame 1 |
| Telemetry.MatchAt | frame_geotag_dji.py:33-38 | definition of one pattern matching at one position; properties in `FirstMatch`, `Search` and the `Laid*` lemmas |
| Telemetry.ParseGps | frame_geotag_dji.py:29-51 | definition of `parse_dji_gps_data`; properties in `ParseGpsFirstMatch`, `ParseGpsNeedsKeys`, `ParseGpsWithoutRelAlt`, `ParseGpsWithRelAlt`, `LaidRoundTrip` and `EntryRoundTrip` |
| Telemetry.SkipSpaces | frame_geotag_dji.py:33 | `\s*` consumes exactly the white space that follows |
| Telemetry.SkipNumber | frame_geotag_dji.py:33 | `[-\d.]+` consumes exactly the number characters that follow |
| Telemetry.FirstMatch | frame_geotag_dji.py:33-38 | `re.search` finds the leftmost position where the pattern matches, and no match exists when it finds none |
| Telemetry.Search | frame_geotag_dji.py:33-38 | a group is captured exactly when the pattern matches somewhere, and it is a non-empty run of `[-\d.]` |
| TelemetryFacts.ParseGpsFirstMatch | frame_geotag_dji.py:33-51 | for the leftmost match of any of the four patterns, a token that fails to convert makes the result `None`; otherwise the fix's field for that pattern is the converted token |
| TelemetryFacts.ParseGpsNeedsKeys | frame_geotag_dji.py:40-48 | when latitude, longitude or abs_alt matches nowhere the result is `None`; when rel_alt matches nowhere a fix has no rel_alt |
| TelemetryFacts.ParseGpsWithoutRelAlt | frame_geotag_dji.py:33-51 | when latitude, longitude and abs_alt are found and convert and rel_alt matches nowhere, the result is the fix of the three converted values with no rel_alt |
| TelemetryFacts.ParseGpsWithRelAlt | frame_geotag_dji.py:33-51 | when all four leftmost matches capture tokens that convert, the result is the fix of the four converted values |
| TelemetryFacts.LaidLatitude | frame_geotag_dji.py:33 | in a DJI entry the latitude search captures the latitude token |
| TelemetryFacts.LaidLongitude | frame_geotag_dji.py:35 | the longitude search captures the longitude token |
| TelemetryFacts.LaidRelAlt | frame_geotag_dji.py:37 | the rel_alt search captures the rel_alt token |
| TelemetryFacts.LaidAbsAlt | frame_geotag_dji.py:38 | the abs_alt search captures the abs_alt token, not a number inside `[rel_alt: ...` |
| TelemetryFacts.LaidRoundTrip | frame_geotag_dji.py:29-51 | any text laid out as a DJI entry parses back to its four values, or to `None` when one token does not convert |
| TelemetryFacts.EntryRoundTrip | frame_geotag_dji.py:29-51 | `[latitude: a] [longitude: b] [rel_alt: c abs_alt: d]` parses back to (a, b, d, c) when all four convert, and to `None` otherwise |
| GpsExif.ToDeg | frame_geotag_dji.py:14-27 | definition of `to_deg`; properties in `ToDegSignedRoundTrip`, `ToDegRanges` and `ToDegRoundTrip` |
| GpsExif.Triple | frame_geotag_dji.py:66-68 | definition of a coordinate's rational triple; properties in `TripleReadsBack` |
| GpsExif.BuildGpsIfd | frame_geotag_dji.py:56-71 | definition of the `gps_ifd` record; properties in `GpsIfdCoordinates` and `GpsIfdAltitude` |
| GpsExif.Trunc | frame_geotag_dji.py:23-25 | `int()` truncates toward zero |
| GpsExif.Round5 | frame_geotag_dji.py:26 | `round(x, 5)` is within half of 1e-5 of `x` and a whole number of 1e-5 |
| GpsExifFacts.ToDegSignedRoundTrip | frame_geotag_dji.py:16-27 | the reference letter and the triple together give back the signed coordinate within 1/720000000 degree |
| GpsExifFacts.ToDegRanges | frame_geotag_dji.py:22-26 | degrees are the whole part of `abs(value)`, minutes lie in 0..59 and seconds in [0, 60] |
| GpsExifFacts.ToDegRoundTrip | frame_geotag_dji.py:22-27 | degrees + minutes/60 + seconds/3600 is `abs(value)` to within 1/720000000 degree, half a unit of the fifth decimal of a second |
| GpsExifFacts.SecondsExact | frame_geotag_dji.py:26 | the rounded seconds times 100000 are whole, so in exact arithmetic `int(sec * 100000)` loses nothing |
| GpsExifFacts.SecondsMayReachSixty | frame_geotag_dji.py:24-27 | rounding can give 60 seconds without carrying into the minutes (0.0166666666 gives 0°0'60") |
| GpsExifFacts.TripleReadsBack | frame_geotag_dji.py:66-68 | a coordinate triple has denominators 1, 1 and 100000 and reads back as `abs(value)` within the same tolerance |
| GpsExifFacts.GpsIfdCoordinates | frame_geotag_dji.py:56-71 | the record carries `N`/`S` and `E`/`W` by sign (`""` at zero), altitude reference 0 and both triples, each reading back as the coordinate's magnitude |
| GpsExifFacts.GpsIfdAltitude | frame_geotag_dji.py:62-70 | the altitude is `int(abs_alt * 100)/100`: denominator 100, not larger in magnitude than `abs_alt`, of the same sign and less than 1 cm from it |
| Grouping.ImageEntry | frame_geotag_dji.py:125-131 | definition of the image branch for one name; properties in `ScanGroups` and `PrefixedNamesHaveFrames` |
| Grouping.Step | frame_geotag_dji.py:120-131 | definition of the scan's effect of one name; properties in `ScanIsDistinct`, `ScanGroups` and `ScanSrtFile` |
| Grouping.Scan | frame_geotag_dji.py:116-131 | definition of the scan over the listing; properties in `ScanIsDistinct`, `ScanGroups`, `ScanSrtFile` and `ScanConsistent` |
| Grouping.InsertByFrame | frame_geotag_dji.py:147 | definition of one insertion step of the stable sort; properties in the `InsertByFrame*` lemmas |
| Grouping.SortByFrame | frame_geotag_dji.py:147 | definition of `sorted(..., key=frame)`; properties in `SortByFrameFacts` |
| Grouping.DiscoverFiles | frame_geotag_dji.py:116-131 | the scan loop builds exactly `Scan(names)` |
| Grouping.FileName | frame_geotag_dji.py:120-131 | one name is filed as a subtitle (the last one wins), as an image of its prefix, or not at all |
| GroupingFacts.DistinctKeys | frame_geotag_dji.py:123 | a dictionary's keys are listed once each and are exactly the keys inserted |
| GroupingFacts.SubtitleIsNoImage | frame_geotag_dji.py:120-125 | no `.srt` name is also a `.jpg` name, so the `elif` hides no image |
| GroupingFacts.ScanIsDistinct | frame_geotag_dji.py:116-131 | `srt_files` and `image_groups` are keyed by the distinct subtitle and image prefixes, in order of first appearance in the listing |
| GroupingFacts.ScanGroups | frame_geotag_dji.py:125-131 | the group of a prefix holds exactly that prefix's images with their frame numbers, in listing order, and exists only when there is one |
| GroupingFacts.ScanSrtFile | frame_geotag_dji.py:120-123 | `srt_files[p]` is the last subtitle file of the listing with prefix `p` |
| GroupingFacts.ScanConsistent | frame_geotag_dji.py:116-131 | the scan's key orders are duplicate-free, match the maps' keys, and no image group is empty |
| GroupingFacts.InsertByFrameMultiset | frame_geotag_dji.py:147 | inserting adds exactly one image |
| GroupingFacts.InsertByFrameSorted | frame_geotag_dji.py:147 | inserting into a group sorted by frame keeps it sorted |
| GroupingFacts.InsertByFrameStable | frame_geotag_dji.py:147 | the inserted image goes after every image with the same frame number |
| GroupingFacts.SortByFrameFacts | frame_geotag_dji.py:147 | `sorted(..., key=frame)` is ordered by frame, a permutation of the group, and keeps listing order among equal frame numbers |
| Grouping.Matched | frame_geotag_dji.py:141-148 | definition of `matched_groups`; properties in `KeysInMembers`, `MatchedGroups` and `NothingMatched` |
| Grouping.MatchGroups | frame_geotag_dji.py:141-148 | the matching loop builds exactly `Matched` over the keys of `srt_files` |
| GroupingFacts.KeysInMembers | frame_geotag_dji.py:143-144 | a prefix is kept exactly when it is a key of both dictionaries |
| GroupingFacts.MatchedGroups | frame_geotag_dji.py:141-148 | `matched_groups` lists, in `srt_files` order, exactly the prefixes with both a subtitle file and images, each with its subtitle file and its images sorted by frame |
| GroupingFacts.NothingMatched | frame_geotag_dji.py:150-154 | no group is matched exactly when no subtitle prefix has images |
| Alignment.FrameTimeMs | frame_geotag_dji.py:212-213 | definition of the frame time; properties in `FrameTimeMonotone` and `SharedBoundaryGoesToEarlier` |
| Alignment.Covers | frame_geotag_dji.py:222 | definition of the closed-interval test; properties in `FirstCovering` and `EntriesFollowFrames` |
| Alignment.FrameOutcomeOf | frame_geotag_dji.py:212-242 | definition of one frame's outcome; properties in `FrameOutcomeSpec`, `LaterEntriesIgnored` and `PastLastEntryUntagged` |
| Alignment.FirstCovering | frame_geotag_dji.py:217-222 | the entry found holds the time and no earlier entry does; none found means no entry holds it |
| Alignment.FirstCoveringIs | frame_geotag_dji.py:217-222 | an entry that holds the time with none before it is the one the loop stops at |
| Alignment.TagFrame | frame_geotag_dji.py:212-242 | the per-frame loop yields `FrameOutcomeOf`, and `gps_data_found` is set exactly when a parsed entry was handed to the writer |
| AlignmentFacts.FrameTimeMonotone | frame_geotag_dji.py:212-213 | with a positive rate, a frame's time is later than another's exactly when its number is larger, and not earlier exactly when its number is not smaller |
| AlignmentFacts.FrameOutcomeSpec | frame_geotag_dji.py:212-242 | no entry exactly when no interval holds the frame time; otherwise the first holding entry, unparsable exactly when its text fails to parse, written with the fix parsed from it and the writer's verdict |
| AlignmentFacts.LaterEntriesIgnored | frame_geotag_dji.py:217-239 | entries after the first holding one never affect the outcome |
| AlignmentFacts.EntriesFollowFrames | frame_geotag_dji.py:212-222 | over time-ordered entries, a later frame never takes an earlier entry |
| AlignmentFacts.PastLastEntryUntagged | frame_geotag_dji.py:217-242 | a frame later than every entry's end gets no telemetry (no clamping) |
| AlignmentFacts.SharedBoundaryGoesToEarlier | frame_geotag_dji.py:212-222 | at 5 fps, frame 6 (1000 ms) on the boundary of [0,1000] and [1000,2000] takes the first, frame 11 (2000 ms) the second, and frame 12 (2200 ms) none |
| Geotag.GroupReportOf | frame_geotag_dji.py:193-244 | definition of one group's report; properties in `ProcessGroup` and `ReportsTotals` |
| Geotag.TotalSuccess | frame_geotag_dji.py:189-234 | definition of `total_success`; properties in `ReportsTotals` and `RunTotals` |
| Geotag.TotalImages | frame_geotag_dji.py:189-208 | definition of `total_images`; properties in `ReportsTotals` |
| Geotag.Run | frame_geotag_dji.py:109-248 | definition of the whole run; properties in `RunEarlyExits` and `RunTotals` |
| Geotag.Outcomes | frame_geotag_dji.py:207-242 | one outcome per image of the group |
| Geotag.CountWritten | frame_geotag_dji.py:232-234 | never more successes than outcomes |
| Geotag.Succeeded | frame_geotag_dji.py:206-234 | `group_success` never exceeds the number of images |
| Geotag.Reports | frame_geotag_dji.py:192-244 | one report line per matched group |
| Geotag.SucceededStep | frame_geotag_dji.py:232-234 | one more image raises the group's success count by one exactly when its write reported success |
| Geotag.TagGroup | frame_geotag_dji.py:206-242 | the image loop yields `group_success` = `Succeeded`, adds it to `total_success` and adds every image to `total_images` |
| Geotag.ProcessGroup | frame_geotag_dji.py:193-244 | a group whose subtitle file fails to open is skipped before any image is counted; otherwise its counts are added to the totals |
| Geotag.ProcessGroups | frame_geotag_dji.py:189-244 | the group loop yields the report lines of `Reports`, with `total_success` and `total_images` their sums |
| Geotag.GeotagDjiFrames | frame_geotag_dji.py:109-248 | the whole function yields `Run`: the three early exits, the division by a zero rate, or the completed report |
| GeotagFacts.ReportsTotals | frame_geotag_dji.py:189-247 | `total_images` is the number of images in groups whose subtitle file opened, and `total_success` never exceeds it |
| GeotagFacts.OutcomesAt | frame_geotag_dji.py:207-242 | each image's recorded outcome is that of its own search |
| GeotagFacts.CountWrittenAppend | frame_geotag_dji.py:233-234 | counts over consecutive images add up |
| GeotagFacts.CountWrittenWitness | frame_geotag_dji.py:232-234 | the count is positive exactly when some write succeeded |
| GeotagFacts.SucceededWitness | frame_geotag_dji.py:222-234 | a group has a success exactly when one of its frames found a parsable entry and the write succeeded |
| GeotagFacts.EmptySubtitlesTagNothing | frame_geotag_dji.py:217-242 | with no subtitle entries every frame has no entry |
| GeotagFacts.EmptyMapNoKeys | frame_geotag_dji.py:133-139 | `not d` holds exactly when no key was inserted |
| GeotagFacts.RunEarlyExits | frame_geotag_dji.py:133-154 | the run stops for want of subtitles exactly when no `DJI_*.srt` name exists, for want of images exactly when there are subtitles but no usable frame name, and for want of a match exactly when both exist but share no prefix |
| GeotagFacts.RunTotals | frame_geotag_dji.py:189-247 | a completed run reports at least one group and no more successes than images |

## Left out

- Printing, the prompts and `os.getcwd()`: the prompt answers and the listing are parameters. `video_fps` only feeds a print; its division by the extraction rate is modelled as the `ZeroExtractionRate` ending.
- The extraction-rate prompt (lines 175-183): `input()` and the `float()` of the answer are outside the model. The answer enters as the `answer: Option<real>` parameter, `None` for an empty or unconvertible answer, and `ExtractionRate` picks 5.0 for `None`. It carries no contract of its own; its effect is stated through `Run` and `GeotagDjiFrames`.
- `sorted(os.listdir(...))`: the model takes the listing already sorted.
- `os.path.join` before the write: the writer receives the bare name.
- `pysrt` parsing and `piexif` reading, encoding and inserting are not part of this model. They enter as the `openSrt` and `write` parameters. Whether the writer accepts a negative altitude numerator is therefore not modelled.
- `write` is a mathematical function: the same name and record always get the same verdict.
- IEEE-754 doubles: all arithmetic is exact over `real`. This covers the frame time, the `<=` comparisons with the millisecond bounds, `to_deg` and `int(x * 100000)`. NaN and infinite rates and coordinates are not modelled.
- Round5: rounds halves up, where Python's `round` rounds halves to even on the binary value.
- ParseDecimal: follows the `[-\d.]` alphabet the patterns capture. `float()`'s other syntax (signs `+`, exponents, `inf`, `_`, white space) cannot reach it.
- ParseInt: does not accept surrounding white space, `_` separators or non-ASCII digits, which Python's `int()` also allows. For names that have a video prefix the text is always ASCII digits (`PrefixedNamesHaveFrames`).
- Case-insensitive matching is ASCII case folding plus Python's extra equivalences for `i` (U+0130, U+0131) and `s` (U+017F). `str.lower()` in the extension tests is ASCII lower-casing. `\d` and `[-\d.]` accept only ASCII digits, where Python's `\d` also accepts other Unicode decimal digits.
- `$` also matching before a final newline: names ending in `.jpg\n` are not modelled.
- `rel_alt`: it is parsed and passed along but never written; the record has no field for it.
- Concurrency and file-system changes during the run are not modelled.
