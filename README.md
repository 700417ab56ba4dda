# Video-Cutter core, modelled in Dafny

Video-Cutter is a browser application for cutting a video into pieces. The user drops
`start` and `end` markers on the timeline, and the application pairs them into segments.
An in-browser FFmpeg engine then copies each segment out of the source file.

This project models three parts of the program and proves properties of them:

- **The marker store** (`Markers`, file `markers.dfy`). `MarkersManager` is a class over a
  sequence of markers. `addMarker` appends and re-sorts by time. `deleteMarker` filters by
  id. `clearMarkers` and `setMarkers` replace the list. `getMarkersByType` and
  `getLastMarker` are queries. A marker's default label is its time formatted as `HH:MM:SS`.
- **Segment derivation** (`Segments`, file `segments.dfy`). `getSegments` is a left-to-right
  loop with one pending-start slot. It is proved equal to a pairing of adjacent boundary
  markers, to emit only well-formed segments, never to emit more segments than starts or
  ends, and, on sorted markers, to emit non-overlapping segments. The module also holds
  `validateSegments`, `getTotalDuration` and the `Hч Mм Sс` duration text.
- **The cutting coordinator** (`Export`, file `export.dfy`).
  - `ExportManager.processVideoSegments` is single-flight: a second call while one is running
    fails with the busy message and changes nothing.
  - It aborts the whole batch when the engine does not become ready, and when a video over
    500 MiB is not confirmed by the user.
  - It turns every per-segment error into a failure record, so one bad segment does not stop
    the rest, and it always clears the busy flag.
  - `processSingleSegment` checks its two guards before touching the engine and names each
    output file. Once past the guards, it removes both scratch files on every path.
  - The module also models the shape check applied to imported marker files.
- **Time codes** (`TimeCode`, file `time_code.dfy`) are shared by the store and the deriver.
  This covers `formatTime`, `validateTimeFormat` (the regular expression
  `^(\d{1,2}):([0-5]\d):([0-5]\d)$`) and `parseTime`, with both round trips proved.
- **Shared definitions** (`Base`, file `base.dfy`): `Option`, `Result`, and `Filter`, which
  models `Array.prototype.filter`.

Times are exact non-negative reals (`Seconds`). Text is `seq<char>`.

Three external inputs are passed in as parameters:

- The engine's per-segment behaviour is a function from segment and index to an `Attempt`:
  a read error, a run error with its message, or an output of some size.
- Whether the engine becomes ready during the 20-second wait is a boolean.
- The user's answer to the large-video confirmation is a boolean.

Marker ids come from the caller. The source builds them from the clock and a random number.

Two behaviours of the code are easy to misread, and the model keeps them as written:

- An `end` marker at or before the pending start produces no segment, and it still
  **clears** the pending start (js/segmentsManager.js:19). The start does not stay open for
  a later end. `Segments.EarlyEndDiscardsStart` exhibits this.
- `setMarkers` stores the list as given and does **not** re-sort it
  (js/markersManager.js:31-33). Every property that needs order therefore assumes
  `SortedByTime` of the stored list. `addMarker` restores that order.

## Model

| member | source | states |
|---|---|---|
| Base.Filter | js/markersManager.js:20 | keeps, in order, exactly the elements satisfying the predicate; never longer; identity when every element passes |
| Base.FilterConcat | js/markersManager.js:20 | filtering distributes over concatenation, so survivors keep their relative order |
| Base.FilterPartition | js/markersManager.js:20 | the elements kept by a predicate and by its negation together account for the whole list |
| TimeCode.NatToString | js/segmentsManager.js:42 | `toString()` of a count: non-empty decimal digits, one digit exactly below 10, at most two exactly below 100 |
| TimeCode.NatToStringRoundTrip | js/segmentsManager.js:42 | reading the decimal text back gives the number |
| TimeCode.Pad2 | js/segmentsManager.js:42 | `padStart(2, '0')`: at least two digits, exactly two below 100, and it reads back as the number |
| TimeCode.ClockDecomposition | js/segmentsManager.js:37-41 | minutes and seconds are below 60, and hours·3600 + minutes·60 + seconds is the time |
| TimeCode.ClockUnique | js/segmentsManager.js:37-41 | the hours/minutes/seconds split of a time is unique |
| TimeCode.WholeSeconds | js/segmentsManager.js:40 | `Math.floor` of a non-negative time: the whole number n with n ≤ t < n + 1 |
| TimeCode.FormatTime | js/markersManager.js:49-55 | the zero-padded `hh:mm:ss` of whole seconds (one definition for both copies of `formatTime`); its meaning is given by ParseFormatRoundTrip and FormatTimeValid |
| TimeCode.FormatSeconds | js/segmentsManager.js:37-43 | `formatTime` of a possibly fractional time: the text of its whole seconds; DefaultLabelReadsBack states that it parses back to them |
| TimeCode.Split | js/markersManager.js:45 | `split(':')` always yields at least one field |
| TimeCode.SplitAtColon | js/markersManager.js:45 | a colon-free prefix followed by a colon becomes the first field |
| TimeCode.ParseTime | js/markersManager.js:44-47 | fields 0, 1 and 2 of `split(':')` as hours·3600 + minutes·60 + seconds, defined when those fields are digit strings; its partners are ParseFormatRoundTrip and ValidTimeRoundTrip |
| TimeCode.ValidateTimeFormat | js/markersManager.js:39-42 | the pattern `^(\d{1,2}):([0-5]\d):([0-5]\d)$` written as a predicate on positions; SplitValidTime and ValidTimeRoundTrip state what it admits |
| TimeCode.ParseFormatRoundTrip | js/markersManager.js:44-55 | `parseTime(formatTime(t)) == t` for every whole-second time |
| TimeCode.FormatTimeValid | js/markersManager.js:39-42 | the formatted time matches the validation pattern exactly when the time is below 100 hours |
| TimeCode.ValidTimeRoundTrip | js/markersManager.js:39-55 | every string the pattern accepts parses to under 100 hours, and formatting the parse gives it back (a one-digit hour gains its leading zero) |
| TimeCode.SplitValidTime | js/markersManager.js:40-45 | an accepted string splits into exactly three fields: one or two digits, then two sexagesimal fields |
| Markers.InsertByTime | js/markersManager.js:14-15 | placing the new marker by time adds exactly that marker |
| Markers.InsertKeepsSorted | js/markersManager.js:14-15 | placing a marker into a sorted list keeps it sorted |
| Markers.InsertSplices | js/markersManager.js:14-15 | the new marker is spliced in at one point; no other marker moves relative to the others |
| Markers.InsertionPointSeparates | js/markersManager.js:15 | before the insertion point all times are ≤ the new time, from it on all are greater, so ties keep insertion order |
| Markers.SortByTime | js/markersManager.js:15 | the sort comparator `a.time - b.time`: the result is sorted and a permutation |
| Markers.InsertLatest | js/markersManager.js:14-15 | a marker no earlier than all others ends up last |
| Markers.SortSortedIsIdentity | js/markersManager.js:15 | sorting a sorted list changes nothing |
| Markers.TimestampFor | js/markersManager.js:11 | `customTimestamp \|\| formatTime(time)`: the custom label unless it is absent or empty; DefaultLabelReadsBack states what the default reads as |
| Markers.SortAfterPush | js/markersManager.js:14-15 | on a sorted list, push-then-sort equals inserting the marker after its ties |
| Markers.DefaultLabelReadsBack | js/markersManager.js:11 | the default label parses back to the marker's whole seconds, and passes validation exactly below 100 hours |
| Markers.WithoutId | js/markersManager.js:20 | keeps exactly the markers whose id differs; a missing id changes nothing |
| Markers.DeleteCount | js/markersManager.js:20 | deletion removes exactly as many markers as carry the id |
| Markers.FilterKeepsSorted | js/markersManager.js:20 | any selection from a sorted list is sorted |
| Markers.DeleteKeepsSorted | js/markersManager.js:20 | deleting by id keeps a sorted store sorted |
| Markers.OfKind | js/markersManager.js:58 | exactly the markers of that type, from the list |
| Markers.OfKindKeepsSorted | js/markersManager.js:58 | selecting one type keeps a sorted store's order |
| Markers.MarkersManager.constructor | js/markersManager.js:2-4 | the store starts empty |
| Markers.MarkersManager.AddMarker | js/markersManager.js:6-17 | returns the new marker, whose label is the custom one or, when that is absent or empty, the formatted time. Afterwards the store is sorted, one longer, and a permutation of old + marker; from a sorted store it is the old list with the marker inserted after its ties |
| Markers.MarkersManager.DeleteMarker | js/markersManager.js:19-21 | the store is the filtered list, no marker carries the id, and sortedness is preserved |
| Markers.MarkersManager.ClearMarkers | js/markersManager.js:23-25 | the store is empty and its count is zero |
| Markers.MarkersManager.SetMarkers | js/markersManager.js:31-33 | the store is the given list, as given |
| Markers.MarkersManager.GetMarkersCount | js/markersManager.js:35-37 | the number of stored markers |
| Markers.MarkersManager.GetMarkersByType | js/markersManager.js:57-59 | exactly the stored markers of that type, sorted when the store is |
| Markers.MarkersManager.GetLastMarker | js/markersManager.js:61-63 | null exactly for an empty store, otherwise the final marker, which on a sorted store has the latest time |
| Segments.GetSegments | js/segmentsManager.js:2-24 | the loop computes the pending-start scan. Every segment is well-formed, there are no more segments than `start` or `end` markers, and for sorted markers the segments do not overlap |
| Segments.Step | js/segmentsManager.js:6-21 | one iteration of the loop: a start overwrites the pending slot; an end with a pending start emits a segment when later and clears the slot either way; other markers change nothing |
| Segments.ScanAll | js/segmentsManager.js:6-21 | the loop's state after a prefix of the markers, so that GetSegments' invariant can name it |
| Segments.DeriveSegments | js/segmentsManager.js:2-24 | the segments `getSegments` returns; ScanIsAdjacentPairs gives the independent definition |
| Segments.DerivedWellFormed | js/segmentsManager.js:10-17 | each emitted segment ends after it starts, its duration is end − start and positive, and its labels are its formatted times |
| Segments.ScanIsAdjacentPairs | js/segmentsManager.js:6-21 | the scan equals the reference definition: one segment per adjacent (start, end) pair among the start/end markers whose end is later, in order; the pending slot holds the last such marker's time exactly when it is a start |
| Segments.ScanCounts | js/segmentsManager.js:6-21 | segments ≤ end markers, and segments plus an open start ≤ start markers |
| Segments.DerivedCounts | js/segmentsManager.js:2-24 | the derived segments number at most the start markers and at most the end markers |
| Segments.ScanOrdered | js/segmentsManager.js:6-21 | on sorted markers, emitted segments do not overlap, none ends after the latest marker, and a pending start is no earlier than any emitted end |
| Segments.StepKeepsOrder | js/segmentsManager.js:6-21 | one loop iteration at a marker no earlier than any seen keeps the segments non-overlapping, none ending after that marker, and a pending start after every end |
| Segments.DerivedNonOverlapping | js/segmentsManager.js:2-24 | on sorted markers, each segment ends no later than the next starts, and starts strictly increase |
| Segments.RestartReplacesPending | js/segmentsManager.js:7-8 | a second start overwrites the pending one: start, start, later end gives only the segment from the second start |
| Segments.EarlyEndDiscardsStart | js/segmentsManager.js:9-19 | an end at or before the pending start clears it: start, such an end, then any end gives no segment and nothing pending |
| Segments.UnpairedMarkersIgnored | js/segmentsManager.js:9 | an end without a pending start is ignored; a trailing start stays pending |
| Segments.ValidateSegments | js/segmentsManager.js:26-31 | keeps exactly the segments that end after they start with positive duration; identity when all are valid |
| Segments.ValidateIdempotent | js/segmentsManager.js:26-31 | validating twice is validating once |
| Segments.ValidateKeepsDerived | js/segmentsManager.js:26-31 | validation removes nothing from derived segments |
| Segments.TotalDuration | js/segmentsManager.js:33-35 | the left-to-right sum of durations starting from 0; its bounds are in the three lemmas below |
| Segments.TotalDurationPositive | js/segmentsManager.js:33-35 | a total of positive durations is non-negative, and positive when non-empty |
| Segments.TotalWithinSpan | js/segmentsManager.js:33-35 | the total of non-overlapping well-formed segments is at most last end − first start |
| Segments.DerivedTotalDuration | js/segmentsManager.js:33-35 | the total of derived segments is non-negative, positive when any exist, and for sorted markers within their covered span |
| Segments.FormatDuration | js/segmentsManager.js:45-57 | the three text forms chosen by whether hours, then minutes, are non-zero; FormatDurationUnits and FormatDurationReadsBack state what they mean |
| Segments.FormatDurationUnits | js/segmentsManager.js:45-57 | the hours unit appears exactly from 3600 s, the minutes unit exactly from 60 s, and the text always ends in seconds |
| Segments.FormatDurationReadsBack | js/segmentsManager.js:45-57 | in every form, the digits before `ч`, `м` and `с` read back as the hours, minutes and seconds of the time; minutes and seconds are below 60 and hours·3600 + minutes·60 + seconds is the time |
| Export.FileNameHasNoColon | js/exportManager.js:132 | download names contain no colon |
| Export.FileNamesDistinct | js/exportManager.js:132 | different indices give different download names |
| Export.OutputFile | js/exportManager.js:118 | the engine's output name `segment_<index>.mp4` |
| Export.ReplaceColons | js/exportManager.js:132 | `replace(/:/g, '-')`: same length, every colon becomes `-`, every other character is kept, and no colon remains |
| Export.FileName | js/exportManager.js:132 | the download name `segment_<index>_<start>_to_<end>.mp4`; FileNameHasNoColon and FileNamesDistinct state its properties |
| Export.SingleOutcome | js/exportManager.js:104-138 | what `processSingleSegment` returns or throws: no engine, then bad duration, then read error, the engine's error, empty output, or the success record |
| Export.Record | js/exportManager.js:84-96 | a returned result is recorded as is; a thrown error becomes a failure record with the segment, its index and the message |
| Export.BatchResults | js/exportManager.js:81-98 | one record per segment, in order, with 1-based index. A record is a success exactly when the duration is positive and the engine produced non-empty output; then it carries that size and the segment's file name. An engine error's message is recorded, and a non-positive duration records the duration error |
| Export.RunBatch | js/exportManager.js:62-102 | the not-loaded error first, then the cancelled error for a large file the user declines, otherwise the batch results |
| Export.Touched | js/exportManager.js:81-98 | the scratch names a batch unlinks, collected segment by segment |
| Export.TouchedMembers | js/exportManager.js:104-138 | a name is unlinked by the batch exactly when it is the input copy or `segment_<i>.mp4` of a segment with positive duration |
| Export.BatchNamesDistinct | js/exportManager.js:132 | successful outputs of one batch have pairwise distinct names |
| Export.DerivedPassDurationGuard | js/exportManager.js:106 | derived segments never trip the duration guard: each succeeds exactly when the engine delivers output |
| Export.MiddleFailureIsolated | js/exportManager.js:84-96 | a failing middle segment yields its own failure record; the others still succeed |
| Export.CheckImport | js/exportManager.js:176 | accepted exactly when the document is an object whose `markers` is an array (even an empty one), yielding that array; `null` is a read error |
| Export.ShortDuration | js/exportManager.js:215-219 | `<minutes>м <seconds>с` with no hour unit; ShortDurationReadsBack states what it reads as |
| Export.ShortDurationReadsBack | js/exportManager.js:215-219 | in `Mм Sс`, the digits before `м` times 60 plus the digits before `с` (under 60) give back the seconds |
| Export.ExportManager.constructor | js/exportManager.js:2-8 | no engine, not loaded, not busy, no scratch files |
| Export.ExportManager.WaitForLoad | js/exportManager.js:52-60 | true immediately when loaded; otherwise true exactly when the load completes during the wait; the engine exists afterwards exactly when it existed before or the load completed; a loaded engine exists |
| Export.ExportManager.CleanupFiles | js/exportManager.js:149-157 | every listed file is gone when an engine exists; nothing else changes; no error escapes |
| Export.ExportManager.ProcessSingleSegment | js/exportManager.js:104-138 | the guard errors come first (no engine, then non-positive duration). Past them: read error, engine error, empty output or the success record with its file name. When an engine exists, the scratch files are exactly the old ones minus both names of a segment with positive duration; otherwise nothing changes |
| Export.ExportManager.CutEach | js/exportManager.js:81-98 | the loop yields exactly the batch results above, and the scratch files afterwards are exactly the old ones minus the names the batch touches |
| Export.ExportManager.ProcessVideoSegments | js/exportManager.js:62-102 | when busy: the busy error and nothing changes. Otherwise: not-loaded, cancelled, or the per-segment results; the busy flag is clear at the end; the engine flags are the old ones or set by a load during the wait; a failure leaves the scratch files alone, and a success leaves exactly the old ones minus the names the batch touches |

## Left out

- TimeCode.ParseTime: requires the first three colon-separated fields to be non-empty digit strings. The leniency of `parseInt` (leading whitespace, signs, trailing junk, `NaN`) is not modelled. Its callers validate with the pattern first.
- Markers.MarkersManager.AddMarker: the id is a parameter. The source computes it from the clock and a random number, and does not guarantee uniqueness either.
- Markers.SortByTime: a stable sort, so a new marker lands after markers with the same time. The source relies on the runtime's sort for ties.
- `getMarkers` (js/markersManager.js:27-29) returns the live array. The model reads the `markers` field directly, so aliasing of the returned array is not modelled.
- Time and duration arithmetic is exact real arithmetic. Floating-point rounding in `end - start` and in the running sum of `getTotalDuration` is not modelled.
- Negative times are excluded by the `Seconds` type. The player never reports them.
- `formatTime` and both `formatDuration`s are modelled on whole seconds. Fractional times go through `WholeSeconds` (a floor), which agrees with `Math.floor` on non-negative values.
- Export.ExportManager.WaitForLoad: the 20-second polling loop, the clock and the script loading (`loadFFmpeg`, `loadScript`, `showFFmpegError`) are reduced to one boolean saying whether the load completes during the wait. A load that creates the engine and then fails is not distinguished.
- Export.ExportManager.ProcessSingleSegment: the file read, `ffmpeg.run`, the FFmpeg arguments and the Blob/URL creation are reduced to the `Attempt` oracle. Output bytes are reduced to their count.
- Export.ExportManager.ProcessVideoSegments: the `confirm` dialog, the `formatFileSize` text inside it and the console logging are left out. The dialog's answer is a parameter.
- `exportMarkers`, `downloadSegmentsInfo`, `downloadFile`, `formatTimestamp`, `formatFileSize` and `destroy` build text or trigger downloads through browser APIs. They are not modelled.
- `JSON.parse` and its error path are not modelled. The imported marker records are passed to `setMarkers` unchecked in the source, and the model does not type them either.
- Asynchrony is modelled as sequential steps. Interleaving shows up only as the busy flag seen on entry.
- js/app.js, js/uiManager.js, js/videoManager.js, js/storageManager.js and sw.js are not part of this model. They are the user interface, playback, persistence and offline caching.
