/**
 * The batch cutting coordinator of js/exportManager.js: `processVideoSegments` runs at most
 * once at a time, aborts the whole batch on its pre-flight gates, and turns every
 * per-segment failure into a result record; `processSingleSegment` guards and names each
 * output; `cleanupFiles` clears the engine's scratch files. The FFmpeg engine, the file
 * reader, the readiness wait and the confirmation dialog are supplied as oracles.
 */
module Export {
  import opened Base
  import opened TimeCode
  import opened Segments

  /** The engine's scratch copy of the source video. */
  const INPUT_FILE := "input.mp4"

  /** Videos larger than 500 MiB need the user's go-ahead. */
  const LARGE_VIDEO_BYTES: nat := 500 * 1024 * 1024

  const BUSY_ERROR := "Уже идет обработка видео. Дождитесь завершения."
  const NOT_LOADED_ERROR := "FFmpeg не загрузился. Проверьте интернет и обновите страницу."
  const CANCELLED_ERROR := "Отменено пользователем"
  const NO_ENGINE_ERROR := "FFmpeg не инициализирован"
  const BAD_DURATION_ERROR := "Некорректная длительность сегмента"
  const READ_ERROR := "Ошибка чтения файла"
  const EMPTY_OUTPUT_ERROR := "Пустой результат"

  /** What reading the file and running the engine yield for one segment, once its guards have passed. */
  datatype Attempt =
    | ReadFailed                  // the FileReader reported an error
    | RunFailed(message: string)  // `ffmpeg.run` or reading its output threw
    | Produced(size: nat)         // the engine wrote an output of `size` bytes

  /** The per-segment record: `{success: true, segment, index, outputSize, fileName}` or `{success: false, segment, index, error}`. */
  datatype SegmentResult =
    | Succeeded(segment: Segment, index: nat, outputSize: nat, fileName: string)
    | Failed(segment: Segment, index: nat, error: string)

  /** The engine's output file for the segment with 1-based `index`. */
  function OutputFile(index: nat): string {
    "segment_" + NatToString(index) + ".mp4"
  }

  /** `text.replace(/:/g, '-')`. */
  function ReplaceColons(s: string): (r: string)
    ensures |r| == |s| && ':' !in r
    ensures forall i | 0 <= i < |s| && s[i] != ':' :: r[i] == s[i]
    ensures forall i | 0 <= i < |s| && s[i] == ':' :: r[i] == '-'
  {
    seq(|s|, i requires 0 <= i < |s| => if s[i] == ':' then '-' else s[i])
  }

  /** `segment_<index>_<start with '-' for ':'>_to_<end with '-' for ':'>.mp4`. */
  function FileName(index: nat, segment: Segment): string {
    "segment_" + NatToString(index) + "_" + Span(segment)
  }

  /** The part of a download name after the index: `<start>_to_<end>.mp4` with colons replaced. */
  function Span(segment: Segment): string {
    ReplaceColons(segment.startFormatted) + "_to_" + ReplaceColons(segment.endFormatted) + ".mp4"
  }

  /** A download name never contains a colon. */
  lemma FileNameHasNoColon(index: nat, segment: Segment)
    ensures ':' !in FileName(index, segment)
  {
    var d, a, b := NatToString(index), ReplaceColons(segment.startFormatted), ReplaceColons(segment.endFormatted);
    assert ':' !in d && ':' !in a && ':' !in b;
    assert ':' !in Span(segment);
  }

  /** The same separator ends two strings free of it only at the same point. */
  lemma {:induction false} SeparatorSplitsUniquely(a: string, x: string, b: string, y: string, c: char)
    requires c !in a && c !in b
    requires a + [c] + x == b + [c] + y
    ensures a == b
    decreases |a|
  {
    assert (a + [c] + x)[0] == (b + [c] + y)[0];
    if a != [] && b != [] {
      assert (a + [c] + x)[1..] == a[1..] + [c] + x;
      assert (b + [c] + y)[1..] == b[1..] + [c] + y;
      SeparatorSplitsUniquely(a[1..], x, b[1..], y, c);
      assert a == [a[0]] + a[1..] && b == [b[0]] + b[1..];
    }
  }

  /** Outputs of different segments of a batch are downloaded under different names. */
  lemma FileNamesDistinct(i: nat, j: nat, s: Segment, t: Segment)
    requires i != j
    ensures FileName(i, s) != FileName(j, t)
  {
    var di, dj := NatToString(i), NatToString(j);
    var u, v := di + ['_'] + Span(s), dj + ['_'] + Span(t);
    FileNameShape(i, s);
    FileNameShape(j, t);
    if FileName(i, s) == FileName(j, t) {
      PrefixCancels("segment_", u, v);
      assert '_' !in di && '_' !in dj;
      SeparatorSplitsUniquely(di, Span(s), dj, Span(t), '_');
      NatToStringRoundTrip(i);
      NatToStringRoundTrip(j);
    }
  }

  /** A download name is the fixed prefix, then the index, an underscore and the span. */
  lemma FileNameShape(index: nat, segment: Segment)
    ensures FileName(index, segment) == "segment_" + (NatToString(index) + ['_'] + Span(segment))
  {
  }

  /** Equal strings with the same prefix have equal remainders. */
  lemma PrefixCancels(p: string, u: string, v: string)
    requires p + u == p + v
    ensures u == v
  {
    assert u == (p + u)[|p|..];
    assert v == (p + v)[|p|..];
  }

  /** Whether a segment's attempt ends in a downloadable output. */
  predicate Succeeds(segment: Segment, attempt: Attempt) {
    segment.duration > 0.0 && attempt.Produced? && attempt.size > 0
  }

  /**
   * `processSingleSegment(videoFile, segment, index)` as a value: the thrown message, or the success record.
   * `engineCreated` is `this.ffmpeg !== null`.
   */
  function SingleOutcome(engineCreated: bool, segment: Segment, index: nat, attempt: Attempt): Result<SegmentResult, string> {
    if !engineCreated then Failure(NO_ENGINE_ERROR)
    else if segment.duration <= 0.0 then Failure(BAD_DURATION_ERROR)
    else match attempt
      case ReadFailed => Failure(READ_ERROR)
      case RunFailed(message) => Failure(message)
      case Produced(size) =>
        if size == 0 then Failure(EMPTY_OUTPUT_ERROR)
        else Success(Succeeded(segment, index, size, FileName(index, segment)))
  }

  /** The catch block of the batch loop: a thrown message becomes a failure record. */
  function Record(segment: Segment, index: nat, outcome: Result<SegmentResult, string>): SegmentResult {
    match outcome
    case Success(result) => result
    case Failure(message) => Failed(segment, index, message)
  }

  /** The results of a batch that passed its gates: segment `i` is attempted with `engine(segments[i], i + 1)`. */
  function BatchResults(segments: seq<Segment>, engine: (Segment, nat) -> Attempt): (r: seq<SegmentResult>)
    ensures |r| == |segments|
    ensures forall i | 0 <= i < |r| :: r[i].segment == segments[i] && r[i].index == i + 1
    ensures forall i | 0 <= i < |r| :: r[i].Succeeded? <==> Succeeds(segments[i], engine(segments[i], i + 1))
    ensures forall i | 0 <= i < |r| && r[i].Succeeded? ::
      && engine(segments[i], i + 1).Produced?
      && r[i].fileName == FileName(i + 1, segments[i])
      && r[i].outputSize == engine(segments[i], i + 1).size
    ensures forall i | 0 <= i < |r| && segments[i].duration > 0.0 && engine(segments[i], i + 1).RunFailed? ::
      r[i] == Failed(segments[i], i + 1, engine(segments[i], i + 1).message)
    ensures forall i | 0 <= i < |r| && segments[i].duration <= 0.0 :: r[i] == Failed(segments[i], i + 1, BAD_DURATION_ERROR)
  {
    seq(|segments|, i requires 0 <= i < |segments| =>
      Record(segments[i], i + 1, SingleOutcome(true, segments[i], i + 1, engine(segments[i], i + 1))))
  }

  /**
   * The scratch names a batch unlinks: the input copy and `segment_<i>.mp4` for every segment
   * that passes the duration guard, whatever the engine then does.
   */
  function Touched(segments: seq<Segment>): set<string> {
    if segments == [] then {}
    else
      var init, last := segments[..|segments| - 1], segments[|segments| - 1];
      Touched(init) + Scratched(last, |segments|)
  }

  /** The names the cleanup of one segment unlinks: none when it fails the duration guard. */
  function Scratched(segment: Segment, index: nat): set<string> {
    if segment.duration > 0.0 then {INPUT_FILE, OutputFile(index)} else {}
  }

  /** A name is touched exactly when it is the input copy or the output of a segment that passes the duration guard. */
  lemma {:induction false} TouchedMembers(segments: seq<Segment>, n: string)
    ensures n in Touched(segments) <==> exists i | 0 <= i < |segments| ::
      segments[i].duration > 0.0 && (n == INPUT_FILE || n == OutputFile(i + 1))
  {
    if segments != [] {
      var init := segments[..|segments| - 1];
      TouchedMembers(init, n);
      assert forall i | 0 <= i < |init| :: init[i] == segments[i];
    }
  }

  /** One more segment adds its own two names to the touched set, or nothing when it fails the duration guard. */
  lemma TouchedStep(segments: seq<Segment>, i: nat)
    requires i < |segments|
    ensures Touched(segments[..i + 1])
      == Touched(segments[..i]) + Scratched(segments[i], i + 1)
  {
    assert segments[..i + 1][..i] == segments[..i];
  }

  /** Results recorded one by one, each from its own single-segment outcome, are the batch's results. */
  lemma RecordsAreBatch(segments: seq<Segment>, engine: (Segment, nat) -> Attempt, results: seq<SegmentResult>)
    requires |results| == |segments|
    requires forall k | 0 <= k < |segments| ::
      results[k] == Record(segments[k], k + 1, SingleOutcome(true, segments[k], k + 1, engine(segments[k], k + 1)))
    ensures results == BatchResults(segments, engine)
  {
  }

  /** Cleaning up after segment `i` extends what the batch has unlinked so far by that segment's names. */
  lemma ScratchStep(initial: set<string>, before: set<string>, after: set<string>, segments: seq<Segment>, i: nat)
    requires i < |segments|
    requires before == initial - Touched(segments[..i])
    requires after == before - Scratched(segments[i], i + 1)
    ensures after == initial - Touched(segments[..i + 1])
  {
    TouchedStep(segments, i);
  }

  /** What `processVideoSegments` returns or throws once it is not busy: the gates first, then the batch. */
  function RunBatch(loaded: bool, fileSize: nat, userConfirms: bool, segments: seq<Segment>,
                    engine: (Segment, nat) -> Attempt): Result<seq<SegmentResult>, string>
  {
    if !loaded then Failure(NOT_LOADED_ERROR)
    else if fileSize > LARGE_VIDEO_BYTES && !userConfirms then Failure(CANCELLED_ERROR)
    else Success(BatchResults(segments, engine))
  }

  /** Segments that `getSegments` derived never trip the duration guard: each one succeeds exactly when the engine delivers output. */
  lemma DerivedPassDurationGuard(ms: seq<Markers.Marker>, engine: (Segment, nat) -> Attempt)
    ensures var segs := DeriveSegments(ms); var r := BatchResults(segs, engine);
      forall i | 0 <= i < |r| ::
        (r[i].Succeeded? <==> engine(segs[i], i + 1).Produced? && engine(segs[i], i + 1).size > 0)
        && (r[i].Failed? ==> r[i].error != BAD_DURATION_ERROR || engine(segs[i], i + 1) == RunFailed(BAD_DURATION_ERROR))
  {
    DerivedWellFormed(ms);
  }

  /** The successful outputs of one batch all have different download names. */
  lemma BatchNamesDistinct(segments: seq<Segment>, engine: (Segment, nat) -> Attempt)
    ensures var r := BatchResults(segments, engine);
      forall i, j | 0 <= i < j < |r| && r[i].Succeeded? && r[j].Succeeded? :: r[i].fileName != r[j].fileName
  {
    var r := BatchResults(segments, engine);
    forall i, j | 0 <= i < j < |r| && r[i].Succeeded? && r[j].Succeeded?
      ensures r[i].fileName != r[j].fileName
    {
      FileNamesDistinct(i + 1, j + 1, segments[i], segments[j]);
    }
  }

  /** A failure of the second of three segments is confined to its own record. */
  lemma MiddleFailureIsolated(s1: Segment, s2: Segment, s3: Segment, engine: (Segment, nat) -> Attempt)
    requires s1.duration > 0.0 && s2.duration > 0.0 && s3.duration > 0.0
    requires engine(s1, 1) == Produced(100) && engine(s3, 3) == Produced(300)
    requires engine(s2, 2) == RunFailed("engine error")
    ensures BatchResults([s1, s2, s3], engine)
         == [Succeeded(s1, 1, 100, FileName(1, s1)), Failed(s2, 2, "engine error"), Succeeded(s3, 3, 300, FileName(3, s3))]
  {
  }

  /** A parsed import document, as `JSON.parse` hands it over. */
  datatype Json =
    | JNull
    | JBool(b: bool)
    | JNumber(n: real)
    | JString(s: string)
    | JArray(items: seq<Json>)
    | JObject(fields: map<string, Json>)

  /** `alert('Неверный формат файла')`, or a property read on `null` that the reader's catch reports. */
  datatype ImportError = WrongFormat | Unreadable

  /**
   * The shape check `d.markers && Array.isArray(d.markers)` of `importMarkers`: only an object whose
   * `markers` is an array is handed to the store, even an empty one.
   */
  function CheckImport(d: Json): (r: Result<seq<Json>, ImportError>)
    ensures r.Success? <==> d.JObject? && "markers" in d.fields && d.fields["markers"].JArray?
    ensures r.Success? ==> r.value == d.fields["markers"].items
    ensures r == Failure(Unreadable) <==> d == JNull
  {
    match d
    case JNull => Failure(Unreadable)
    case JObject(fields) =>
      if "markers" in fields && fields["markers"].JArray? then Success(fields["markers"].items) else Failure(WrongFormat)
    case _ => Failure(WrongFormat)
  }

  /** `formatDuration(seconds)` of the export manager, for whole seconds: `Mм Sс` with unbounded minutes. */
  function ShortDuration(t: nat): string {
    NatToString(t / 60) + "м " + NatToString(t % 60) + "с"
  }

  /** Reading the minutes before `м` and the seconds before `с` gives back the whole seconds. */
  lemma ShortDurationReadsBack(t: nat)
    ensures 'м' in ShortDuration(t)
    ensures var r := ShortDuration(t);
      forall k | 0 <= k < |r| && r[k] == 'м' ::
        && k + 3 <= |r|
        && DigitField(r[..k]) && DigitField(r[k + 2..|r| - 1])
        && DecimalValue(r[k + 2..|r| - 1]) < 60
        && DecimalValue(r[..k]) * 60 + DecimalValue(r[k + 2..|r| - 1]) == t
  {
    var a, b := NatToString(t / 60), NatToString(t % 60);
    NatToStringRoundTrip(t / 60);
    NatToStringRoundTrip(t % 60);
    UnitsSplit(a, b);
  }

  /** The export manager of js/exportManager.js, reduced to what the batch run reads and changes. */
  class ExportManager {
    /** `this.ffmpeg !== null`. */
    var engineCreated: bool
    /** `this.isFFmpegLoaded`. */
    var engineLoaded: bool
    /** `this.isProcessing`: set for the whole of a batch run. */
    var isProcessing: bool
    /** The names present in the engine's in-memory file system. */
    var scratch: set<string>

    /** A loaded engine exists. */
    ghost predicate Valid()
      reads this
    {
      engineLoaded ==> engineCreated
    }

    /** The state before the engine has been fetched. */
    constructor ()
      ensures Valid() && !engineCreated && !engineLoaded && !isProcessing && scratch == {}
    {
      engineCreated, engineLoaded, isProcessing, scratch := false, false, false, {};
    }

    /**
     * `waitForLoad()`: true at once when the engine is loaded; otherwise the background load
     * either completes within the 20-second wait (`loadsInTime`) or the wait gives up.
     */
    method WaitForLoad(loadsInTime: bool) returns (loaded: bool)
      requires Valid()
      modifies this`engineCreated, this`engineLoaded
      ensures Valid()
      ensures loaded == (old(engineLoaded) || loadsInTime) && engineLoaded == loaded
      ensures loaded ==> engineCreated
      ensures engineCreated == (old(engineCreated) || loadsInTime)
    {
      if engineLoaded {
        return true;
      }
      if loadsInTime {
        engineCreated, engineLoaded := true, true;
      }
      loaded := engineLoaded;
    }

    /** `cleanupFiles(filenames)`: tries to unlink every name; a missing file or a missing engine is logged, never thrown. */
    method CleanupFiles(names: seq<string>)
      modifies this`scratch
      ensures scratch == if engineCreated then old(scratch) - set n | n in names else old(scratch)
    {
      for i := 0 to |names|
        invariant scratch == if engineCreated then old(scratch) - set n | n in names[..i] else old(scratch)
      {
        if engineCreated && names[i] in scratch {
          scratch := scratch - {names[i]};
        }
        assert names[..i + 1] == names[..i] + [names[i]];
      }
      assert names[..|names|] == names;
    }

    /**
     * `processSingleSegment(videoFile, segment, index)`: the two guards throw before the engine is
     * touched; past them, both scratch files are removed whatever the engine did.
     */
    method ProcessSingleSegment(segment: Segment, index: nat, attempt: Attempt) returns (r: Result<SegmentResult, string>)
      modifies this`scratch
      ensures r == SingleOutcome(engineCreated, segment, index, attempt)
      ensures scratch == if engineCreated then old(scratch) - Scratched(segment, index) else old(scratch)
    {
      if !engineCreated {
        return Failure(NO_ENGINE_ERROR);
      }
      if segment.duration <= 0.0 {
        return Failure(BAD_DURATION_ERROR);
      }
      match attempt {
        case ReadFailed =>
          r := Failure(READ_ERROR);
        case RunFailed(message) =>
          scratch := scratch + {INPUT_FILE};
          r := Failure(message);
        case Produced(size) =>
          scratch := scratch + {INPUT_FILE, OutputFile(index)};
          if size == 0 {
            r := Failure(EMPTY_OUTPUT_ERROR);
          } else {
            r := Success(Succeeded(segment, index, size, FileName(index, segment)));
          }
      }
      CleanupFiles([OutputFile(index), INPUT_FILE]);
      assert (set n | n in [OutputFile(index), INPUT_FILE]) == {OutputFile(index), INPUT_FILE};
    }

    /**
     * The loop of `processVideoSegments`: every segment in order, each failure caught and
     * recorded, so later segments are still attempted.
     */
    method CutEach(segments: seq<Segment>, engine: (Segment, nat) -> Attempt) returns (results: seq<SegmentResult>)
      requires engineCreated
      modifies this`scratch
      ensures results == BatchResults(segments, engine)
      ensures scratch == old(scratch) - Touched(segments)
    {
      results := [];
      for i := 0 to |segments|
        invariant |results| == i
        invariant forall k | 0 <= k < i ::
          results[k] == Record(segments[k], k + 1, SingleOutcome(true, segments[k], k + 1, engine(segments[k], k + 1)))
        invariant scratch == old(scratch) - Touched(segments[..i])
      {
        var segment := segments[i];
        ghost var before := scratch;
        var outcome := ProcessSingleSegment(segment, i + 1, engine(segment, i + 1));
        results := results + [Record(segment, i + 1, outcome)];
        ScratchStep(old(scratch), before, scratch, segments, i);
      }
      RecordsAreBatch(segments, engine, results);
      assert segments[..|segments|] == segments;
    }

    /**
     * `processVideoSegments(videoFile, segments)`: refuses to start while another run is in
     * progress; otherwise runs the gates and the segments in order and always clears the flag.
     */
    method ProcessVideoSegments(fileSize: nat, segments: seq<Segment>, loadsInTime: bool, userConfirms: bool,
                                engine: (Segment, nat) -> Attempt)
      returns (r: Result<seq<SegmentResult>, string>)
      requires Valid()
      modifies this
      ensures Valid()
      ensures old(isProcessing) ==> (r == Failure(BUSY_ERROR) && isProcessing
        && engineCreated == old(engineCreated) && engineLoaded == old(engineLoaded) && scratch == old(scratch))
      ensures !old(isProcessing) ==> !isProcessing
      ensures !old(isProcessing) ==> engineLoaded == (old(engineLoaded) || loadsInTime)
      ensures !old(isProcessing) ==> engineCreated == (old(engineCreated) || loadsInTime)
      ensures !old(isProcessing) ==> r == RunBatch(old(engineLoaded) || loadsInTime, fileSize, userConfirms, segments, engine)
      ensures r.Failure? ==> scratch == old(scratch)
      ensures r.Success? ==> scratch == old(scratch) - Touched(segments)
    {
      if isProcessing {
        return Failure(BUSY_ERROR);
      }
      isProcessing := true;
      var loaded := WaitForLoad(loadsInTime);
      if !loaded {
        r := Failure(NOT_LOADED_ERROR);
      } else if fileSize > LARGE_VIDEO_BYTES && !userConfirms {
        r := Failure(CANCELLED_ERROR);
      } else {
        var results := CutEach(segments, engine);
        r := Success(results);
      }
      isProcessing := false;
    }
  }
}
