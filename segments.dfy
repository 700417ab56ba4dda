/**
 * Segment derivation of js/segmentsManager.js: a left-to-right scan over the markers with
 * one pending-start slot, plus the `validateSegments` filter, the `getTotalDuration` sum
 * and the human-readable `formatDuration`.
 */
module Segments {
  import opened Base
  import opened TimeCode
  import opened Markers

  /** `{start, end, duration, startFormatted, endFormatted}`. */
  datatype Segment = Segment(start: Seconds, end: Seconds, duration: real, startFormatted: string, endFormatted: string)

  /** The record `getSegments` pushes for a start time and an end time. */
  function Between(start: Seconds, end: Seconds): Segment {
    Segment(start, end, end - start, FormatSeconds(start), FormatSeconds(end))
  }

  /** What every derived segment satisfies: it ends after it starts, its duration is its length, its labels are its times. */
  predicate WellFormed(s: Segment) {
    && s.end > s.start
    && s.duration == s.end - s.start
    && s.duration > 0.0
    && s.startFormatted == FormatSeconds(s.start)
    && s.endFormatted == FormatSeconds(s.end)
  }

  /** Each segment ends no later than any later segment starts. */
  predicate NonOverlapping(segs: seq<Segment>) {
    forall i, j | 0 <= i < j < |segs| :: segs[i].end <= segs[j].start
  }

  /** The state of the scan: the segments pushed so far and `currentStart` (`null` is `None`). */
  datatype ScanState = ScanState(segments: seq<Segment>, pending: Option<Seconds>)

  /** One iteration of the loop of `getSegments`. */
  function Step(st: ScanState, m: Marker): ScanState {
    if m.kind == START then
      ScanState(st.segments, Some(m.time))
    else if m.kind == END && st.pending.Some? then
      var start := st.pending.value;
      ScanState(if m.time > start then st.segments + [Between(start, m.time)] else st.segments, None)
    else
      st
  }

  /** The scan state after the loop has visited every marker of `ms`. */
  function ScanAll(ms: seq<Marker>): ScanState
    decreases |ms|
  {
    if ms == [] then ScanState([], None) else Step(ScanAll(ms[..|ms| - 1]), ms[|ms| - 1])
  }

  /** What `getSegments(markers)` returns. */
  function DeriveSegments(ms: seq<Marker>): seq<Segment> {
    ScanAll(ms).segments
  }

  /** `getSegments(markers)`. */
  method GetSegments(markers: seq<Marker>) returns (segments: seq<Segment>)
    ensures segments == DeriveSegments(markers)
    ensures forall i | 0 <= i < |segments| :: WellFormed(segments[i])
    ensures |segments| <= |OfKind(markers, START)| && |segments| <= |OfKind(markers, END)|
    ensures SortedByTime(markers) ==> NonOverlapping(segments)
  {
    segments := [];
    var currentStart: Option<Seconds> := None;
    for i := 0 to |markers|
      invariant ScanState(segments, currentStart) == ScanAll(markers[..i])
    {
      var marker := markers[i];
      if marker.kind == START {
        currentStart := Some(marker.time);
      } else if marker.kind == END && currentStart.Some? {
        if marker.time > currentStart.value {
          segments := segments + [Between(currentStart.value, marker.time)];
        }
        currentStart := None;
      }
      assert markers[..i + 1][..i] == markers[..i];
    }
    assert markers[..|markers|] == markers;
    DerivedWellFormed(markers);
    DerivedCounts(markers);
    if SortedByTime(markers) {
      DerivedNonOverlapping(markers);
    }
  }

  /** Every derived segment is well formed: in particular its duration is positive. */
  lemma {:induction false} DerivedWellFormed(ms: seq<Marker>)
    ensures forall i | 0 <= i < |DeriveSegments(ms)| :: WellFormed(DeriveSegments(ms)[i])
    decreases |ms|
  {
    if ms != [] {
      var init, m := ms[..|ms| - 1], ms[|ms| - 1];
      DerivedWellFormed(init);
      var st := ScanAll(init);
      assert ScanAll(ms) == Step(st, m);
      var before, after := st.segments, ScanAll(ms).segments;
      assert DeriveSegments(init) == before && DeriveSegments(ms) == after;
      if after != before {
        var x := Between(st.pending.value, m.time);
        assert after == before + [x] && WellFormed(x);
        forall i | 0 <= i < |after| ensures WellFormed(after[i]) {
          if i < |before| {
            assert after[i] == before[i];
            assert WellFormed(before[i]);
          } else {
            assert after[i] == x;
          }
        }
      }
    }
  }

  /** The markers that take part in pairing: those of type `start` or `end`. */
  predicate IsBoundary(m: Marker) {
    m.kind == START || m.kind == END
  }

  function Boundaries(ms: seq<Marker>): seq<Marker> {
    Filter(ms, IsBoundary)
  }

  /**
   * Reference definition: one segment for every adjacent pair (start, end) among the boundary
   * markers in which the end is strictly later, in order.
   */
  function AdjacentPairs(b: seq<Marker>): seq<Segment>
    decreases |b|
  {
    if |b| < 2 then []
    else
      var prev, last := b[|b| - 2], b[|b| - 1];
      AdjacentPairs(b[..|b| - 1])
        + (if prev.kind == START && last.kind == END && last.time > prev.time then [Between(prev.time, last.time)] else [])
  }

  /** Reference definition of the pending slot: the time of the last boundary marker when that marker is a start. */
  function OpenStart(b: seq<Marker>): Option<Seconds> {
    if b != [] && b[|b| - 1].kind == START then Some(b[|b| - 1].time) else None
  }

  /**
   * The scan agrees with the reference: a start always overwrites the slot, every end clears it
   * (whether or not it closes a segment), and other marker types are ignored.
   */
  lemma {:induction false} ScanIsAdjacentPairs(ms: seq<Marker>)
    ensures ScanAll(ms) == ScanState(AdjacentPairs(Boundaries(ms)), OpenStart(Boundaries(ms)))
    decreases |ms|
  {
    if ms != [] {
      var init, m := ms[..|ms| - 1], ms[|ms| - 1];
      var b := Boundaries(init);
      ScanIsAdjacentPairs(init);
      assert ScanAll(ms) == Step(ScanState(AdjacentPairs(b), OpenStart(b)), m);
      assert init + [m] == ms;
      FilterConcat(init, [m], IsBoundary);
      assert [m][..0] == [];
      if IsBoundary(m) {
        assert Boundaries(ms) == b + [m];
        AppendBoundary(b, m);
      } else {
        assert Boundaries(ms) == b;
      }
    }
  }

  /** Appending a start or end marker to the boundary list extends the reference exactly as one scan step does. */
  lemma AppendBoundary(b: seq<Marker>, m: Marker)
    requires IsBoundary(m)
    ensures OpenStart(b + [m]) == if m.kind == START then Some(m.time) else None
    ensures AdjacentPairs(b + [m]) == AdjacentPairs(b)
      + (if OpenStart(b).Some? && m.kind == END && m.time > OpenStart(b).value then [Between(OpenStart(b).value, m.time)] else [])
  {
    assert (b + [m])[..|b|] == b;
    if |b| > 0 {
      assert (b + [m])[|b| - 1] == b[|b| - 1];
    }
  }

  /** Segments are bounded by the end markers, and by the start markers (a pending start counts as used). */
  lemma {:induction false} ScanCounts(ms: seq<Marker>)
    ensures |ScanAll(ms).segments| <= |OfKind(ms, END)|
    ensures |ScanAll(ms).segments| + (if ScanAll(ms).pending.Some? then 1 else 0) <= |OfKind(ms, START)|
    decreases |ms|
  {
    if ms != [] {
      ScanCounts(ms[..|ms| - 1]);
    }
  }

  /** There are at most as many segments as end markers, and at most as many as start markers. */
  lemma DerivedCounts(ms: seq<Marker>)
    ensures |DeriveSegments(ms)| <= |OfKind(ms, START)|
    ensures |DeriveSegments(ms)| <= |OfKind(ms, END)|
  {
    ScanCounts(ms);
  }

  /** Everything emitted, and the pending start, lies at or before the latest marker of a sorted list. */
  predicate OrderedScan(ms: seq<Marker>, st: ScanState)
    requires ms != []
  {
    OrderedBefore(st, ms[|ms| - 1].time)
  }

  /** The segments do not overlap, none ends after `latest`, and a pending start lies between the last end and `latest`. */
  predicate OrderedBefore(st: ScanState, latest: real) {
    && NonOverlapping(st.segments)
    && (forall i | 0 <= i < |st.segments| :: st.segments[i].end <= latest)
    && (st.pending.Some? ==>
          st.pending.value <= latest && forall i | 0 <= i < |st.segments| :: st.segments[i].end <= st.pending.value)
  }

  lemma {:induction false} ScanOrdered(ms: seq<Marker>)
    requires ms != [] && SortedByTime(ms)
    ensures OrderedScan(ms, ScanAll(ms))
    decreases |ms|
  {
    var init, m := ms[..|ms| - 1], ms[|ms| - 1];
    if init == [] {
      StepKeepsOrder(ScanState([], None), m, m.time);
    } else {
      assert SortedByTime(init);
      ScanOrdered(init);
      StepKeepsOrder(ScanAll(init), m, init[|init| - 1].time);
    }
  }

  /** A scan step at a marker no earlier than everything seen keeps the scan ordered up to that marker. */
  lemma StepKeepsOrder(st: ScanState, m: Marker, latest: real)
    requires OrderedBefore(st, latest) && latest <= m.time
    ensures OrderedBefore(Step(st, m), m.time)
  {
    if m.kind != START && m.kind == END && st.pending.Some? && m.time > st.pending.value {
      var added := Between(st.pending.value, m.time);
      var segs := st.segments + [added];
      assert added.start == st.pending.value && added.end == m.time;
      forall i, j | 0 <= i < j < |segs|
        ensures segs[i].end <= segs[j].start
      {
        assert segs[i] == st.segments[i];
        if j < |st.segments| {
          assert segs[j] == st.segments[j];
        } else {
          assert segs[j] == added;
        }
      }
      assert Step(st, m) == ScanState(segs, None);
    }
  }

  /** On markers sorted by time the segments never overlap and their starts strictly increase. */
  lemma DerivedNonOverlapping(ms: seq<Marker>)
    requires SortedByTime(ms)
    ensures NonOverlapping(DeriveSegments(ms))
    ensures var segs := DeriveSegments(ms); forall i, j | 0 <= i < j < |segs| :: segs[i].start < segs[j].start
  {
    if ms != [] {
      ScanOrdered(ms);
    }
    DerivedWellFormed(ms);
  }

  /** A second start replaces the pending one: only the later start is paired with the end. */
  lemma RestartReplacesPending(m1: Marker, m2: Marker, m3: Marker)
    requires m1.kind == START && m2.kind == START && m3.kind == END && m3.time > m2.time
    ensures ScanAll([m1, m2, m3]) == ScanState([Between(m2.time, m3.time)], None)
  {
    KindsDiffer();
    assert [m1, m2, m3][..2] == [m1, m2] && [m1, m2][..1] == [m1] && [m1][..0] == [];
    assert ScanAll([m1]) == ScanState([], Some(m1.time));
    assert ScanAll([m1, m2]) == ScanState([], Some(m2.time));
    assert ScanAll([m1, m2, m3]) == Step(ScanAll([m1, m2]), m3);
  }

  /** An end at or before the pending start discards that start, so a later end pairs with nothing. */
  lemma EarlyEndDiscardsStart(m1: Marker, m2: Marker, m3: Marker)
    requires m1.kind == START && m2.kind == END && m3.kind == END && m2.time <= m1.time
    ensures ScanAll([m1, m2, m3]) == ScanState([], None)
  {
    KindsDiffer();
    assert [m1, m2, m3][..2] == [m1, m2] && [m1, m2][..1] == [m1] && [m1][..0] == [];
    assert ScanAll([m1]) == ScanState([], Some(m1.time));
    assert ScanAll([m1, m2]) == ScanState([], None);
    assert ScanAll([m1, m2, m3]) == Step(ScanAll([m1, m2]), m3);
  }

  /** An end with no pending start is ignored, and a trailing start stays open without a segment. */
  lemma UnpairedMarkersIgnored(m1: Marker, m2: Marker)
    requires m1.kind == END && m2.kind == START
    ensures ScanAll([m1, m2]) == ScanState([], Some(m2.time))
  {
    KindsDiffer();
    assert [m1, m2][..1] == [m1] && [m1][..0] == [];
    assert ScanAll([m1]) == ScanState([], None);
  }

  /** The two marker types are different strings. */
  lemma KindsDiffer()
    ensures START != END
  {
    assert START[0] != END[0];
  }

  /** The filter condition of `validateSegments`. */
  predicate IsValid(s: Segment) {
    s.end > s.start && s.duration > 0.0
  }

  /** `validateSegments(segments)`: keeps, in order, exactly the segments that end after they start and have a positive duration. */
  function ValidateSegments(segs: seq<Segment>): (r: seq<Segment>)
    ensures forall s | s in r :: s in segs && IsValid(s)
    ensures forall s | s in segs && IsValid(s) :: s in r
    ensures (forall i | 0 <= i < |segs| :: IsValid(segs[i])) ==> r == segs
  {
    Filter(segs, IsValid)
  }

  /** Validating twice is validating once. */
  lemma ValidateIdempotent(segs: seq<Segment>)
    ensures ValidateSegments(ValidateSegments(segs)) == ValidateSegments(segs)
  {
  }

  /** `validateSegments` never removes anything `getSegments` produced. */
  lemma ValidateKeepsDerived(ms: seq<Marker>)
    ensures ValidateSegments(DeriveSegments(ms)) == DeriveSegments(ms)
  {
    DerivedWellFormed(ms);
  }

  /** `getTotalDuration(segments)`: the durations summed from the left. */
  function TotalDuration(segs: seq<Segment>): real
    decreases |segs|
  {
    if segs == [] then 0.0 else TotalDuration(segs[..|segs| - 1]) + segs[|segs| - 1].duration
  }

  /** A sum of positive durations is non-negative, and positive when there is at least one. */
  lemma {:induction false} TotalDurationPositive(segs: seq<Segment>)
    requires forall i | 0 <= i < |segs| :: segs[i].duration > 0.0
    ensures TotalDuration(segs) >= 0.0
    ensures segs != [] ==> TotalDuration(segs) > 0.0
    decreases |segs|
  {
    if segs != [] {
      TotalDurationPositive(segs[..|segs| - 1]);
    }
  }

  /** Non-overlapping well-formed segments fit inside the span from the first start to the last end. */
  lemma {:induction false} TotalWithinSpan(segs: seq<Segment>)
    requires segs != []
    requires forall i | 0 <= i < |segs| :: WellFormed(segs[i])
    requires NonOverlapping(segs)
    ensures TotalDuration(segs) <= segs[|segs| - 1].end - segs[0].start
    decreases |segs|
  {
    if |segs| > 1 {
      var init := segs[..|segs| - 1];
      TotalWithinSpan(init);
    }
  }

  /**
   * The total of what `getSegments` returns is non-negative, positive when there is a segment,
   * and, for sorted markers, no longer than the span the segments cover.
   */
  lemma DerivedTotalDuration(ms: seq<Marker>)
    ensures TotalDuration(DeriveSegments(ms)) >= 0.0
    ensures DeriveSegments(ms) != [] ==> TotalDuration(DeriveSegments(ms)) > 0.0
    ensures var segs := DeriveSegments(ms);
      SortedByTime(ms) && segs != [] ==> TotalDuration(segs) <= segs[|segs| - 1].end - segs[0].start
  {
    DerivedWellFormed(ms);
    TotalDurationPositive(DeriveSegments(ms));
    if SortedByTime(ms) && DeriveSegments(ms) != [] {
      DerivedNonOverlapping(ms);
      TotalWithinSpan(DeriveSegments(ms));
    }
  }

  /** `formatDuration(seconds)` for whole seconds: `Hч Mм Sс`, leading zero units omitted. */
  function FormatDuration(t: nat): string {
    var h, m, s := Hours(t), Minutes(t), Secs(t);
    if h > 0 then NatToString(h) + "ч " + (NatToString(m) + "м " + NatToString(s) + "с")
    else if m > 0 then NatToString(m) + "м " + NatToString(s) + "с"
    else NatToString(s) + "с"
  }

  /** The hours unit appears exactly from one hour on, the minutes unit exactly from one minute on; seconds always. */
  lemma FormatDurationUnits(t: nat)
    ensures 'ч' in FormatDuration(t) <==> t >= 3600
    ensures 'м' in FormatDuration(t) <==> t >= 60
    ensures FormatDuration(t)[|FormatDuration(t)| - 1] == 'с'
  {
    var h, m, s := NatToString(Hours(t)), NatToString(Minutes(t)), NatToString(Secs(t));
    assert 'ч' !in h && 'ч' !in m && 'ч' !in s;
    assert 'м' !in h && 'м' !in m && 'м' !in s;
    ClockDecomposition(t);
  }

  /** `r` reads as `<h>ч <m>м <s>с`: the digits of `h` stand before `ч`, and after `ч ` the rest reads as `<m>м <s>с`. */
  predicate ReadsAsHms(r: string, h: nat, m: nat, s: nat) {
    && 'ч' in r
    && forall a | 0 <= a < |r| && r[a] == 'ч' ::
      && a + 2 <= |r| && DigitField(r[..a]) && DecimalValue(r[..a]) == h && ReadsAsMs(r[a + 2..], m, s)
  }

  /** `r` reads as `<m>м <s>с`: before `м` and between it and the final `с` stand the digits of `m` and `s`. */
  predicate ReadsAsMs(r: string, m: nat, s: nat) {
    && 'м' in r
    && forall b | 0 <= b < |r| && r[b] == 'м' ::
      && b + 3 <= |r|
      && DigitField(r[..b]) && DigitField(r[b + 2..|r| - 1])
      && DecimalValue(r[..b]) == m && DecimalValue(r[b + 2..|r| - 1]) == s
  }

  /** `r` reads as `<s>с`: the digits of `s` before the final letter. */
  predicate ReadsAsS(r: string, s: nat) {
    1 <= |r| && DigitField(r[..|r| - 1]) && DecimalValue(r[..|r| - 1]) == s
  }

  /**
   * Reading the numbers back: the digits before `ч`, `м` and `с` are the hours, minutes and
   * seconds of `t`, in each of the three forms, and they recompose `t`.
   */
  lemma FormatDurationReadsBack(t: nat)
    ensures Minutes(t) < 60 && Secs(t) < 60 && Hours(t) * 3600 + Minutes(t) * 60 + Secs(t) == t
    ensures Hours(t) > 0 ==> ReadsAsHms(FormatDuration(t), Hours(t), Minutes(t), Secs(t))
    ensures Hours(t) == 0 && Minutes(t) > 0 ==> ReadsAsMs(FormatDuration(t), Minutes(t), Secs(t))
    ensures Hours(t) == 0 && Minutes(t) == 0 ==> ReadsAsS(FormatDuration(t), Secs(t))
  {
    ClockDecomposition(t);
    var x, y, z := NatToString(Hours(t)), NatToString(Minutes(t)), NatToString(Secs(t));
    NatToStringRoundTrip(Hours(t));
    NatToStringRoundTrip(Minutes(t));
    NatToStringRoundTrip(Secs(t));
    TwoFieldsRead(y, z, Minutes(t), Secs(t));
    if Hours(t) > 0 {
      HoursPrefix(x, y + "м " + z + "с", Hours(t), Minutes(t), Secs(t));
    } else if Minutes(t) == 0 {
      assert (z + "с")[..|z|] == z;
    }
  }

  /** Digits of `h`, then `ч `, then a text reading as `<m>м <s>с` without `ч`, read as `<h>ч <m>м <s>с`. */
  lemma HoursPrefix(x: string, tail: string, h: nat, m: nat, s: nat)
    requires DigitField(x) && DecimalValue(x) == h
    requires 'ч' !in tail && ReadsAsMs(tail, m, s)
    ensures ReadsAsHms(x + "ч " + tail, h, m, s)
  {
    HoursLetterOnce(x, tail);
    var r := x + "ч " + tail;
    assert r[..|x|] == x && r[|x| + 2..] == tail;
  }

  /** In `<digits>ч <text without ч>` the only `ч` follows the digits. */
  lemma HoursLetterOnce(x: string, tail: string)
    requires AllDigits(x) && 'ч' !in tail
    ensures var r := x + "ч " + tail;
      r[|x|] == 'ч' && forall a | 0 <= a < |r| && r[a] == 'ч' :: a == |x|
  {
    var r := x + "ч " + tail;
    assert forall k | 0 <= k < |x| :: r[k] == x[k];
    assert forall k | |x| + 2 <= k < |r| :: r[k] == tail[k - |x| - 2];
  }

  /** Digit fields joined as `<y>м <z>с` read back as the numbers they spell. */
  lemma TwoFieldsRead(y: string, z: string, m: nat, s: nat)
    requires DigitField(y) && DigitField(z)
    requires DecimalValue(y) == m && DecimalValue(z) == s
    ensures ReadsAsMs(y + "м " + z + "с", m, s)
    ensures 'ч' !in y + "м " + z + "с"
  {
    UnitsSplit(y, z);
  }

  /** In `<digits>м <digits>с` the only `м` follows the first number, which it separates from the second. */
  lemma UnitsSplit(a: string, b: string)
    requires AllDigits(a) && AllDigits(b)
    ensures var r := a + "м " + b + "с";
      && r[|a|] == 'м' && r[..|a|] == a && r[|a| + 2..|r| - 1] == b
      && forall k | 0 <= k < |r| && r[k] == 'м' :: k == |a|
  {
    var r := a + "м " + b + "с";
    assert forall k | 0 <= k < |a| :: r[k] == a[k];
    assert forall k | |a| + 2 <= k < |r| - 1 :: r[k] == b[k - |a| - 2];
    assert r[..|a|] == a;
    assert r[|a| + 2..|r| - 1] == b;
  }

}
