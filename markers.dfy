/**
 * The marker store of js/markersManager.js: a list of markers that `addMarker` keeps
 * sorted by time, with deletion by id, clearing, wholesale replacement and queries.
 */
module Markers {
  import opened Base
  import opened TimeCode

  /** The marker types the user interface creates; imported markers may carry any other text. */
  const START := "start"
  const END := "end"

  /** `Date.now() + Math.random()` in the source; here a value the caller supplies. */
  type MarkerId = real

  /** `{id, time, type, timestamp}`: `kind` is the source's `type` field. */
  datatype Marker = Marker(id: MarkerId, time: Seconds, kind: string, timestamp: string)

  /** Non-decreasing by `time`. */
  predicate SortedByTime(ms: seq<Marker>) {
    forall i, j | 0 <= i < j < |ms| :: ms[i].time <= ms[j].time
  }

  /**
   * Inserts `m` after every marker whose time is not greater than its own: one step of the
   * stable sort the source relies on (a new marker lands after existing markers with the same time).
   */
  function InsertByTime(ms: seq<Marker>, m: Marker): (r: seq<Marker>)
    ensures |r| == |ms| + 1
    ensures multiset(r) == multiset(ms) + multiset{m}
    decreases |ms|
  {
    if ms == [] then [m]
    else if m.time < ms[0].time then [m] + ms
    else
      assert ms == [ms[0]] + ms[1..];
      [ms[0]] + InsertByTime(ms[1..], m)
  }

  /** A lower bound on every time, including the new one, bounds every time after insertion. */
  lemma {:induction false} InsertLowerBound(ms: seq<Marker>, m: Marker, lo: real)
    requires lo <= m.time
    requires forall i | 0 <= i < |ms| :: lo <= ms[i].time
    ensures forall i | 0 <= i < |ms| + 1 :: lo <= InsertByTime(ms, m)[i].time
    decreases |ms|
  {
    if ms != [] && m.time >= ms[0].time {
      InsertLowerBound(ms[1..], m, lo);
    }
  }

  /** Inserting into a sorted list keeps it sorted. */
  lemma {:induction false} InsertKeepsSorted(ms: seq<Marker>, m: Marker)
    requires SortedByTime(ms)
    ensures SortedByTime(InsertByTime(ms, m))
    decreases |ms|
  {
    if ms != [] {
      if m.time < ms[0].time {
        assert forall i | 0 <= i < |ms| :: m.time <= ms[i].time;
      } else {
        var rest := InsertByTime(ms[1..], m);
        InsertKeepsSorted(ms[1..], m);
        InsertLowerBound(ms[1..], m, ms[0].time);
        assert forall j | 0 <= j < |rest| :: ms[0].time <= rest[j].time;
      }
    }
  }

  /** Where `InsertByTime` puts the new marker. */
  function InsertionPoint(ms: seq<Marker>, m: Marker): (k: nat)
    ensures k <= |ms|
    decreases |ms|
  {
    if ms == [] || m.time < ms[0].time then 0 else 1 + InsertionPoint(ms[1..], m)
  }

  /** The new marker is spliced in at its insertion point; nothing else moves. */
  lemma {:induction false} InsertSplices(ms: seq<Marker>, m: Marker)
    ensures var k := InsertionPoint(ms, m); InsertByTime(ms, m) == ms[..k] + [m] + ms[k..]
    decreases |ms|
  {
    if ms == [] || m.time < ms[0].time {
      assert ms[..0] == [] && ms[0..] == ms;
    } else {
      var tail := ms[1..];
      InsertSplices(tail, m);
      InsertStep(ms, m);
      ConsSplice(ms[0], tail, m, InsertionPoint(tail, m));
      assert [ms[0]] + tail == ms;
    }
  }

  /** Past a marker no later than the new one, insertion continues in the tail. */
  lemma InsertStep(ms: seq<Marker>, m: Marker)
    requires ms != [] && m.time >= ms[0].time
    ensures InsertByTime(ms, m) == [ms[0]] + InsertByTime(ms[1..], m)
    ensures InsertionPoint(ms, m) == InsertionPoint(ms[1..], m) + 1
  {
  }

  /** Splicing into the tail of a list is splicing one place further into the list. */
  lemma ConsSplice<T>(x: T, tail: seq<T>, m: T, j: nat)
    requires j <= |tail|
    ensures [x] + (tail[..j] + [m] + tail[j..]) == ([x] + tail)[..j + 1] + [m] + ([x] + tail)[j + 1..]
  {
    assert ([x] + tail)[..j + 1] == [x] + tail[..j];
    assert ([x] + tail)[j + 1..] == tail[j..];
  }

  /**
   * On a sorted list the insertion point separates the markers no later than the new one
   * (ties included) from those strictly later.
   */
  lemma {:induction false} InsertionPointSeparates(ms: seq<Marker>, m: Marker)
    requires SortedByTime(ms)
    ensures var k := InsertionPoint(ms, m);
      && (forall i | 0 <= i < k :: ms[i].time <= m.time)
      && (forall i | k <= i < |ms| :: ms[i].time > m.time)
    decreases |ms|
  {
    if ms != [] && m.time >= ms[0].time {
      InsertionPointSeparates(ms[1..], m);
      var k := InsertionPoint(ms, m);
      assert forall i | 1 <= i < |ms| :: ms[i] == ms[1..][i - 1];
    }
  }

  /** A stable insertion sort by time: `Array.prototype.sort((a, b) => a.time - b.time)`. */
  function SortByTime(ms: seq<Marker>): (r: seq<Marker>)
    ensures SortedByTime(r)
    ensures multiset(r) == multiset(ms)
    decreases |ms|
  {
    if ms == [] then []
    else
      var init, last := ms[..|ms| - 1], ms[|ms| - 1];
      assert ms == init + [last];
      InsertKeepsSorted(SortByTime(init), last);
      InsertByTime(SortByTime(init), last)
  }

  /** Appending a marker no earlier than every other one keeps it last. */
  lemma {:induction false} InsertLatest(ms: seq<Marker>, m: Marker)
    requires forall i | 0 <= i < |ms| :: ms[i].time <= m.time
    ensures InsertByTime(ms, m) == ms + [m]
    decreases |ms|
  {
    if ms != [] {
      InsertLatest(ms[1..], m);
    }
  }

  /** Sorting an already sorted list changes nothing, ties included. */
  lemma {:induction false} SortSortedIsIdentity(ms: seq<Marker>)
    requires SortedByTime(ms)
    ensures SortByTime(ms) == ms
    decreases |ms|
  {
    if ms != [] {
      var init := ms[..|ms| - 1];
      SortSortedIsIdentity(init);
      InsertLatest(init, ms[|ms| - 1]);
      assert init + [ms[|ms| - 1]] == ms;
    }
  }

  /** `customTimestamp || this.formatTime(time)`: an absent or empty label falls back to the formatted time. */
  function TimestampFor(time: Seconds, customTimestamp: Option<string>): string
  {
    if customTimestamp.Some? && customTimestamp.value != "" then customTimestamp.value
    else FormatSeconds(time)
  }

  /**
   * A marker added without its own label is labelled so that `validateTimeFormat` accepts the
   * label (for times under 100 hours) and `parseTime` reads back its whole seconds.
   */
  lemma DefaultLabelReadsBack(time: Seconds)
    ensures ParsableTime(TimestampFor(time, None))
    ensures ParseTime(TimestampFor(time, None)) == WholeSeconds(time)
    ensures ValidateTimeFormat(TimestampFor(time, None)) <==> time < 360000.0
  {
    ParseFormatRoundTrip(WholeSeconds(time));
    FormatTimeValid(WholeSeconds(time));
  }

  /** `this.markers.filter(marker => marker.id !== id)`. */
  function WithoutId(ms: seq<Marker>, id: MarkerId): (r: seq<Marker>)
    ensures forall m | m in r :: m in ms && m.id != id
    ensures forall m | m in ms && m.id != id :: m in r
    ensures (forall i | 0 <= i < |ms| :: ms[i].id != id) ==> r == ms
  {
    Filter(ms, (m: Marker) => m.id != id)
  }

  /** Deleting by id removes exactly the markers carrying that id, and no others. */
  lemma DeleteCount(ms: seq<Marker>, id: MarkerId)
    ensures |WithoutId(ms, id)| == |ms| - |Filter(ms, (m: Marker) => m.id == id)|
  {
    FilterPartition(ms, (m: Marker) => m.id != id, (m: Marker) => m.id == id);
  }

  /** Any selection from a sorted list is sorted. */
  lemma {:induction false} FilterKeepsSorted(ms: seq<Marker>, p: Marker -> bool)
    requires SortedByTime(ms)
    ensures SortedByTime(Filter(ms, p))
    decreases |ms|
  {
    if ms != [] {
      var init, last := ms[..|ms| - 1], ms[|ms| - 1];
      var f := Filter(init, p);
      FilterKeepsSorted(init, p);
      assert forall x | x in f :: x.time <= last.time by {
        forall x | x in f ensures x.time <= last.time {
          assert x in init;
          var i :| 0 <= i < |init| && init[i] == x;
          assert ms[i] == x;
        }
      }
    }
  }

  /** Deleting by id keeps a sorted store sorted. */
  lemma DeleteKeepsSorted(ms: seq<Marker>, id: MarkerId)
    requires SortedByTime(ms)
    ensures SortedByTime(WithoutId(ms, id))
  {
    FilterKeepsSorted(ms, (m: Marker) => m.id != id);
  }

  /** `this.markers.filter(marker => marker.type === type)`. */
  function OfKind(ms: seq<Marker>, kind: string): (r: seq<Marker>)
    ensures |r| <= |ms|
    ensures forall m | m in r :: m in ms && m.kind == kind
    ensures forall m | m in ms && m.kind == kind :: m in r
  {
    Filter(ms, (m: Marker) => m.kind == kind)
  }

  /** The store of js/markersManager.js. `setMarkers` may leave it unsorted; `addMarker` always re-sorts. */
  class MarkersManager {
    var markers: seq<Marker>

    constructor ()
      ensures markers == []
    {
      markers := [];
    }

    /**
     * `addMarker(time, type, customTimestamp)`: pushes a new marker and re-sorts the whole list.
     * `id` stands for the fresh `Date.now() + Math.random()` value.
     */
    method AddMarker(id: MarkerId, time: Seconds, kind: string, customTimestamp: Option<string>)
      returns (marker: Marker)
      modifies this
      ensures marker == Marker(id, time, kind, TimestampFor(time, customTimestamp))
      ensures markers == SortByTime(old(markers) + [marker])
      ensures SortedByTime(markers)
      ensures |markers| == |old(markers)| + 1
      ensures multiset(markers) == multiset(old(markers)) + multiset{marker}
      ensures SortedByTime(old(markers)) ==> markers == InsertByTime(old(markers), marker)
    {
      marker := Marker(id, time, kind, TimestampFor(time, customTimestamp));
      markers := markers + [marker];
      markers := SortByTime(markers);
      SortAfterPush(old(markers), marker);
    }

    /** `deleteMarker(id)`. */
    method DeleteMarker(id: MarkerId)
      modifies this
      ensures markers == WithoutId(old(markers), id)
      ensures forall m | m in markers :: m.id != id
      ensures SortedByTime(old(markers)) ==> SortedByTime(markers)
    {
      markers := WithoutId(markers, id);
      if SortedByTime(old(markers)) {
        DeleteKeepsSorted(old(markers), id);
      }
    }

    /** `clearMarkers()`. */
    method ClearMarkers()
      modifies this
      ensures markers == [] && GetMarkersCount() == 0
    {
      markers := [];
    }

    /** `setMarkers(markers)`: wholesale replacement, used by import and by restore from storage; no re-sort. */
    method SetMarkers(ms: seq<Marker>)
      modifies this
      ensures markers == ms
    {
      markers := ms;
    }

    /** `getMarkersCount()`. */
    function GetMarkersCount(): (n: nat)
      reads this
      ensures n == |markers|
    {
      |markers|
    }

    /** `getMarkersByType(type)`: the markers of that type, in store order. */
    function GetMarkersByType(kind: string): (r: seq<Marker>)
      reads this
      ensures forall m | m in r :: m in markers && m.kind == kind
      ensures forall m | m in markers && m.kind == kind :: m in r
      ensures SortedByTime(markers) ==> SortedByTime(r)
    {
      if SortedByTime(markers) then OfKindKeepsSorted(markers, kind); OfKind(markers, kind)
      else OfKind(markers, kind)
    }

    /** `getLastMarker()`: the final marker, or null for an empty store; on a sorted store it is a latest one. */
    function GetLastMarker(): (r: Option<Marker>)
      reads this
      ensures r.None? <==> markers == []
      ensures r.Some? ==> r.value == markers[|markers| - 1]
      ensures r.Some? && SortedByTime(markers) ==>
        forall i | 0 <= i < |markers| :: markers[i].time <= r.value.time
    {
      if |markers| > 0 then Some(markers[|markers| - 1]) else None
    }
  }

  /** Pushing onto a sorted list and sorting is inserting the new marker after its ties. */
  lemma SortAfterPush(ms: seq<Marker>, m: Marker)
    ensures SortedByTime(ms) ==> SortByTime(ms + [m]) == InsertByTime(ms, m)
  {
    if SortedByTime(ms) {
      assert (ms + [m])[..|ms|] == ms;
      SortSortedIsIdentity(ms);
    }
  }

  /** Selecting one type keeps a sorted store's order. */
  lemma OfKindKeepsSorted(ms: seq<Marker>, kind: string)
    requires SortedByTime(ms)
    ensures SortedByTime(OfKind(ms, kind))
  {
    FilterKeepsSorted(ms, (m: Marker) => m.kind == kind);
  }
}
