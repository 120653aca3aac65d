/** Loading the markers of a trace for comparison (`ForTrace` and the conversion in `compareEvents`). */
module EventLoading {
  import opened Sorting
  import opened Counting
  import opened Comparison
  import opened MatchingQuality
  import opened DifferenceLaws
  import opened OrderIndependence
  import opened EstimateDeterminism
  import opened TraceStore

  function Comparable(id: nat, m: Marker): ComparableEvent {
    ComparableEvent(id, m.distanceM, m.insertionLossDB, m.confidence)
  }

  predicate OrderedByDistance(events: seq<ComparableEvent>) {
    forall i, j :: 0 <= i < j < |events| ==> events[i].distanceM <= events[j].distanceM
  }

  /** A marker of the trace, at the distance a review may have given it. */
  predicate Stored(e: ComparableEvent, markers: map<nat, Marker>, traceID: nat) {
    && e.id in markers && markers[e.id].traceID == traceID && e.distanceM == markers[e.id].distanceM
    && e.insertionLossDB == markers[e.id].insertionLossDB && e.confidence == markers[e.id].confidence
  }

  predicate Listed(events: seq<ComparableEvent>, id: nat) {
    exists i :: 0 <= i < |events| && events[i].id == id
  }

  /** The markers of the trace, each once, by distance; the order of equal distances is left open. */
  predicate IsLoaded(events: seq<ComparableEvent>, markers: map<nat, Marker>, traceID: nat) {
    && OrderedByDistance(events)
    && DistinctIDs(events)
    && (forall i :: 0 <= i < |events| ==> Stored(events[i], markers, traceID))
    && (forall id :: id in markers && markers[id].traceID == traceID ==> Listed(events, id))
  }

  /** `events` with `e` put before the first later event. */
  predicate InsertedAt(before: seq<ComparableEvent>, after: seq<ComparableEvent>, e: ComparableEvent, j: nat) {
    j <= |before| && after == before[..j] + [e] + before[j..]
  }

  lemma InsertedMembers(before: seq<ComparableEvent>, after: seq<ComparableEvent>, e: ComparableEvent, j: nat)
    requires InsertedAt(before, after, e, j)
    ensures forall i :: 0 <= i < |after| ==>
              after[i] == if i < j then before[i] else if i == j then e else before[i - 1]
    ensures forall id: nat :: Listed(after, id) <==> Listed(before, id) || id == e.id
  {
    forall id: nat
      ensures Listed(after, id) <==> Listed(before, id) || id == e.id
    {
      if Listed(before, id) {
        var i :| 0 <= i < |before| && before[i].id == id;
        assert after[if i < j then i else i + 1].id == id;
      }
      assert after[j].id == e.id;
    }
  }

  method InsertEvent(events: seq<ComparableEvent>, e: ComparableEvent) returns (r: seq<ComparableEvent>, ghost j: nat)
    requires OrderedByDistance(events)
    ensures OrderedByDistance(r) && InsertedAt(events, r, e, j)
  {
    var i := 0;
    while i < |events| && events[i].distanceM <= e.distanceM
      invariant 0 <= i <= |events|
      invariant forall k :: 0 <= k < i ==> events[k].distanceM <= e.distanceM
    {
      i := i + 1;
    }
    r, j := events[..i] + [e] + events[i..], i;
    InsertedMembers(events, r, e, i);
  }

  /** `ForTrace`, with the rows visited in any order, followed by the conversion to comparable events. */
  method ForTrace(markers: map<nat, Marker>, traceID: nat) returns (events: seq<ComparableEvent>)
    ensures IsLoaded(events, markers, traceID)
  {
    events := [];
    var todo := markers.Keys;
    while todo != {}
      invariant todo <= markers.Keys
      invariant OrderedByDistance(events) && DistinctIDs(events)
      invariant forall i :: 0 <= i < |events| ==> Stored(events[i], markers, traceID) && events[i].id !in todo
      invariant forall id :: id in markers && markers[id].traceID == traceID ==> id in todo || Listed(events, id)
      decreases |todo|
    {
      var id :| id in todo;
      if markers[id].traceID == traceID {
        var before := events;
        ghost var j;
        events, j := InsertEvent(before, Comparable(id, markers[id]));
        InsertedMembers(before, events, Comparable(id, markers[id]), j);
      }
      todo := todo - {id};
    }
  }

  // ---- Two loads of one table ----

  function PlaceOf(): ComparableEvent -> real {
    (e: ComparableEvent) => e.distanceM
  }

  /** Where the events lie. */
  function Places(events: seq<ComparableEvent>): (places: seq<real>)
    ensures |places| == |events|
  {
    Mapped(events, PlaceOf())
  }

  lemma PlacesPlaced(events: seq<ComparableEvent>)
    ensures Placed(events, Places(events))
  {
    forall i | 0 <= i < |events| ensures events[i].distanceM == Places(events)[i] {
      MappedAt(events, PlaceOf(), i);
    }
  }

  lemma {:induction false} OncePerID(events: seq<ComparableEvent>, e: ComparableEvent)
    requires DistinctIDs(events)
    ensures multiset(events)[e] == if e in events then 1 else 0
  {
    if multiset(events)[e] >= 2 {
      var i, j := TwoIndices(events, e);
      assert false;
    }
  }

  /** They hold the same events, and show the same distance at every position. */
  lemma {:induction false} LoadedSame(a: seq<ComparableEvent>, b: seq<ComparableEvent>, markers: map<nat, Marker>,
      traceID: nat)
    requires IsLoaded(a, markers, traceID) && IsLoaded(b, markers, traceID)
    ensures Places(a) == Places(b) && Rearranged(a, b, Places(a))
  {
    forall e: ComparableEvent ensures multiset(a)[e] == multiset(b)[e] {
      OncePerID(a, e);
      OncePerID(b, e);
      if e in a { LoadedIn(a, b, markers, traceID, e); }
      if e in b { LoadedIn(b, a, markers, traceID, e); }
    }
    assert multiset(a) == multiset(b);
    PlacesPlaced(a);
    PlacesPlaced(b);
    MappedPermutation(a, b, PlaceOf());
    SortedUnique(Places(a), Places(a));
    SortedUnique(Places(a), Places(b));
  }

  /** And every order that a sort by distance cannot tell apart may be the one that is loaded. */
  lemma {:induction false} AnyOrderLoaded(a: seq<ComparableEvent>, b: seq<ComparableEvent>, places: seq<real>,
      markers: map<nat, Marker>, traceID: nat)
    requires IsLoaded(a, markers, traceID) && Rearranged(a, b, places)
    ensures IsLoaded(b, markers, traceID)
  {
    forall i | 0 <= i < |b| ensures Stored(b[i], markers, traceID) {
      assert b[i] in multiset(b);
      var j :| 0 <= j < |a| && a[j] == b[i];
    }
    forall i, j | 0 <= i < j < |b| ensures b[i].id != b[j].id {
      if b[i].id == b[j].id {
        assert Stored(b[i], markers, traceID) && Stored(b[j], markers, traceID);
        TwoOccurrences(b, i, j);
        OncePerID(a, b[i]);
      }
    }
    forall id | id in markers && markers[id].traceID == traceID ensures Listed(b, id) {
      assert Listed(a, id);
      var i :| 0 <= i < |a| && a[i].id == id;
      assert a[i] in multiset(a);
      var j :| 0 <= j < |b| && b[j] == a[i];
    }
  }

  /**
   If no matched event shares its distance with another event of its own trace, the two tables determine
   report and estimate: loading and comparing again gives the same differences and the same estimate.
   */
  lemma LoadsDetermineReport(a: seq<ComparableEvent>, b: seq<ComparableEvent>, base: map<nat, Marker>, baseID: nat,
      c: seq<ComparableEvent>, d: seq<ComparableEvent>, current: map<nat, Marker>, currentID: nat,
      tolerance: real, lossIncrease: real, first: seq<Difference>, second: seq<Difference>)
    requires IsLoaded(a, base, baseID) && IsLoaded(b, base, baseID)
    requires IsLoaded(c, current, currentID) && IsLoaded(d, current, currentID)
    requires MatchedAlone(Places(a), Places(c), tolerance)
    requires IsComparison(a, c, tolerance, lossIncrease, first)
    requires IsComparison(b, d, tolerance, lossIncrease, second)
    ensures multiset(first) == multiset(second) && PrimaryOf(first) == PrimaryOf(second)
  {
    LoadedSame(a, b, base, baseID);
    LoadedSame(c, d, current, currentID);
    AloneReportSame(a, b, Places(a), c, d, Places(c), tolerance, lossIncrease);
    EstimateOfReport(first, second);
  }

  /** No two markers of the trace lie at the same distance. */
  predicate DistancesDistinct(markers: map<nat, Marker>, traceID: nat) {
    forall i, j :: i in markers && j in markers && i != j && markers[i].traceID == traceID == markers[j].traceID ==>
      markers[i].distanceM != markers[j].distanceM
  }

  lemma DistinctLoadedAlone(a: seq<ComparableEvent>, markers: map<nat, Marker>, traceID: nat)
    requires IsLoaded(a, markers, traceID) && DistancesDistinct(markers, traceID)
    ensures AllAlone(Places(a))
  {
    PlacesPlaced(a);
    forall i, j | 0 <= i < j < |a| ensures Places(a)[i] != Places(a)[j] {
      assert Stored(a[i], markers, traceID) && Stored(a[j], markers, traceID);
    }
  }

  /** So a pipeline whose markers lie at distinct distances is deterministic. */
  lemma DistinctDistancesDetermineReport(a: seq<ComparableEvent>, b: seq<ComparableEvent>, base: map<nat, Marker>,
      baseID: nat,
      c: seq<ComparableEvent>, d: seq<ComparableEvent>, current: map<nat, Marker>, currentID: nat,
      tolerance: real, lossIncrease: real, first: seq<Difference>, second: seq<Difference>)
    requires DistancesDistinct(base, baseID) && DistancesDistinct(current, currentID)
    requires IsLoaded(a, base, baseID) && IsLoaded(b, base, baseID)
    requires IsLoaded(c, current, currentID) && IsLoaded(d, current, currentID)
    requires IsComparison(a, c, tolerance, lossIncrease, first)
    requires IsComparison(b, d, tolerance, lossIncrease, second)
    ensures multiset(first) == multiset(second) && PrimaryOf(first) == PrimaryOf(second)
  {
    DistinctLoadedAlone(a, base, baseID);
    DistinctLoadedAlone(c, current, currentID);
    DistinctPlacesAlone(Places(a), Places(c), tolerance);
    LoadsDetermineReport(a, b, base, baseID, c, d, current, currentID, tolerance, lossIncrease, first, second);
  }

  lemma LoadedIn(a: seq<ComparableEvent>, b: seq<ComparableEvent>, markers: map<nat, Marker>, traceID: nat,
      e: ComparableEvent)
    requires IsLoaded(a, markers, traceID) && IsLoaded(b, markers, traceID) && e in a
    ensures e in b
  {
    assert Stored(e, markers, traceID);
    assert Listed(b, e.id);
    var i :| 0 <= i < |b| && b[i].id == e.id;
    assert Stored(b[i], markers, traceID);
  }

  /** What is loaded from sound markers has confidence and loss in range and lies on the fibre. */
  lemma {:induction false} LoadedInRange(events: seq<ComparableEvent>, markers: map<nat, Marker>, next: nat,
      traceID: nat)
    requires IsLoaded(events, markers, traceID) && MarkersOK(markers, next)
    ensures ConfidentEvents(events)
    ensures forall i :: 0 <= i < |events| ==> 0.0 <= events[i].distanceM && 0.0 <= events[i].insertionLossDB <= 300.0
  {
    forall i | 0 <= i < |events|
      ensures 0.6 <= events[i].confidence <= 0.99
      ensures 0.0 <= events[i].distanceM && 0.0 <= events[i].insertionLossDB <= 300.0
    {
      assert Stored(events[i], markers, traceID);
      assert MarkerOK(markers[events[i].id]);
    }
  }
}
