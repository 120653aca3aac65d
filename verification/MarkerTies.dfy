/** Markers at one distance: when a detection leaves them, and what they do to an analysis. */
module MarkerTies {
  import opened Wrappers
  import opened Numbers
  import opened RequestID
  import opened Denoise
  import opened Detection
  import opened Comparison
  import opened MatchingQuality
  import opened TraceStore
  import opened TraceInvariants
  import opened StoreRuns
  import opened StepTrace
  import opened EventLoading

  // ---- Exactly when a detection leaves ties ----

  predicate EventsApart(events: seq<DetectedEvent>) {
    forall i, j :: 0 <= i < j < |events| ==> events[i].distanceM != events[j].distanceM
  }

  /** The reviewed markers of the trace, which a detection keeps, lie at distinct distances. */
  predicate ReviewedApart(markers: map<nat, Marker>, traceID: nat) {
    forall i, j :: i in markers && j in markers && i != j && markers[i].reviewed && markers[j].reviewed
                   && markers[i].traceID == traceID == markers[j].traceID ==>
      markers[i].distanceM != markers[j].distanceM
  }

  /** None of them lies where an event is reported. */
  predicate ReviewedClear(markers: map<nat, Marker>, traceID: nat, events: seq<DetectedEvent>) {
    forall id, i :: id in markers && markers[id].reviewed && markers[id].traceID == traceID && 0 <= i < |events| ==>
      markers[id].distanceM != events[i].distanceM
  }

  lemma {:induction false} ReplacedApart(before: map<nat, Marker>, after: map<nat, Marker>, traceID: nat, next: nat,
      events: seq<DetectedEvent>)
    requires MarkersOK(before, next) && Replaced(before, after, traceID, next, MarkersOf(traceID, events))
    requires EventsApart(events) && ReviewedApart(before, traceID) && ReviewedClear(before, traceID, events)
    ensures DistancesDistinct(after, traceID)
  {
    var added := MarkersOf(traceID, events);
    forall i, j | i in after && j in after && i < j && after[i].traceID == traceID == after[j].traceID
      ensures after[i].distanceM != after[j].distanceM
    {
      if next <= i < next + |added| {
        assert after[i] == added[i - next];
        if next <= j < next + |added| { assert after[j] == added[j - next]; }
      } else {
        assert i in before && before[i] == after[i] && before[i].reviewed;
        if next <= j < next + |added| {
          assert after[j] == added[j - next];
        } else {
          assert j in before && before[j] == after[j] && before[j].reviewed;
        }
      }
    }
  }

  lemma {:induction false} ReplacedTied(before: map<nat, Marker>, after: map<nat, Marker>, traceID: nat, next: nat,
      events: seq<DetectedEvent>)
    requires MarkersOK(before, next) && Replaced(before, after, traceID, next, MarkersOf(traceID, events))
    requires DistancesDistinct(after, traceID)
    ensures EventsApart(events) && ReviewedApart(before, traceID) && ReviewedClear(before, traceID, events)
  {
    var added := MarkersOf(traceID, events);
    forall i, j | 0 <= i < j < |events| ensures events[i].distanceM != events[j].distanceM {
      assert after[next + i] == added[i] && after[next + j] == added[j];
    }
    forall id, i | id in before && before[id].reviewed && before[id].traceID == traceID && 0 <= i < |events|
      ensures before[id].distanceM != events[i].distanceM
    {
      assert Survives(before[id], traceID);
      assert after[id] == before[id] && after[next + i] == added[i] && id != next + i;
    }
  }

  /**
   After a committed detection the markers of its trace lie at distinct distances exactly if its events do,
   the reviewed markers do, and no event is reported where a reviewed marker lies.  In particular a reviewed
   marker left where it was, and a re-detection that reports that place again, are two markers at one distance.
   */
  lemma {:induction false} DetectionTiesExactly(s: Store, call: nat, d: DetectionRun, requestID: string)
    requires MarkersOK(s.tables.markers, s.tables.nextMarkerID) && d.traceID in s.tables.traces
    ensures DistancesDistinct(CommitDetection(s, call, d, requestID).tables.markers, d.traceID)
       <==> && EventsApart(d.detected.events) && ReviewedApart(s.tables.markers, d.traceID)
            && ReviewedClear(s.tables.markers, d.traceID, d.detected.events)
  {
    var before, next, events := s.tables.markers, s.tables.nextMarkerID, d.detected.events;
    DetectionCommitted(s, call, d, requestID);
    ReplaceExact(before, d.traceID, next, MarkersOf(d.traceID, events));
    var after := CommitDetection(s, call, d, requestID).tables.markers;
    if DistancesDistinct(after, d.traceID) { ReplacedTied(before, after, d.traceID, next, events); }
    if EventsApart(events) && ReviewedApart(before, d.traceID) && ReviewedClear(before, d.traceID, events) {
      ReplacedApart(before, after, d.traceID, next, events);
    }
  }

  // ---- A run that reaches ties ----

  const REQUEST_ID: string := "r"

  lemma {:induction false} RequestIDCounts()
    ensures !Blank(REQUEST_ID)
  {
    assert !IsSpace(REQUEST_ID[0]);
  }

  function Samples(): (points: seq<real>)
    ensures IsStep(points)
  {
    seq(16, i requires 0 <= i < 16 => if i < STEP then 0.0 else -0.2)
  }

  function StepImport(points: seq<real>): ImportRequest {
    ImportRequest(1, INTERVAL_NS, points, 1, 0.2, 3)
  }

  function StepRequest(threshold: real): DetectRequest {
    DetectRequest(1, threshold, 3)
  }

  /** A capture of the step on route 1. */
  predicate IsCapture(t: Trace, points: seq<real>) {
    t.raw == points && t.routeID == 1 && t.sampleIntervalNS == INTERVAL_NS
  }

  lemma {:induction false} StepImported(points: seq<real>, routes: map<nat, Route>) returns (t: Trace)
    requires IsStep(points) && 1 in routes && routes[1] == ROUTE
    ensures ImportOutcomeOf(StepImport(points), routes, 16) == ImportOutcome.Accepted(t) && IsCapture(t, points)
  {
    DistanceBounds();
    ImportAcceptsExactly(StepImport(points), routes, 16);
    ImportStores(StepImport(points), routes, 16);
    t := ImportOutcomeOf(StepImport(points), routes, 16).trace;
  }

  function StepRun(traceID: nat, points: seq<real>, noise: real, threshold: real): DetectionRun
    requires IsStep(points) && 0.0 < threshold
  {
    DetectionRun(traceID, 1, threshold, 3, points, noise, Detected([StepEvent(points, noise, threshold)], 0), ROUTE)
  }

  lemma {:induction false} StepDetection(traceID: nat, t: Trace, points: seq<real>, noise: real, threshold: real)
    requires IsStep(points) && IsCapture(t, points) && 0.0 < threshold <= 0.2 && NoiseFloorResult(points) == Ok(noise)
    ensures DetectionOf(traceID, t, ROUTE, StepRequest(threshold)) == Some(StepRun(traceID, points, noise, threshold))
  {
    FilterWindowOne(points);
    StepDetected(points, noise, threshold);
    assert SettingOf(threshold, 3, t.sampleIntervalNS, ROUTE) == SettingAt(threshold);
  }

  /** Two captures of the step on one route, and no call in flight. */
  predicate Bench(s: Store, points: seq<real>) {
    && s.calls == map[]
    && 1 in s.tables.routes && s.tables.routes[1] == ROUTE
    && 1 in s.tables.traces && IsCapture(s.tables.traces[1], points)
    && 2 in s.tables.traces && IsCapture(s.tables.traces[2], points)
  }

  /** The bench after a detection that reported `e` alone. */
  predicate BenchDetected(s: Store, t: Store, traceID: nat, points: seq<real>, e: DetectedEvent) {
    && Bench(t, points) && t.tables.nextMarkerID == s.tables.nextMarkerID + 1
    && t.tables.markers == Cleared(s.tables.markers, traceID)[s.tables.nextMarkerID := MarkerOf(traceID, e)]
  }

  lemma {:induction false} BenchStays(s: Store, d: DetectionRun, points: seq<real>, e: DetectedEvent)
    requires Bench(s, points) && (d.traceID == 1 || d.traceID == 2) && d.detected.events == [e]
    ensures BenchDetected(s, CommitDetection(s, 1, d, REQUEST_ID), d.traceID, points, e)
  {
    DetectionCommitted(s, 1, d, REQUEST_ID);
    var added := MarkersOf(d.traceID, d.detected.events);
    assert added[1..] == [];
  }

  lemma {:induction false} BenchDetection(s: Store, traceID: nat, points: seq<real>, noise: real, threshold: real)
    requires Bench(s, points) && (traceID == 1 || traceID == 2)
    requires IsStep(points) && 0.0 < threshold <= 0.2 && NoiseFloorResult(points) == Ok(noise)
    ensures DetectionNow(s.tables, traceID, StepRequest(threshold)) == Some(StepRun(traceID, points, noise, threshold))
  {
    var t := s.tables.traces[traceID];
    assert s.tables.routes[t.routeID] == ROUTE;
    StepDetection(traceID, t, points, noise, threshold);
  }

  lemma {:induction false} BenchRuns(s: Store, traceID: nat, r: DetectRequest, d: DetectionRun, points: seq<real>,
      e: DetectedEvent)
    requires Bench(s, points) && (traceID == 1 || traceID == 2)
    requires d.traceID == traceID && d.detected.events == [e]
    requires RunStore(s, DetectCall(1, REQUEST_ID, traceID, r)) == CommitDetection(s, 1, d, REQUEST_ID)
    ensures BenchDetected(s, RunStore(s, DetectCall(1, REQUEST_ID, traceID, r)), traceID, points, e)
  {
    BenchStays(s, d, points, e);
  }

  /** A detection on the bench replaces the unreviewed markers of the trace by one marker at the step. */
  lemma {:induction false} DetectOnBench(s: Store, traceID: nat, points: seq<real>, noise: real, threshold: real)
    requires Bench(s, points) && (traceID == 1 || traceID == 2)
    requires IsStep(points) && 0.0 < threshold <= 0.2 && NoiseFloorResult(points) == Ok(noise)
    ensures BenchDetected(s, RunStore(s, DetectCall(1, REQUEST_ID, traceID, StepRequest(threshold))), traceID, points,
                          StepEvent(points, noise, threshold))
  {
    var d := StepRun(traceID, points, noise, threshold);
    RequestIDCounts();
    BenchDetection(s, traceID, points, noise, threshold);
    DetectCallRuns(s, 1, REQUEST_ID, traceID, StepRequest(threshold), d);
    BenchRuns(s, traceID, StepRequest(threshold), d, points, StepEvent(points, noise, threshold));
  }

  /** A route and two imports of the step. */
  function Setup(points: seq<real>): seq<StoreEvent> {
    var imported := ImportCall(1, REQUEST_ID, StepImport(points), 16);
    [PutRoute(1, ROUTE)] + (imported + imported)
  }

  lemma {:induction false} SetupRuns(points: seq<real>)
    requires IsStep(points)
    ensures var s := RunStore(EmptyStore(), Setup(points));
            Bench(s, points) && s.tables.markers == map[] && s.tables.nextMarkerID == 1
  {
    var imported := ImportCall(1, REQUEST_ID, StepImport(points), 16);
    RequestIDCounts();
    var s1 := ApplyStore(EmptyStore(), PutRoute(1, ROUTE));
    var t1 := StepImported(points, s1.tables.routes);
    ImportCallRuns(s1, 1, REQUEST_ID, StepImport(points), 16, t1);
    ImportCommitted(s1, 1, t1, REQUEST_ID);
    var s2 := CommitImport(s1, 1, t1, REQUEST_ID);
    var t2 := StepImported(points, s2.tables.routes);
    ImportCallRuns(s2, 1, REQUEST_ID, StepImport(points), 16, t2);
    ImportCommitted(s2, 1, t2, REQUEST_ID);
    RunStoreCons(EmptyStore(), PutRoute(1, ROUTE), imported + imported);
    RunStoreConcat(s1, imported, imported);
  }

  /** A review that leaves type and distance as they are. */
  const KEEP: ReviewRequest := ReviewRequest(Break, None, "confirmed on site")

  lemma {:induction false} ReviewOnBench(s: Store, points: seq<real>)
    requires Bench(s, points) && 2 in s.tables.markers && s.tables.markers[2].traceID == 2
    requires s.tables.markers[2].distanceM <= ROUTE.lengthM
    ensures var t := RunStore(s, ReviewCall(1, REQUEST_ID, 2, 7, KEEP));
            && Bench(t, points) && t.tables.nextMarkerID == s.tables.nextMarkerID
            && 2 in t.tables.markers && t.tables.markers == s.tables.markers[2 := t.tables.markers[2]]
            && t.tables.markers[2].reviewed && SameAlgorithm(s.tables.markers[2], t.tables.markers[2])
            && t.tables.markers[2].distanceM == s.tables.markers[2].distanceM
  {
    RequestIDCounts();
    var m := ReviewedMarker(s.tables.markers[2], RouteLengthOf(s.tables, 2), 7, KEEP).value;
    ReviewCallRuns(s, 1, REQUEST_ID, 2, 7, KEEP, m);
  }

  function DetectAt(traceID: nat, threshold: real): seq<StoreEvent> {
    DetectCall(1, REQUEST_ID, traceID, StepRequest(threshold))
  }

  /**
   Import the step twice; detect it on the first trace; on the second, detect it sensitively, confirm the
   event as it is, and detect again with the threshold of the first.
   */
  function TieRun(points: seq<real>): seq<StoreEvent> {
    Setup(points) + (DetectAt(1, 0.2)
      + (DetectAt(2, 0.04) + (ReviewCall(1, REQUEST_ID, 2, 7, KEEP) + DetectAt(2, 0.2))))
  }

  predicate MarkedAt(m: Marker, traceID: nat, confidence: real) {
    m.traceID == traceID && m.distanceM == StepDistance() && m.insertionLossDB == 0.2 && m.confidence == confidence
  }

  /** One marker on the first trace, and two on the second at the same distance. */
  predicate TiedTable(markers: map<nat, Marker>) {
    && markers.Keys == {1, 2, 3}
    && MarkedAt(markers[1], 1, 0.6) && MarkedAt(markers[2], 2, 0.99) && MarkedAt(markers[3], 2, 0.6)
  }

  lemma {:induction false} StepMarked(traceID: nat, points: seq<real>, noise: real, threshold: real, confidence: int)
    requires IsStep(points) && Sensitivity(threshold, confidence)
    ensures MarkedAt(MarkerOf(traceID, StepEvent(points, noise, threshold)), traceID, confidence as real / 1000.0)
  {
    StepClassified(points, noise, threshold, confidence);
  }

  /** The tables after each stage, whatever markers the detections made. */
  lemma {:induction false} TieTables(s4: map<nat, Marker>, s5: map<nat, Marker>, s6: map<nat, Marker>,
      s7: map<nat, Marker>, a: Marker, b: Marker, c: Marker)
    requires s4 == Cleared(map[], 1)[1 := a] && s5 == Cleared(s4, 2)[2 := b] && s7 == Cleared(s6, 2)[3 := c]
    requires 2 in s6 && s6 == s5[2 := s6[2]] && s6[2].reviewed && SameAlgorithm(b, s6[2])
    requires s6[2].distanceM == b.distanceM
    requires MarkedAt(a, 1, 0.6) && MarkedAt(b, 2, 0.99) && MarkedAt(c, 2, 0.6)
    ensures TiedTable(s7)
  {
  }

  lemma {:induction false} TieRunSplits(s: Store, setup: seq<StoreEvent>, a: seq<StoreEvent>, b: seq<StoreEvent>,
      c: seq<StoreEvent>, d: seq<StoreEvent>)
    ensures RunStore(s, setup + (a + (b + (c + d))))
         == RunStore(RunStore(RunStore(RunStore(RunStore(s, setup), a), b), c), d)
  {
    var s1 := RunStore(s, setup);
    var s2 := RunStore(s1, a);
    RunStoreConcat(s, setup, a + (b + (c + d)));
    RunStoreConcat(s1, a, b + (c + d));
    RunStoreConcat(s2, b, c + d);
    RunStoreConcat(RunStore(s2, b), c, d);
  }

  /** The run reaches such a table. */
  lemma {:induction false} TieRunReaches(points: seq<real>)
    requires IsStep(points)
    ensures TiedTable(RunStore(EmptyStore(), TieRun(points)).tables.markers)
  {
    var noise := Median(Tail(points));
    var s3 := RunStore(EmptyStore(), Setup(points));
    SetupRuns(points);
    DetectOnBench(s3, 1, points, noise, 0.2);
    var s4 := RunStore(s3, DetectAt(1, 0.2));
    DetectOnBench(s4, 2, points, noise, 0.04);
    var s5 := RunStore(s4, DetectAt(2, 0.04));
    StepMarked(1, points, noise, 0.2, 600);
    StepMarked(2, points, noise, 0.04, 990);
    StepMarked(2, points, noise, 0.2, 600);
    ReviewOnBench(s5, points);
    var s6 := RunStore(s5, ReviewCall(1, REQUEST_ID, 2, 7, KEEP));
    DetectOnBench(s6, 2, points, noise, 0.2);
    var s7 := RunStore(s6, DetectAt(2, 0.2));
    var bend, crack := StepEvent(points, noise, 0.2), StepEvent(points, noise, 0.04);
    TieTables(s4.tables.markers, s5.tables.markers, s6.tables.markers, s7.tables.markers,
              MarkerOf(1, bend), MarkerOf(2, crack), MarkerOf(2, bend));
    TieRunSplits(EmptyStore(), Setup(points), DetectAt(1, 0.2), DetectAt(2, 0.04),
                 ReviewCall(1, REQUEST_ID, 2, 7, KEEP), DetectAt(2, 0.2));
  }

  // ---- What the ties do ----

  lemma {:induction false} TiedLoads(markers: map<nat, Marker>)
    requires TiedTable(markers)
    ensures IsLoaded([Comparable(1, markers[1])], markers, 1)
    ensures IsLoaded([Comparable(2, markers[2]), Comparable(3, markers[3])], markers, 2)
    ensures IsLoaded([Comparable(3, markers[3]), Comparable(2, markers[2])], markers, 2)
  {
    var b, x, y := Comparable(1, markers[1]), Comparable(2, markers[2]), Comparable(3, markers[3]);
    assert [b][0].id == 1 && [x, y][0].id == 2 && [x, y][1].id == 3 && [y, x][0].id == 3 && [y, x][1].id == 2;
    assert Listed([b], 1) && Listed([x, y], 2) && Listed([x, y], 3) && Listed([y, x], 2) && Listed([y, x], 3);
  }

  lemma {:induction false} SingleEstimate(e: ComparableEvent, confidence: int)
    requires e.confidence == confidence as real / 1000.0
    ensures PrimaryOf([NewEntry(e)]) == Some(Estimate(e.distanceM, Uncertainty(e.confidence)))
  {
    Round3Fixed(confidence);
  }

  /**
   Ties change more than names: the store reaches a table of which two loads, both open to the database, have
   different reports, and estimates of 8 and of 1 metre uncertainty.
   */
  lemma {:induction false} LoadOrderMatters() returns (es: seq<StoreEvent>, a: seq<ComparableEvent>,
      c: seq<ComparableEvent>, d: seq<ComparableEvent>, first: seq<Difference>, second: seq<Difference>)
    ensures var markers := RunStore(EmptyStore(), es).tables.markers;
            IsLoaded(a, markers, 1) && IsLoaded(c, markers, 2) && IsLoaded(d, markers, 2)
    ensures IsComparison(a, c, 25.0, 0.5, first) && IsComparison(a, d, 25.0, 0.5, second)
    ensures multiset(first) != multiset(second)
    ensures PrimaryOf(first).Some? && PrimaryOf(first).value.uncertaintyM == 8.0
    ensures PrimaryOf(second).Some? && PrimaryOf(second).value.uncertaintyM == 1.0
  {
    es := TieRun(Samples());
    TieRunReaches(Samples());
    var markers := RunStore(EmptyStore(), es).tables.markers;
    a, c, d, first, second := TiedReports(markers);
  }

  lemma {:induction false} TiedReports(markers: map<nat, Marker>) returns (a: seq<ComparableEvent>,
      c: seq<ComparableEvent>, d: seq<ComparableEvent>, first: seq<Difference>, second: seq<Difference>)
    requires TiedTable(markers)
    ensures IsLoaded(a, markers, 1) && IsLoaded(c, markers, 2) && IsLoaded(d, markers, 2)
    ensures IsComparison(a, c, 25.0, 0.5, first) && IsComparison(a, d, 25.0, 0.5, second)
    ensures multiset(first) != multiset(second)
    ensures PrimaryOf(first).Some? && PrimaryOf(first).value.uncertaintyM == 8.0
    ensures PrimaryOf(second).Some? && PrimaryOf(second).value.uncertaintyM == 1.0
  {
    TiedLoads(markers);
    var b, x, y := Comparable(1, markers[1]), Comparable(2, markers[2]), Comparable(3, markers[3]);
    a, c, d := [b], [x, y], [y, x];
    first, second := [NewEntry(y)], [NewEntry(x)];
    OneForTwo(b, x, y, 25.0, 0.5);
    OneForTwo(b, y, x, 25.0, 0.5);
    SingletonsDiffer(NewEntry(y), NewEntry(x));
    SingleEstimate(y, 600);
    SingleEstimate(x, 990);
  }
}
