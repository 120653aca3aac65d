/**
 The stored traces and markers and the service calls that change them, in place.  Each call is a read
 that computes and a transaction that writes; both are proved to be the steps of the same name.
 */
module TraceService {
  import opened Wrappers
  import opened RequestID
  import opened Denoise
  import opened Distance
  import opened Detection
  import opened TraceStore

  /** The decisions of `Import` before its transaction. */
  method PrepareImport(r: ImportRequest, routes: map<nat, Route>, maxPoints: nat) returns (outcome: ImportOutcome)
    ensures outcome == ImportOutcomeOf(r, routes, maxPoints)
    ensures outcome.Accepted? ==> ImportedAs(outcome.trace, r)
  {
    if |r.points| > maxPoints { return Refused(TooManyPoints); }
    for i := 0 to |r.points|
      invariant FirstBad(r.points, i) < 0
    {
      if r.points[i] < -200.0 || r.points[i] > 100.0 {
        FirstBadFound(r.points, i);
        return Refused(SampleOutOfRange(i));
      }
    }
    if r.routeID !in routes { return Refused(RouteNotFound); }
    var window := r.denoiseWindow;
    if window == 0 { window := 5; }
    var threshold := r.peakThresholdDB;
    if threshold == 0.0 { threshold := 0.8; }
    var merge := r.mergeWindow;
    if merge == 0 { merge := 3; }
    var filtered := MovingMedian(r.points, window);
    if filtered.Err? { return Refused(AlgorithmRefused(filtered.error)); }
    var noise := EstimateNoiseFloor(filtered.value);
    if noise.Err? { return Refused(AlgorithmRefused(noise.error)); }
    var last := SampleDistance(|r.points| - 1, r.sampleIntervalNS, routes[r.routeID].refractiveIndex);
    if last.Err? { return Refused(AlgorithmRefused(last.error)); }
    if last.value < routes[r.routeID].lengthM * 0.05 { return Refused(CoverageTooSmall); }
    outcome := Accepted(Trace(r.routeID, r.sampleIntervalNS, r.points, filtered.value, noise.value,
                              window, threshold, merge));
  }

  lemma {:induction false} FirstBadStays(points: seq<real>, i: nat, n: nat)
    requires i < n <= |points| && FirstBad(points, i) < 0 && !SampleOK(points[i])
    ensures FirstBad(points, n) == i
    decreases n
  {
    if n == i + 1 {
    } else {
      FirstBadStays(points, i, n - 1);
    }
  }

  lemma FirstBadFound(points: seq<real>, i: nat)
    requires i < |points| && FirstBad(points, i) < 0 && !SampleOK(points[i])
    ensures FirstBad(points, |points|) == i
  {
    FirstBadStays(points, i, |points|);
  }

  /** The computation of a detection call on the trace and route it read. */
  method PrepareDetection(traceID: nat, t: Trace, route: Route, r: DetectRequest) returns (d: Option<DetectionRun>)
    ensures d == DetectionOf(traceID, t, route, r)
    ensures d.Some? ==> ParametersFor(d.value.window, d.value.threshold, d.value.merge, r, t)
  {
    var window := r.denoiseWindow;
    if window == 0 { window := t.denoiseWindow; }
    if window == 0 { window := 5; }
    var threshold := r.peakThresholdDB;
    if threshold == 0.0 { threshold := t.peakThresholdDB; }
    if threshold == 0.0 { threshold := 0.8; }
    var merge := r.mergeWindow;
    if merge == 0 { merge := t.mergeWindow; }
    if merge == 0 { merge := 3; }
    var filtered := MovingMedian(t.raw, window);
    if filtered.Err? { return None; }
    var noise := EstimateNoiseFloor(filtered.value);
    if noise.Err? { return None; }
    var detected := Detect(filtered.value,
                           Setting(threshold, merge, t.sampleIntervalNS, route.refractiveIndex, route.lengthM));
    if detected.Err? { return None; }
    d := Some(DetectionRun(traceID, window, threshold, merge, filtered.value, noise.value, detected.value, route));
  }

  /** The markers a detection wants to store. */
  method BuildMarkers(traceID: nat, events: seq<DetectedEvent>) returns (markers: seq<Marker>)
    ensures markers == MarkersOf(traceID, events)
    ensures |markers| == |events| && forall i :: 0 <= i < |events| ==>
              && markers[i].traceID == traceID && !markers[i].reviewed
              && markers[i].distanceM == events[i].distanceM && markers[i].eventType == events[i].eventType
              && FromAlgorithm(markers[i], events[i])
  {
    markers := [];
    for i := 0 to |events|
      invariant markers == MarkersOf(traceID, events)[..i]
    {
      var item := events[i];
      markers := markers
        + [Marker(traceID, item.distanceM, item.eventType, item.insertionLossDB, item.reflectanceDB, item.confidence,
                  item.eventType, item.distanceM, item.insertionLossDB, false, "", None)];
    }
  }

  class TraceService {
    var routes: map<nat, Route>
    var traces: map<nat, Trace>
    var markers: map<nat, Marker>
    var nextTraceID: nat
    var nextMarkerID: nat
    var audits: seq<TraceAudit>
    var calls: map<nat, Call>
    ghost var latest: map<nat, Batch>

    /** The service over tables that may already hold rows; no call is in flight yet. */
    constructor (tables: Tables, ghost latest: map<nat, Batch>)
      ensures State() == Store(tables, map[], latest)
    {
      routes, traces, markers := tables.routes, tables.traces, tables.markers;
      nextTraceID, nextMarkerID, audits := tables.nextTraceID, tables.nextMarkerID, tables.audits;
      calls := map[];
      this.latest := latest;
    }

    function AllTables(): Tables
      reads this
    {
      Tables(routes, traces, markers, nextTraceID, nextMarkerID, audits)
    }

    ghost function State(): Store
      reads this
    {
      Store(AllTables(), calls, latest)
    }

    method SaveRoute(id: nat, route: Route)
      modifies this`routes
      ensures State() == ApplyStore(old(State()), PutRoute(id, route))
      ensures routes == if 0.0 < route.lengthM <= 500000.0 && 1.3 <= route.refractiveIndex <= 1.7
                        then old(routes)[id := route] else old(routes)
    {
      if 0.0 < route.lengthM && route.lengthM <= 500000.0
         && 1.3 <= route.refractiveIndex && route.refractiveIndex <= 1.7 {
        routes := routes[id := route];
      }
    }

    method BeginImport(call: nat, requestID: string, r: ImportRequest, maxPoints: nat) returns (outcome: ImportOutcome)
      requires call !in calls
      modifies this`calls
      ensures State() == ApplyStore(old(State()), ImportRead(call, requestID, r, maxPoints))
      ensures outcome == ImportOutcomeOf(r, routes, maxPoints)
    {
      outcome := PrepareImport(r, routes, maxPoints);
      if outcome.Accepted? { calls := calls[call := Call(requestID, Importing(outcome.trace))]; }
    }

    /** The first read of `Detect`. */
    method BeginDetect(call: nat, requestID: string, traceID: nat, r: DetectRequest) returns (goesOn: bool)
      requires call !in calls
      modifies this`calls
      ensures State() == ApplyStore(old(State()), DetectRead(call, requestID, traceID, r))
      ensures goesOn == (call in calls)
    {
      goesOn := traceID in traces;
      if goesOn { calls := calls[call := Call(requestID, HasTrace(traceID, traces[traceID], r))]; }
    }

    /** The second read, and everything computed from the two. */
    method ContinueDetect(call: nat) returns (goesOn: bool)
      requires call in calls && calls[call].job.HasTrace?
      modifies this`calls
      ensures State() == ApplyStore(old(State()), DetectRoute(call))
      ensures goesOn == (call in calls)
    {
      var c := calls[call];
      var t := c.job.trace;
      var d := None;
      if t.routeID in routes { d := PrepareDetection(c.job.traceID, t, routes[t.routeID], c.job.detecting); }
      goesOn := d.Some?;
      if goesOn {
        calls := calls[call := c.(job := Detecting(d.value))];
      } else {
        calls := calls - {call};
      }
    }

    /** The first read of `Review`. */
    method BeginReview(call: nat, requestID: string, markerID: nat, actorID: nat,
        r: ReviewRequest) returns (goesOn: bool)
      requires call !in calls && ValidReview(r)
      modifies this`calls
      ensures State() == ApplyStore(old(State()), ReviewRead(call, requestID, markerID, actorID, r))
      ensures goesOn == (call in calls)
    {
      goesOn := markerID in markers;
      if goesOn { calls := calls[call := Call(requestID, HasMarker(markerID, markers[markerID], actorID, r))]; }
    }

    method ReadReviewTrace(call: nat) returns (goesOn: bool)
      requires call in calls && calls[call].job.HasMarker?
      modifies this`calls
      ensures State() == ApplyStore(old(State()), ReviewTrace(call))
      ensures goesOn == (call in calls)
    {
      var c := calls[call];
      var job := c.job;
      goesOn := job.marker.traceID in traces;
      if goesOn {
        var routeID := traces[job.marker.traceID].routeID;
        calls := calls[call := c.(
          job := HasMarkerTrace(job.markerID, job.marker, routeID, job.actorID, job.reviewing))];
      } else {
        calls := calls - {call};
      }
    }

    /** The last read, and the marker the review wants to store. */
    method ReadReviewRoute(call: nat) returns (goesOn: bool)
      requires call in calls && calls[call].job.HasMarkerTrace?
      modifies this`calls
      ensures State() == ApplyStore(old(State()), ReviewRoute(call))
      ensures goesOn == (call in calls)
    {
      var c := calls[call];
      var event, r := c.job.marker, c.job.reviewing;
      event := event.(eventType := r.eventType);
      if r.distanceM.Some? { event := event.(distanceM := r.distanceM.value); }
      goesOn := c.job.routeID in routes && event.distanceM <= routes[c.job.routeID].lengthM;
      if goesOn {
        event := event.(reviewed := true, reviewNote := r.reviewNote, reviewedBy := Some(c.job.actorID));
        calls := calls[call := c.(job := Reviewing(c.job.markerID, event))];
      } else {
        calls := calls - {call};
      }
    }

    /** `TraceRepository.Create`. */
    method CreateTrace(t: Trace) returns (id: nat)
      modifies this`traces, this`nextTraceID
      ensures id == old(nextTraceID) && nextTraceID == id + 1 && traces == old(traces)[id := t]
    {
      id := nextTraceID;
      traces, nextTraceID := traces[id := t], id + 1;
    }

    /** `TraceRepository.UpdateProcessing`: rewrites the derived columns, never the raw samples. */
    method UpdateProcessing(id: nat, processed: seq<real>, noise: real, window: int, threshold: real,
        merge: int) returns (found: bool)
      modifies this`traces
      ensures found == (id in old(traces))
      ensures traces == if !found then old(traces)
                        else old(traces)[id := old(traces)[id].(
                               processed := processed, noiseFloorDB := noise, denoiseWindow := window,
                               peakThresholdDB := threshold, mergeWindow := merge)]
    {
      found := id in traces;
      if found {
        traces := traces[id := traces[id].(
          processed := processed, noiseFloorDB := noise, denoiseWindow := window,
          peakThresholdDB := threshold, mergeWindow := merge)];
      }
    }

    /** `EventRepository.ReplaceForTrace`. */
    method ReplaceForTrace(traceID: nat, events: seq<Marker>)
      modifies this`markers, this`nextMarkerID
      ensures markers == Inserted(Cleared(old(markers), traceID), old(nextMarkerID), events)
      ensures nextMarkerID == old(nextMarkerID) + |events|
    {
      markers := map id | id in markers && (markers[id].traceID != traceID || markers[id].reviewed) :: markers[id];
      for i := 0 to |events|
        invariant nextMarkerID == old(nextMarkerID) + i
        invariant Inserted(markers, nextMarkerID, events[i..])
               == Inserted(Cleared(old(markers), traceID), old(nextMarkerID), events)
      {
        assert events[i..][1..] == events[i + 1..];
        markers, nextMarkerID := markers[nextMarkerID := events[i]], nextMarkerID + 1;
      }
    }

    /** `EventRepository.Review`: writes the human columns of one marker. */
    method StoreReview(id: nat, event: Marker) returns (found: bool)
      modifies this`markers
      ensures found == (id in old(markers))
      ensures markers == if !found then old(markers)
                         else old(markers)[id := old(markers)[id].(
                                eventType := event.eventType, distanceM := event.distanceM, reviewed := true,
                                reviewNote := event.reviewNote, reviewedBy := event.reviewedBy)]
    {
      found := id in markers;
      if found {
        markers := markers[id := markers[id].(
          eventType := event.eventType, distanceM := event.distanceM, reviewed := true,
          reviewNote := event.reviewNote, reviewedBy := event.reviewedBy)];
      }
    }

    /** The end of a transaction: an accepted audit entry, or everything back to what it was. */
    method FinishTransaction(ok: bool, action: TraceAction, id: nat, requestID: string, before: Tables)
      returns (committed: bool)
      requires before.routes == routes && before.audits == audits
      modifies this`traces, this`markers, this`nextTraceID, this`nextMarkerID, this`audits
      ensures committed == (ok && !Blank(requestID))
      ensures AllTables() == if committed then WithAudit(old(AllTables()), action, id, requestID) else before
    {
      committed := ok && !Blank(requestID);
      if committed {
        audits := audits + [TraceAudit(action, id, requestID)];
      } else {
        traces, markers := before.traces, before.markers;
        nextTraceID, nextMarkerID := before.nextTraceID, before.nextMarkerID;
      }
    }

    method CommitCall(call: nat) returns (committed: bool)
      requires call in calls && Ready(calls[call].job)
      modifies this
      ensures State() == ApplyStore(old(State()), Commit(call))
      ensures committed <==> audits != old(audits)
    {
      var c, before := calls[call], AllTables();
      match c.job {
        case Importing(trace) =>
          var id := CreateTrace(trace);
          committed := FinishTransaction(true, TraceImported, id, c.requestID, before);
        case Detecting(d) =>
          var found := UpdateProcessing(d.traceID, d.filtered, d.noise, d.window, d.threshold, d.merge);
          if found {
            var events := BuildMarkers(d.traceID, d.detected.events);
            ReplaceForTrace(d.traceID, events);
          }
          committed := FinishTransaction(found, EventsDetected, d.traceID, c.requestID, before);
          if committed {
            latest := latest[d.traceID := Batch(d.route, d.detected.events, d.detected.rejected, before.nextMarkerID)];
          }
        case Reviewing(id, event) =>
          var found := StoreReview(id, event);
          committed := FinishTransaction(found, EventReviewed, id, c.requestID, before);
      }
      calls := calls - {call};
    }

    method AbandonCall(call: nat)
      modifies this`calls
      ensures State() == ApplyStore(old(State()), Abandon(call))
    {
      calls := calls - {call};
    }
  }
}
