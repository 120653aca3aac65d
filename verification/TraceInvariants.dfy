/** Every reachable store keeps derived data in agreement with the raw samples it came from. */
module TraceInvariants {
  import opened RequestID
  import opened Denoise
  import opened Distance
  import opened Detection
  import opened TraceStore

  // ---- Reads ----

  lemma ImportAccepts(r: ImportRequest, routes: map<nat, Route>, maxPoints: nat)
    requires ImportOutcomeOf(r, routes, maxPoints).Accepted?
    ensures TraceOK(ImportOutcomeOf(r, routes, maxPoints).trace)
  {
  }

  /** Filter and noise estimate succeed exactly on enough samples and an admissible window. */
  lemma FilterSucceedsExactly(points: seq<real>, window: int)
    ensures (MovingMedianResult(points, window).Ok? && NoiseFloorResult(MovingMedianResult(points, window).value).Ok?)
       <==> |points| >= 16 && 1 <= window <= 31
  {
  }

  /** The last sample lies at least a twentieth of the way along the route. */
  predicate Covers(r: ImportRequest, route: Route) {
    var last := SampleDistance(|r.points| - 1, r.sampleIntervalNS, route.refractiveIndex);
    last.Ok? && last.value >= route.lengthM * 0.05
  }

  /** In terms of what is sent: the sampling can be converted, and the converted end lies far enough out. */
  lemma {:induction false} CoversExactly(r: ImportRequest, route: Route, end: real)
    requires r.points != [] && route.refractiveIndex > 0.0
    requires LiesAt(end, |r.points| - 1, r.sampleIntervalNS, route.refractiveIndex)
    ensures Covers(r, route)
       <==> r.sampleIntervalNS > 0.0 && 1.3 <= route.refractiveIndex <= 1.7 && end >= route.lengthM * 0.05
  {
    SampleDistanceExactly(|r.points| - 1, r.sampleIntervalNS, route.refractiveIndex);
    var last := SampleDistance(|r.points| - 1, r.sampleIntervalNS, route.refractiveIndex);
    if last.Ok? { LiesAtOnce(end, last.value, |r.points| - 1, r.sampleIntervalNS, route.refractiveIndex); }
  }

  lemma FirstBadMeaning(points: seq<real>)
    ensures FirstBad(points, |points|) < 0 <==> InSampleRange(points)
  {
    if FirstBad(points, |points|) < 0 {
      forall i | 0 <= i < |points| ensures -200.0 <= points[i] <= 100.0 { assert SampleOK(points[i]); }
    }
  }

  /** The part of the decision that follows the range check. */
  lemma ImportAcceptsRest(r: ImportRequest, routes: map<nat, Route>, maxPoints: nat)
    requires |r.points| <= maxPoints && FirstBad(r.points, |r.points|) < 0 && r.routeID in routes
    requires |r.points| >= 16 && 1 <= IntOr(r.denoiseWindow, 5) <= 31
    ensures ImportOutcomeOf(r, routes, maxPoints).Accepted? <==> Covers(r, routes[r.routeID])
  {
    FilterSucceedsExactly(r.points, IntOr(r.denoiseWindow, 5));
  }

  lemma ImportRefuses(r: ImportRequest, routes: map<nat, Route>, maxPoints: nat)
    requires |r.points| > maxPoints || FirstBad(r.points, |r.points|) >= 0 || r.routeID !in routes
             || |r.points| < 16 || !(1 <= IntOr(r.denoiseWindow, 5) <= 31)
    ensures ImportOutcomeOf(r, routes, maxPoints).Refused?
  {
    if |r.points| <= maxPoints && FirstBad(r.points, |r.points|) < 0 && r.routeID in routes {
      FilterSucceedsExactly(r.points, IntOr(r.denoiseWindow, 5));
    }
  }

  /** Exactly which imports are accepted. */
  lemma {:induction false} ImportAcceptsExactly(r: ImportRequest, routes: map<nat, Route>, maxPoints: nat)
    ensures ImportOutcomeOf(r, routes, maxPoints).Accepted?
       <==> && 16 <= |r.points| <= maxPoints && 0 <= r.denoiseWindow <= 31
            && (forall i :: 0 <= i < |r.points| ==> -200.0 <= r.points[i] <= 100.0)
            && r.routeID in routes && Covers(r, routes[r.routeID])
  {
    FirstBadMeaning(r.points);
    if |r.points| <= maxPoints && FirstBad(r.points, |r.points|) < 0 && r.routeID in routes
       && |r.points| >= 16 && 1 <= IntOr(r.denoiseWindow, 5) <= 31 {
      ImportAcceptsRest(r, routes, maxPoints);
    } else {
      ImportRefuses(r, routes, maxPoints);
    }
  }

  /** Which of the first three guards refuses an import: the first that fails, at the first bad sample. */
  lemma {:induction false} ImportRefusedFirst(r: ImportRequest, routes: map<nat, Route>, maxPoints: nat, i: nat)
    ensures ImportOutcomeOf(r, routes, maxPoints) == Refused(TooManyPoints) <==> |r.points| > maxPoints
    ensures ImportOutcomeOf(r, routes, maxPoints) == Refused(SampleOutOfRange(i))
       <==> && i < |r.points| <= maxPoints && !(-200.0 <= r.points[i] <= 100.0)
            && forall j :: 0 <= j < i ==> -200.0 <= r.points[j] <= 100.0
    ensures ImportOutcomeOf(r, routes, maxPoints) == Refused(RouteNotFound)
       <==> |r.points| <= maxPoints && InSampleRange(r.points) && r.routeID !in routes
  {
    FirstBadMeaning(r.points);
    var bad := FirstBad(r.points, |r.points|);
    if i < |r.points| { assert SampleOK(r.points[i]) <==> -200.0 <= r.points[i] <= 100.0; }
    if 0 <= bad { assert !SampleOK(r.points[bad]); }
  }

  lemma DetectionFollows(traceID: nat, t: Trace, route: Route, r: DetectRequest)
    requires DetectionOf(traceID, t, route, r).Some?
    ensures DetectionOK(DetectionOf(traceID, t, route, r).value, t)
    ensures DetectionOf(traceID, t, route, r).value.traceID == traceID
  {
  }

  /** What an accepted import stores besides the derived columns. */
  lemma ImportStores(r: ImportRequest, routes: map<nat, Route>, maxPoints: nat)
    requires ImportOutcomeOf(r, routes, maxPoints).Accepted?
    ensures ImportedAs(ImportOutcomeOf(r, routes, maxPoints).trace, r)
  {
  }

  /** A read that only adds one sound call keeps the invariant. */
  lemma {:induction false} CallAdded(s: Store, call: nat, c: Call)
    requires StoreInv(s) && JobOK(s.tables.traces, c.job)
    ensures StoreInv(s.(calls := s.calls[call := c]))
  {
  }

  lemma {:induction false} CallEnded(s: Store, call: nat)
    requires StoreInv(s)
    ensures StoreInv(EndCall(s, call))
  {
  }

  lemma ImportReadKeeps(s: Store, call: nat, requestID: string, r: ImportRequest, maxPoints: nat)
    requires StoreInv(s)
    ensures StoreInv(ApplyImportRead(s, call, requestID, r, maxPoints))
  {
    var outcome := ImportOutcomeOf(r, s.tables.routes, maxPoints);
    if call !in s.calls && outcome.Accepted? {
      ImportAccepts(r, s.tables.routes, maxPoints);
      CallAdded(s, call, Call(requestID, Importing(outcome.trace)));
    }
  }

  /** So does a call that goes on to a sound stage. */
  lemma CallGoesOn(s: Store, call: nat, job: Job)
    requires StoreInv(s) && call in s.calls && JobOK(s.tables.traces, job)
    ensures StoreInv(NextJob(s, call, job))
  {
    CallAdded(s, call, s.calls[call].(job := job));
  }

  lemma DetectReadKeeps(s: Store, call: nat, requestID: string, traceID: nat, r: DetectRequest)
    requires StoreInv(s)
    ensures StoreInv(ApplyDetectRead(s, call, requestID, traceID, r))
  {
    if call !in s.calls && traceID in s.tables.traces {
      CallAdded(s, call, Call(requestID, HasTrace(traceID, s.tables.traces[traceID], r)));
    }
  }

  /** The trace may have been detected again since it was read; what was captured has not changed. */
  lemma {:induction false} DetectionReady(traces: map<nat, Trace>, traceID: nat, t: Trace, route: Route,
      r: DetectRequest)
    requires traceID in traces && SameCapture(t, traces[traceID]) && DetectionOf(traceID, t, route, r).Some?
    ensures JobOK(traces, Detecting(DetectionOf(traceID, t, route, r).value))
  {
    DetectionFollows(traceID, t, route, r);
    DetectionSurvives(DetectionOf(traceID, t, route, r).value, t, traces[traceID]);
  }

  lemma {:induction false} DetectRouteKeeps(s: Store, call: nat)
    requires StoreInv(s)
    ensures StoreInv(ApplyDetectRoute(s, call))
  {
    if call in s.calls && s.calls[call].job.HasTrace? {
      var job := s.calls[call].job;
      JobKnown(s, call);
      if job.trace.routeID in s.tables.routes
         && DetectionOf(job.traceID, job.trace, s.tables.routes[job.trace.routeID], job.detecting).Some? {
        var route := s.tables.routes[job.trace.routeID];
        DetectionReady(s.tables.traces, job.traceID, job.trace, route, job.detecting);
        CallGoesOn(s, call, Detecting(DetectionOf(job.traceID, job.trace, route, job.detecting).value));
      } else {
        CallEnded(s, call);
      }
    }
  }

  lemma ReviewReadKeeps(s: Store, call: nat, requestID: string, id: nat, actorID: nat, r: ReviewRequest)
    requires StoreInv(s)
    ensures StoreInv(ApplyReviewRead(s, call, requestID, id, actorID, r))
  {
    if call !in s.calls && id in s.tables.markers && ValidReview(r) {
      assert MarkerOK(s.tables.markers[id]);
      CallAdded(s, call, Call(requestID, HasMarker(id, s.tables.markers[id], actorID, r)));
    }
  }

  lemma {:induction false} ReviewTraceKeeps(s: Store, call: nat)
    requires StoreInv(s)
    ensures StoreInv(ApplyReviewTrace(s, call))
  {
    if call in s.calls && s.calls[call].job.HasMarker? {
      var job := s.calls[call].job;
      assert JobOK(s.tables.traces, job);
      CallEnded(s, call);
      if job.marker.traceID in s.tables.traces {
        var routeID := s.tables.traces[job.marker.traceID].routeID;
        CallGoesOn(s, call, HasMarkerTrace(job.markerID, job.marker, routeID, job.actorID, job.reviewing));
      }
    }
  }

  lemma {:induction false} ReviewRouteKeeps(s: Store, call: nat)
    requires StoreInv(s)
    ensures StoreInv(ApplyReviewRoute(s, call))
  {
    if call in s.calls && s.calls[call].job.HasMarkerTrace? {
      var job := s.calls[call].job;
      assert JobOK(s.tables.traces, job);
      CallEnded(s, call);
      if job.routeID in s.tables.routes {
        var reviewed := ReviewedMarker(job.marker, s.tables.routes[job.routeID].lengthM, job.actorID, job.reviewing);
        if reviewed.Some? { CallGoesOn(s, call, Reviewing(job.markerID, reviewed.value)); }
      }
    }
  }

  // ---- Commits ----

  /** The columns a review leaves alone. */
  predicate SameAlgorithm(m: Marker, n: Marker) {
    && n.traceID == m.traceID
    && n.algorithmEventType == m.algorithmEventType
    && n.algorithmDistanceM == m.algorithmDistanceM
    && n.algorithmInsertionLossDB == m.algorithmInsertionLossDB
    && n.insertionLossDB == m.insertionLossDB
    && n.reflectanceDB == m.reflectanceDB
    && n.confidence == m.confidence
  }

  /** A detection call's results stay right as long as what `Import` wrote stays. */
  lemma DetectionSurvives(d: DetectionRun, t: Trace, u: Trace)
    requires DetectionOK(d, t) && SameCapture(t, u)
    ensures DetectionOK(d, u)
  {
  }

  lemma JobSurvives(before: map<nat, Trace>, after: map<nat, Trace>, job: Job)
    requires JobOK(before, job)
    requires forall id :: id in before ==> id in after && SameCapture(before[id], after[id])
    ensures JobOK(after, job)
  {
    match job
    case Detecting(d) => DetectionSurvives(d, before[d.traceID], after[d.traceID]);
    case _ =>
  }

  /** Calls in flight depend only on what `Import` wrote, which no other call changes. */
  lemma CallsSurvive(before: map<nat, Trace>, after: map<nat, Trace>, calls: map<nat, Call>)
    requires CallsOK(before, calls)
    requires forall id :: id in before ==> id in after && SameCapture(before[id], after[id])
    ensures CallsOK(after, calls)
  {
    forall c | c in calls
      ensures JobOK(after, calls[c].job)
    {
      JobSurvives(before, after, calls[c].job);
    }
  }

  lemma {:induction false} TraceAdded(traces: map<nat, Trace>, next: nat, t: Trace)
    requires TracesOK(traces, next) && TraceOK(t)
    ensures next !in traces && TracesOK(traces[next := t], next + 1)
  {
    var after := traces[next := t];
    forall id | id in after ensures id < next + 1 && TraceOK(after[id]) {
      if id != next { assert id in traces && after[id] == traces[id]; }
    }
  }

  lemma {:induction false} ReplayKnown(traces: map<nat, Trace>, latest: map<nat, Batch>, id: nat)
    requires ReplaysOK(traces, latest) && id in latest
    ensures id in traces && BatchReplays(traces[id], latest[id])
  {
  }

  lemma {:induction false} ReplaysSurviveImport(traces: map<nat, Trace>, latest: map<nat, Batch>, id: nat, t: Trace)
    requires ReplaysOK(traces, latest) && id !in traces
    ensures ReplaysOK(traces[id := t], latest)
  {
    var after := traces[id := t];
    forall k | k in latest ensures k in after && BatchReplays(after[k], latest[k]) {
      ReplayKnown(traces, latest, k);
    }
  }

  /** An import adds one trace and leaves traces, markers and batches alone. */
  lemma {:induction false} ImportCommitted(s: Store, call: nat, trace: Trace, requestID: string)
    ensures var t := CommitImport(s, call, trace, requestID);
            && t.tables.traces == s.tables.traces[s.tables.nextTraceID := trace]
            && t.tables.nextTraceID == s.tables.nextTraceID + 1
            && t.tables.markers == s.tables.markers && t.tables.nextMarkerID == s.tables.nextMarkerID
            && t.latest == s.latest && t.calls == s.calls - {call}
  {
  }

  lemma {:induction false} CallsSurviveImport(traces: map<nat, Trace>, calls: map<nat, Call>, id: nat, t: Trace)
    requires CallsOK(traces, calls) && id !in traces
    ensures CallsOK(traces[id := t], calls)
  {
    CallsSurvive(traces, traces[id := t], calls);
  }

  lemma {:induction false} ImportCommitKeeps(s: Store, call: nat, trace: Trace, requestID: string)
    requires StoreInv(s) && TraceOK(trace)
    ensures StoreInv(CommitImport(s, call, trace, requestID))
  {
    ImportCommitted(s, call, trace, requestID);
    TraceAdded(s.tables.traces, s.tables.nextTraceID, trace);
    ReplaysSurviveImport(s.tables.traces, s.latest, s.tables.nextTraceID, trace);
    CallsSurviveImport(s.tables.traces, s.calls - {call}, s.tables.nextTraceID, trace);
  }

  /** Rewriting human columns of one marker leaves every batch stored. */
  lemma ReviewKeepsBatch(markers: map<nat, Marker>, next: nat, traceID: nat, b: Batch, id: nat, m: Marker)
    requires BatchStored(markers, next, traceID, b)
    requires id in markers && SameAlgorithm(markers[id], m)
    ensures BatchStored(markers[id := m], next, traceID, b)
  {
  }

  lemma ReviewKeepsMarkers(markers: map<nat, Marker>, next: nat, latest: map<nat, Batch>, id: nat, m: Marker)
    requires MarkersOK(markers, next) && UnreviewedFresh(markers, latest)
    requires id in markers && SameAlgorithm(markers[id], m) && m.reviewed && 0.0 <= m.distanceM
    ensures MarkersOK(markers[id := m], next) && UnreviewedFresh(markers[id := m], latest)
  {
    assert MarkerOK(markers[id]);
  }

  lemma ReviewKeepsStored(markers: map<nat, Marker>, next: nat, latest: map<nat, Batch>, id: nat, m: Marker)
    requires StoredOK(markers, next, latest)
    requires id in markers && SameAlgorithm(markers[id], m)
    ensures StoredOK(markers[id := m], next, latest)
  {
    forall k | k in latest ensures BatchStored(markers[id := m], next, k, latest[k]) {
      ReviewKeepsBatch(markers, next, k, latest[k], id, m);
    }
  }

  lemma {:induction false} ReviewCommitKeeps(s: Store, call: nat, id: nat, m: Marker, requestID: string)
    requires StoreInv(s) && 0.0 <= m.distanceM
    ensures StoreInv(CommitReview(s, call, id, m, requestID))
  {
    if id in s.tables.markers {
      var stored := CommitReview(s, call, id, m, requestID).tables.markers[id];
      ReviewKeepsMarkers(s.tables.markers, s.tables.nextMarkerID, s.latest, id, stored);
      ReviewKeepsStored(s.tables.markers, s.tables.nextMarkerID, s.latest, id, stored);
    } else {
      CallEnded(s, call);
    }
  }

  lemma {:induction false} InsertedExact(markers: map<nat, Marker>, next: nat, added: seq<Marker>, id: nat)
    ensures id in Inserted(markers, next, added) <==> id in markers || next <= id < next + |added|
    ensures next <= id < next + |added| ==>
              id in Inserted(markers, next, added) && Inserted(markers, next, added)[id] == added[id - next]
    ensures !(next <= id < next + |added|) && id in markers ==>
              id in Inserted(markers, next, added) && Inserted(markers, next, added)[id] == markers[id]
    decreases |added|
  {
    if added == [] {
    } else {
      InsertedExact(markers[next := added[0]], next + 1, added[1..], id);
    }
  }

  predicate Survives(m: Marker, traceID: nat) {
    m.traceID != traceID || m.reviewed
  }

  /** The markers table after `ReplaceForTrace`, entry by entry. */
  predicate Replaced(before: map<nat, Marker>, after: map<nat, Marker>, traceID: nat, next: nat, added: seq<Marker>) {
    && (forall id :: next <= id < next + |added| ==> id in after && after[id] == added[id - next])
    && (forall id :: id in after && !(next <= id < next + |added|) ==>
          id in before && after[id] == before[id] && Survives(before[id], traceID))
    && (forall id :: id in before && Survives(before[id], traceID) ==> id in after)
  }

  lemma ReplaceExact(before: map<nat, Marker>, traceID: nat, next: nat, added: seq<Marker>)
    ensures Replaced(before, Inserted(Cleared(before, traceID), next, added), traceID, next, added)
  {
    var cleared := Cleared(before, traceID);
    var after := Inserted(cleared, next, added);
    forall id | next <= id < next + |added|
      ensures id in after && after[id] == added[id - next]
    {
      InsertedExact(cleared, next, added, id);
    }
    forall id | id in after && !(next <= id < next + |added|)
      ensures id in before && after[id] == before[id] && Survives(before[id], traceID)
    {
      InsertedExact(cleared, next, added, id);
    }
    forall id | id in before && Survives(before[id], traceID)
      ensures id in after
    {
      InsertedExact(cleared, next, added, id);
    }
  }

  /** Detected events of an admitted trace make sound, unreviewed markers. */
  lemma FreshMarkersOK(d: DetectionRun, t: Trace)
    requires InSampleRange(t.raw) && DetectionOK(d, t)
    ensures forall i :: 0 <= i < |d.detected.events| ==> MarkerOK(MarkerOf(d.traceID, d.detected.events[i]))
  {
    FilterWithin(t.raw, d.window, -200.0, 100.0);
    DetectInRange(d.filtered, SettingOf(d.threshold, d.merge, t.sampleIntervalNS, d.route));
  }

  lemma ReplaceKeepsMarkers(before: map<nat, Marker>, after: map<nat, Marker>, traceID: nat, next: nat,
      added: seq<Marker>)
    requires MarkersOK(before, next) && Replaced(before, after, traceID, next, added)
    requires forall i :: 0 <= i < |added| ==> MarkerOK(added[i])
    ensures MarkersOK(after, next + |added|)
  {
    forall id | id in after
      ensures id < next + |added| && MarkerOK(after[id])
    {
      if next <= id < next + |added| { assert MarkerOK(added[id - next]); }
    }
  }

  lemma ReplaceKeepsFresh(before: map<nat, Marker>, after: map<nat, Marker>, traceID: nat, next: nat,
      added: seq<Marker>,
      latest: map<nat, Batch>, b: Batch)
    requires MarkersOK(before, next) && Replaced(before, after, traceID, next, added)
    requires forall i :: 0 <= i < |added| ==> added[i].traceID == traceID
    requires UnreviewedFresh(before, latest) && b.firstID == next && |b.events| == |added|
    ensures UnreviewedFresh(after, latest[traceID := b])
  {
  }

  /** Re-detecting one trace leaves the batches of all others stored. */
  lemma ReplaceKeepsBatch(before: map<nat, Marker>, after: map<nat, Marker>, traceID: nat, next: nat,
      added: seq<Marker>,
      other: nat, b: Batch)
    requires Replaced(before, after, traceID, next, added) && other != traceID
    requires BatchStored(before, next, other, b)
    ensures BatchStored(after, next + |added|, other, b)
  {
  }

  lemma ReplaceStoresBatch(before: map<nat, Marker>, after: map<nat, Marker>, traceID: nat, next: nat, b: Batch)
    requires Replaced(before, after, traceID, next, MarkersOf(traceID, b.events)) && b.firstID == next
    ensures BatchStored(after, next + |b.events|, traceID, b)
  {
    forall id: nat | InBatch(b, id)
      ensures id in after && after[id].traceID == traceID && FromAlgorithm(after[id], b.events[id - b.firstID])
    {
      assert after[id] == MarkersOf(traceID, b.events)[id - next];
    }
  }

  /** The columns a detection writes agree with the raw samples and replay its report. */
  lemma ReprocessedOK(t: Trace, d: DetectionRun, b: Batch)
    requires TraceOK(t) && DetectionOK(d, t)
    requires b.route == d.route && b.events == d.detected.events && b.rejected == d.detected.rejected
    ensures TraceOK(Reprocessed(t, d)) && BatchReplays(Reprocessed(t, d), b) && SameCapture(t, Reprocessed(t, d))
  {
  }

  /** Re-detecting one trace leaves every batch stored, its own new one included. */
  lemma {:induction false} ReplaceKeepsStored(before: map<nat, Marker>, after: map<nat, Marker>, traceID: nat,
      next: nat,
      latest: map<nat, Batch>, b: Batch)
    requires StoredOK(before, next, latest) && b.firstID == next
    requires Replaced(before, after, traceID, next, MarkersOf(traceID, b.events))
    ensures StoredOK(after, next + |b.events|, latest[traceID := b])
  {
    ReplaceStoresBatch(before, after, traceID, next, b);
    forall k | k in latest && k != traceID ensures BatchStored(after, next + |b.events|, k, latest[k]) {
      ReplaceKeepsBatch(before, after, traceID, next, MarkersOf(traceID, b.events), k, latest[k]);
    }
  }

  /** The markers table after a detection, whatever was detected. */
  lemma {:induction false} DetectionCommitMarkers(before: map<nat, Marker>, next: nat, latest: map<nat, Batch>,
      traceID: nat,
      after: map<nat, Marker>, b: Batch)
    requires MarkersOK(before, next) && UnreviewedFresh(before, latest) && StoredOK(before, next, latest)
    requires b.firstID == next && after == Inserted(Cleared(before, traceID), next, MarkersOf(traceID, b.events))
    requires forall i :: 0 <= i < |b.events| ==> MarkerOK(MarkerOf(traceID, b.events[i]))
    ensures MarkersOK(after, next + |b.events|)
    ensures UnreviewedFresh(after, latest[traceID := b])
    ensures StoredOK(after, next + |b.events|, latest[traceID := b])
  {
    var added := MarkersOf(traceID, b.events);
    ReplaceExact(before, traceID, next, added);
    ReplaceKeepsMarkers(before, after, traceID, next, added);
    ReplaceKeepsFresh(before, after, traceID, next, added, latest, b);
    ReplaceKeepsStored(before, after, traceID, next, latest, b);
  }

  lemma {:induction false} TracesReplaced(traces: map<nat, Trace>, next: nat, id: nat, t: Trace)
    requires TracesOK(traces, next) && id < next && TraceOK(t)
    ensures TracesOK(traces[id := t], next)
  {
    var after := traces[id := t];
    forall k | k in after ensures k < next && TraceOK(after[k]) {
      if k != id { TraceKnown(traces, next, k); }
    }
  }

  lemma {:induction false} ReplaysReplaced(traces: map<nat, Trace>, latest: map<nat, Batch>, id: nat, t: Trace,
      b: Batch)
    requires ReplaysOK(traces, latest) && BatchReplays(t, b)
    ensures ReplaysOK(traces[id := t], latest[id := b])
  {
    var after, batches := traces[id := t], latest[id := b];
    forall k | k in batches ensures k in after && BatchReplays(after[k], batches[k]) {
      if k != id { ReplayKnown(traces, latest, k); }
    }
  }

  lemma {:induction false} CallsRewritten(traces: map<nat, Trace>, calls: map<nat, Call>, id: nat, t: Trace)
    requires CallsOK(traces, calls) && id in traces && SameCapture(traces[id], t)
    ensures CallsOK(traces[id := t], calls)
  {
    var after := traces[id := t];
    forall k | k in traces ensures k in after && SameCapture(traces[k], after[k]) {}
    CallsSurvive(traces, after, calls);
  }

  /** The traces table and the calls in flight after a detection. */
  lemma {:induction false} DetectionCommitTraces(traces: map<nat, Trace>, next: nat, calls: map<nat, Call>,
      latest: map<nat, Batch>, d: DetectionRun, trace: Trace, b: Batch)
    requires TracesOK(traces, next) && CallsOK(traces, calls) && ReplaysOK(traces, latest)
    requires d.traceID in traces && DetectionOK(d, traces[d.traceID]) && trace == Reprocessed(traces[d.traceID], d)
    requires b.route == d.route && b.events == d.detected.events && b.rejected == d.detected.rejected
    ensures TracesOK(traces[d.traceID := trace], next) && CallsOK(traces[d.traceID := trace], calls)
    ensures ReplaysOK(traces[d.traceID := trace], latest[d.traceID := b])
    ensures forall i :: 0 <= i < |b.events| ==> MarkerOK(MarkerOf(d.traceID, b.events[i]))
  {
    TraceKnown(traces, next, d.traceID);
    FreshMarkersOK(d, traces[d.traceID]);
    ReprocessedOK(traces[d.traceID], d, b);
    TracesReplaced(traces, next, d.traceID, trace);
    CallsRewritten(traces, calls, d.traceID, trace);
    ReplaysReplaced(traces, latest, d.traceID, trace, b);
  }

  /** What a detection commits: one trace rewritten, its markers replaced, its batch the latest. */
  lemma {:induction false} DetectionCommitted(s: Store, call: nat, d: DetectionRun, requestID: string)
    requires d.traceID in s.tables.traces
    ensures var t := CommitDetection(s, call, d, requestID);
            var b := Batch(d.route, d.detected.events, d.detected.rejected, s.tables.nextMarkerID);
            && t.tables.traces == s.tables.traces[d.traceID := Reprocessed(s.tables.traces[d.traceID], d)]
            && t.tables.nextTraceID == s.tables.nextTraceID
            && t.tables.markers
                 == Inserted(Cleared(s.tables.markers, d.traceID), b.firstID, MarkersOf(d.traceID, b.events))
            && t.tables.nextMarkerID == b.firstID + |b.events|
            && t.latest == s.latest[d.traceID := b]
            && t.calls == s.calls - {call}
  {
  }

  lemma {:induction false} DetectionKeepsTraces(s: Store, t: Store, call: nat, d: DetectionRun, b: Batch)
    requires TracesOK(s.tables.traces, s.tables.nextTraceID) && CallsOK(s.tables.traces, s.calls)
    requires ReplaysOK(s.tables.traces, s.latest)
    requires d.traceID in s.tables.traces && DetectionOK(d, s.tables.traces[d.traceID])
    requires b == Batch(d.route, d.detected.events, d.detected.rejected, s.tables.nextMarkerID)
    requires t.tables.traces == s.tables.traces[d.traceID := Reprocessed(s.tables.traces[d.traceID], d)]
    requires t.tables.nextTraceID == s.tables.nextTraceID
    requires t.latest == s.latest[d.traceID := b] && t.calls == s.calls - {call}
    ensures TracesOK(t.tables.traces, t.tables.nextTraceID) && CallsOK(t.tables.traces, t.calls)
    ensures ReplaysOK(t.tables.traces, t.latest)
    ensures forall i :: 0 <= i < |b.events| ==> MarkerOK(MarkerOf(d.traceID, b.events[i]))
  {
    DetectionCommitTraces(s.tables.traces, s.tables.nextTraceID, t.calls, s.latest, d, t.tables.traces[d.traceID], b);
  }

  lemma {:induction false} DetectionCommitKeeps(s: Store, call: nat, d: DetectionRun, requestID: string)
    requires StoreInv(s) && d.traceID in s.tables.traces && DetectionOK(d, s.tables.traces[d.traceID])
    ensures StoreInv(CommitDetection(s, call, d, requestID))
  {
    var t := CommitDetection(s, call, d, requestID);
    var b := Batch(d.route, d.detected.events, d.detected.rejected, s.tables.nextMarkerID);
    DetectionCommitted(s, call, d, requestID);
    DetectionKeepsTraces(s, t, call, d, b);
    DetectionCommitMarkers(s.tables.markers, s.tables.nextMarkerID, s.latest, d.traceID, t.tables.markers, b);
  }

  lemma {:induction false} TraceKnown(traces: map<nat, Trace>, next: nat, id: nat)
    requires TracesOK(traces, next) && id in traces
    ensures id < next && TraceOK(traces[id]) && InSampleRange(traces[id].raw)
  {
  }

  lemma {:induction false} StepKeepsStore(s: Store, e: StoreEvent)
    requires StoreInv(s)
    ensures StoreInv(ApplyStore(s, e))
  {
    match e
    case PutRoute(id, route) =>
    case ImportRead(call, requestID, r, maxPoints) => ImportReadKeeps(s, call, requestID, r, maxPoints);
    case DetectRead(call, requestID, traceID, r) => DetectReadKeeps(s, call, requestID, traceID, r);
    case DetectRoute(call) => DetectRouteKeeps(s, call);
    case ReviewRead(call, requestID, id, actorID, r) => ReviewReadKeeps(s, call, requestID, id, actorID, r);
    case ReviewTrace(call) => ReviewTraceKeeps(s, call);
    case ReviewRoute(call) => ReviewRouteKeeps(s, call);
    case Commit(call) => CommitKeepsStore(s, call);
    case Abandon(call) => CallEnded(s, call);
  }

  lemma {:induction false} CommitJobKeeps(s: Store, call: nat, job: Job, requestID: string)
    requires StoreInv(s) && Ready(job) && JobOK(s.tables.traces, job)
    ensures StoreInv(CommitJob(s, call, job, requestID))
  {
    match job
    case Importing(trace) => ImportCommitKeeps(s, call, trace, requestID);
    case Detecting(d) => DetectionCommitKeeps(s, call, d, requestID);
    case Reviewing(id, m) => ReviewCommitKeeps(s, call, id, m, requestID);
  }

  lemma {:induction false} JobKnown(s: Store, call: nat)
    requires StoreInv(s) && call in s.calls
    ensures JobOK(s.tables.traces, s.calls[call].job)
  {
  }

  lemma {:induction false} CommitKeepsStore(s: Store, call: nat)
    requires StoreInv(s)
    ensures StoreInv(ApplyCommit(s, call))
  {
    if call in s.calls && Ready(s.calls[call].job) {
      if Blank(s.calls[call].requestID) {
        CallEnded(s, call);
      } else {
        JobKnown(s, call);
        CommitJobKeeps(s, call, s.calls[call].job, s.calls[call].requestID);
      }
    }
  }

  lemma {:induction false} RunKeepsStore(s: Store, es: seq<StoreEvent>)
    requires StoreInv(s)
    ensures StoreInv(RunStore(s, es))
    decreases |es|
  {
    if es == [] {
    } else {
      StepKeepsStore(s, es[0]);
      RunKeepsStore(ApplyStore(s, es[0]), es[1..]);
    }
  }

  // ---- What this means ----

  /**
   In every reachable store, however imports, re-detections and reviews interleave: processed samples
   are the filtered raw samples under the stored window, the noise floor is that of the processed
   samples, and every sample is admissible.
   */
  lemma DerivedDataAgrees(es: seq<StoreEvent>, id: nat)
    requires id in RunStore(EmptyStore(), es).tables.traces
    ensures var t := RunStore(EmptyStore(), es).tables.traces[id];
            && t.denoiseWindow >= 1 && t.processed == Filtered(t.raw, t.denoiseWindow)
            && |t.processed| >= 16 && t.noiseFloorDB == Median(Tail(t.processed))
            && InSampleRange(t.raw) && InSampleRange(t.processed) && -200.0 <= t.noiseFloorDB <= 100.0
  {
    RunKeepsStore(EmptyStore(), es);
    var s := RunStore(EmptyStore(), es);
    assert TraceOK(s.tables.traces[id]);
    var t := s.tables.traces[id];
    FilterWithin(t.raw, t.denoiseWindow, -200.0, 100.0);
    NoiseFloorWithin(t.processed, -200.0, 100.0);
  }

  /**
   Re-running detection on what is stored, with the route the latest detection read, gives event by
   event the algorithm columns of the markers that detection inserted, reviewed since or not; and every
   unreviewed marker of the trace is one of them, still showing the algorithm's values.
   */
  lemma LatestDetectionReplays(es: seq<StoreEvent>, id: nat)
    requires id in RunStore(EmptyStore(), es).latest
    ensures var s := RunStore(EmptyStore(), es);
            && id in s.tables.traces
            && BatchReplays(s.tables.traces[id], s.latest[id])
            && BatchStored(s.tables.markers, s.tables.nextMarkerID, id, s.latest[id])
            && forall m :: m in s.tables.markers && s.tables.markers[m].traceID == id
                           && !s.tables.markers[m].reviewed ==>
                 && InBatch(s.latest[id], m)
                 && s.tables.markers[m].distanceM == s.tables.markers[m].algorithmDistanceM
                 && s.tables.markers[m].eventType == s.tables.markers[m].algorithmEventType
  {
    RunKeepsStore(EmptyStore(), es);
    var s := RunStore(EmptyStore(), es);
    forall m | m in s.tables.markers && s.tables.markers[m].traceID == id && !s.tables.markers[m].reviewed
      ensures InBatch(s.latest[id], m) && MarkerOK(s.tables.markers[m])
    {
    }
  }

  /** A trace that was never detected has no markers at all. */
  lemma UndetectedHasNone(es: seq<StoreEvent>, m: nat)
    requires m in RunStore(EmptyStore(), es).tables.markers
    ensures RunStore(EmptyStore(), es).tables.markers[m].traceID in RunStore(EmptyStore(), es).latest
  {
    RunKeepsStore(EmptyStore(), es);
  }

  /** Every stored marker is in range. */
  lemma StoredMarkersInRange(es: seq<StoreEvent>, m: nat)
    requires m in RunStore(EmptyStore(), es).tables.markers
    ensures var k := RunStore(EmptyStore(), es).tables.markers[m];
            EventInRange(k.insertionLossDB, k.reflectanceDB, k.confidence) && 0.0 <= k.distanceM
  {
    RunKeepsStore(EmptyStore(), es);
    var s := RunStore(EmptyStore(), es);
    assert MarkerOK(s.tables.markers[m]);
  }

  // ---- What never changes ----

  lemma {:induction false} RawCommit(s: Store, call: nat, job: Job, requestID: string, id: nat)
    requires Ready(job) && id in s.tables.traces && id < s.tables.nextTraceID
    ensures var t := CommitJob(s, call, job, requestID).tables;
            id in t.traces && id < t.nextTraceID && SameCapture(s.tables.traces[id], t.traces[id])
  {
  }

  lemma {:induction false} RawStep(s: Store, e: StoreEvent, id: nat)
    requires id in s.tables.traces && id < s.tables.nextTraceID
    ensures var t := ApplyStore(s, e).tables;
            id in t.traces && id < t.nextTraceID && SameCapture(s.tables.traces[id], t.traces[id])
  {
    if e.Commit? {
      if e.call in s.calls && Ready(s.calls[e.call].job) {
        RawCommit(s, e.call, s.calls[e.call].job, s.calls[e.call].requestID, id);
      }
    } else {
      ReadsKeepRows(s, e);
    }
  }

  /** Only commits change traces and markers. */
  lemma {:induction false} ReadsKeepRows(s: Store, e: StoreEvent)
    requires !e.Commit?
    ensures var t := ApplyStore(s, e).tables;
            && t.traces == s.tables.traces && t.nextTraceID == s.tables.nextTraceID
            && t.markers == s.tables.markers && t.nextMarkerID == s.tables.nextMarkerID
  {
  }

  /** Raw samples are immutable. */
  lemma {:induction false} RawImmutable(s: Store, es: seq<StoreEvent>, id: nat)
    requires id in s.tables.traces && id < s.tables.nextTraceID
    ensures var t := RunStore(s, es).tables;
            id in t.traces && id < t.nextTraceID && SameCapture(s.tables.traces[id], t.traces[id])
    decreases |es|
  {
    if es == [] {
    } else {
      RawStep(s, es[0], id);
      RawImmutable(ApplyStore(s, es[0]), es[1..], id);
    }
  }

  predicate StillReviewed(before: Tables, after: Tables, id: nat)
    requires id in before.markers
  {
    && id in after.markers && id < after.nextMarkerID
    && after.markers[id].reviewed && SameAlgorithm(before.markers[id], after.markers[id])
  }

  lemma {:induction false} ReviewedDetection(s: Store, call: nat, d: DetectionRun, requestID: string, id: nat)
    requires id in s.tables.markers && id < s.tables.nextMarkerID && s.tables.markers[id].reviewed
    ensures StillReviewed(s.tables, CommitDetection(s, call, d, requestID).tables, id)
  {
    InsertedExact(Cleared(s.tables.markers, d.traceID), s.tables.nextMarkerID,
                  MarkersOf(d.traceID, d.detected.events), id);
  }

  lemma {:induction false} ReviewedCommit(s: Store, call: nat, job: Job, requestID: string, id: nat)
    requires Ready(job) && id in s.tables.markers && id < s.tables.nextMarkerID && s.tables.markers[id].reviewed
    ensures StillReviewed(s.tables, CommitJob(s, call, job, requestID).tables, id)
  {
    if job.Detecting? { ReviewedDetection(s, call, job.detection, requestID, id); }
  }

  lemma {:induction false} ReviewedStep(s: Store, e: StoreEvent, id: nat)
    requires id in s.tables.markers && id < s.tables.nextMarkerID && s.tables.markers[id].reviewed
    ensures StillReviewed(s.tables, ApplyStore(s, e).tables, id)
  {
    if e.Commit? {
      if e.call in s.calls && Ready(s.calls[e.call].job) {
        ReviewedCommit(s, e.call, s.calls[e.call].job, s.calls[e.call].requestID, id);
      }
    } else {
      ReadsKeepRows(s, e);
    }
  }

  /** A reviewed marker survives every re-detection, and keeps what the algorithm first said. */
  lemma {:induction false} ReviewedForever(s: Store, es: seq<StoreEvent>, id: nat)
    requires id in s.tables.markers && id < s.tables.nextMarkerID && s.tables.markers[id].reviewed
    ensures StillReviewed(s.tables, RunStore(s, es).tables, id)
    decreases |es|
  {
    if es == [] {
    } else {
      ReviewedStep(s, es[0], id);
      ReviewedForever(ApplyStore(s, es[0]), es[1..], id);
    }
  }
}
