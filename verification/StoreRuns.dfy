/** Runs of the store: calls that are not disturbed, and what a review does to a distance it does not name. */
module StoreRuns {
  import opened Wrappers
  import opened RequestID
  import opened TraceStore

  // ---- Runs in pieces ----

  lemma {:induction false} RunStoreConcat(s: Store, a: seq<StoreEvent>, b: seq<StoreEvent>)
    ensures RunStore(s, a + b) == RunStore(RunStore(s, a), b)
    decreases |a|
  {
    if a == [] {
      assert a + b == b;
    } else {
      assert (a + b)[0] == a[0] && (a + b)[1..] == a[1..] + b;
      RunStoreConcat(ApplyStore(s, a[0]), a[1..], b);
    }
  }

  lemma {:induction false} RunStoreCons(s: Store, e: StoreEvent, es: seq<StoreEvent>)
    ensures RunStore(s, [e] + es) == RunStore(ApplyStore(s, e), es)
  {
    assert ([e] + es)[0] == e && ([e] + es)[1..] == es;
  }

  lemma {:induction false} RunStoreOne(s: Store, e: StoreEvent)
    ensures RunStore(s, [e]) == ApplyStore(s, e)
  {
    RunStoreCons(s, e, []);
    assert [e] + [] == [e];
  }

  lemma {:induction false} RunStoreThree(s: Store, e: StoreEvent, f: StoreEvent, g: StoreEvent, t: Store, u: Store)
    requires t == ApplyStore(s, e) && u == ApplyStore(t, f)
    ensures RunStore(s, [e] + ([f] + [g])) == ApplyStore(u, g)
  {
    RunStoreCons(s, e, [f] + [g]);
    RunStoreCons(t, f, [g]);
    RunStoreOne(u, g);
  }

  // ---- Calls that are not disturbed ----

  function ImportCall(call: nat, requestID: string, r: ImportRequest, maxPoints: nat): seq<StoreEvent> {
    [ImportRead(call, requestID, r, maxPoints)] + [Commit(call)]
  }

  function DetectCall(call: nat, requestID: string, traceID: nat, r: DetectRequest): seq<StoreEvent> {
    [DetectRead(call, requestID, traceID, r)] + ([DetectRoute(call)] + [Commit(call)])
  }

  function ReviewCall(call: nat, requestID: string, id: nat, actorID: nat, r: ReviewRequest): seq<StoreEvent> {
    [ReviewRead(call, requestID, id, actorID, r)] + ([ReviewTrace(call)] + ([ReviewRoute(call)] + [Commit(call)]))
  }

  lemma {:induction false} ImportReadRuns(s: Store, call: nat, requestID: string, r: ImportRequest, maxPoints: nat,
      trace: Trace)
    requires call !in s.calls && ImportOutcomeOf(r, s.tables.routes, maxPoints) == ImportOutcome.Accepted(trace)
    ensures ApplyStore(s, ImportRead(call, requestID, r, maxPoints)) == AddCall(s, call, requestID, Importing(trace))
  {
  }

  lemma {:induction false} ImportCommits(s: Store, t: Store, call: nat, requestID: string, trace: Trace)
    requires call !in s.calls && !Blank(requestID)
    requires t == s.(calls := s.calls[call := Call(requestID, Importing(trace))])
    ensures ApplyStore(t, Commit(call)) == CommitImport(s, call, trace, requestID)
  {
    assert t.calls - {call} == s.calls == s.calls - {call};
  }

  lemma {:induction false} RunStoreTwo(s: Store, e: StoreEvent, f: StoreEvent, t: Store)
    requires t == ApplyStore(s, e)
    ensures RunStore(s, [e] + [f]) == ApplyStore(t, f)
  {
    RunStoreCons(s, e, [f]);
    RunStoreOne(t, f);
  }

  /** An undisturbed import stores what it decided on. */
  lemma {:induction false} ImportCallRuns(s: Store, call: nat, requestID: string, r: ImportRequest, maxPoints: nat,
      trace: Trace)
    requires call !in s.calls && !Blank(requestID)
    requires ImportOutcomeOf(r, s.tables.routes, maxPoints) == ImportOutcome.Accepted(trace)
    ensures RunStore(s, ImportCall(call, requestID, r, maxPoints)) == CommitImport(s, call, trace, requestID)
  {
    var t := AddCall(s, call, requestID, Importing(trace));
    ImportReadRuns(s, call, requestID, r, maxPoints, trace);
    RunStoreTwo(s, ImportRead(call, requestID, r, maxPoints), Commit(call), t);
    ImportCommits(s, t, call, requestID, trace);
  }

  /** What a detection computes from the trace and route that the tables hold now. */
  function DetectionNow(t: Tables, traceID: nat, r: DetectRequest): Option<DetectionRun>
    requires traceID in t.traces && t.traces[traceID].routeID in t.routes
  {
    DetectionOf(traceID, t.traces[traceID], t.routes[t.traces[traceID].routeID], r)
  }

  lemma {:induction false} DetectReadRuns(s: Store, call: nat, requestID: string, traceID: nat, r: DetectRequest)
    requires call !in s.calls && traceID in s.tables.traces
    ensures ApplyStore(s, DetectRead(call, requestID, traceID, r))
         == AddCall(s, call, requestID, HasTrace(traceID, s.tables.traces[traceID], r))
  {
  }

  lemma {:induction false} DetectRouteRuns(s: Store, call: nat, requestID: string, traceID: nat, t: Trace,
      r: DetectRequest)
    requires call in s.calls && s.calls[call] == Call(requestID, HasTrace(traceID, t, r))
    requires t.routeID in s.tables.routes
    ensures ApplyStore(s, DetectRoute(call))
         == WithDetection(s, call, DetectionOf(traceID, t, s.tables.routes[t.routeID], r))
  {
  }

  /** An undisturbed detection commits what it computed from the trace and route of the moment. */
  lemma {:induction false} DetectCallRuns(s: Store, call: nat, requestID: string, traceID: nat, r: DetectRequest,
      d: DetectionRun)
    requires call !in s.calls && !Blank(requestID) && traceID in s.tables.traces
    requires s.tables.traces[traceID].routeID in s.tables.routes && DetectionNow(s.tables, traceID, r) == Some(d)
    ensures RunStore(s, DetectCall(call, requestID, traceID, r)) == CommitDetection(s, call, d, requestID)
  {
    var s1 := AddCall(s, call, requestID, HasTrace(traceID, s.tables.traces[traceID], r));
    DetectRouteRuns(s1, call, requestID, traceID, s.tables.traces[traceID], r);
    DetectCallWith(s, call, requestID, traceID, r, s1, DetectionNow(s.tables, traceID, r), d);
  }

  lemma {:induction false} DetectCallWith(s: Store, call: nat, requestID: string, traceID: nat, r: DetectRequest,
      s1: Store,
      o: Option<DetectionRun>, d: DetectionRun)
    requires call !in s.calls && !Blank(requestID) && traceID in s.tables.traces && o == Some(d)
    requires s1 == AddCall(s, call, requestID, HasTrace(traceID, s.tables.traces[traceID], r))
    requires ApplyStore(s1, DetectRoute(call)) == WithDetection(s1, call, o)
    ensures RunStore(s, DetectCall(call, requestID, traceID, r)) == CommitDetection(s, call, d, requestID)
  {
    DetectReadRuns(s, call, requestID, traceID, r);
    DetectionGoesOn(s1, call, requestID, o, d);
    DetectionChain(s, call, requestID, DetectRead(call, requestID, traceID, r), s1, NextJob(s1, call, Detecting(d)), d);
  }

  lemma {:induction false} DetectionChain(s: Store, call: nat, requestID: string, read: StoreEvent, s1: Store,
      s2: Store,
      d: DetectionRun)
    requires call !in s.calls && !Blank(requestID)
    requires s1 == ApplyStore(s, read) && s2 == ApplyStore(s1, DetectRoute(call))
    requires s2 == s.(calls := s.calls[call := Call(requestID, Detecting(d))])
    ensures RunStore(s, [read] + ([DetectRoute(call)] + [Commit(call)])) == CommitDetection(s, call, d, requestID)
  {
    RunStoreThree(s, read, DetectRoute(call), Commit(call), s1, s2);
    DetectionCommits(s, s2, call, requestID, d);
  }

  lemma {:induction false} DetectionGoesOn(s: Store, call: nat, requestID: string, o: Option<DetectionRun>,
      d: DetectionRun)
    requires call in s.calls && o == Some(d)
    ensures WithDetection(s, call, o) == NextJob(s, call, Detecting(d))
  {
  }

  /** Only the tables of the moment matter to a commit. */
  lemma {:induction false} DetectionCommits(s: Store, t: Store, call: nat, requestID: string, d: DetectionRun)
    requires call !in s.calls && !Blank(requestID)
    requires t == s.(calls := s.calls[call := Call(requestID, Detecting(d))])
    ensures ApplyStore(t, Commit(call)) == CommitDetection(s, call, d, requestID)
  {
    assert t.calls - {call} == s.calls == s.calls - {call};
  }

  /** An undisturbed review commits the marker it wants to store. */
  lemma {:induction false} ReviewCallRuns(s: Store, call: nat, requestID: string, id: nat, actorID: nat,
      r: ReviewRequest, m: Marker)
    requires call !in s.calls && !Blank(requestID) && ValidReview(r)
    requires Reviewable(s.tables, id)
    requires ReviewedMarker(s.tables.markers[id], RouteLengthOf(s.tables, id), actorID, r) == Some(m)
    ensures RunStore(s, ReviewCall(call, requestID, id, actorID, r)) == CommitReview(s, call, id, m, requestID)
  {
    ReviewReadsRun(s, call, requestID, id, actorID, r, m);
    var reading := [ReviewRead(call, requestID, id, actorID, r)] + ([ReviewTrace(call)] + [ReviewRoute(call)]);
    assert ReviewCall(call, requestID, id, actorID, r) == reading + [Commit(call)];
    RunStoreConcat(s, reading, [Commit(call)]);
    var t := RunStore(s, reading);
    RunStoreOne(t, Commit(call));
    assert t.calls - {call} == s.calls - {call};
  }

  /** Marker, trace and route of a review are all there. */
  predicate Reviewable(t: Tables, id: nat) {
    id in t.markers && t.markers[id].traceID in t.traces && t.traces[t.markers[id].traceID].routeID in t.routes
  }

  function RouteLengthOf(t: Tables, id: nat): real
    requires Reviewable(t, id)
  {
    t.routes[t.traces[t.markers[id].traceID].routeID].lengthM
  }

  lemma {:induction false} ReviewReadsRun(s: Store, call: nat, requestID: string, id: nat, actorID: nat,
      r: ReviewRequest, m: Marker)
    requires call !in s.calls && ValidReview(r)
    requires Reviewable(s.tables, id)
    requires ReviewedMarker(s.tables.markers[id], RouteLengthOf(s.tables, id), actorID, r) == Some(m)
    ensures RunStore(s, [ReviewRead(call, requestID, id, actorID, r)] + ([ReviewTrace(call)] + [ReviewRoute(call)]))
         == AddCall(s, call, requestID, Reviewing(id, m))
  {
    var read := ReviewRead(call, requestID, id, actorID, r);
    var s1 := ApplyStore(s, read);
    RunStoreCons(s, read, [ReviewTrace(call)] + [ReviewRoute(call)]);
    RunStoreCons(s1, ReviewTrace(call), [ReviewRoute(call)]);
    var s2 := ApplyStore(s1, ReviewTrace(call));
    RunStoreOne(s2, ReviewRoute(call));
    var s3 := ApplyStore(s2, ReviewRoute(call));
    assert s2.calls[call].job == HasMarkerTrace(id, s.tables.markers[id],
                                                s.tables.traces[s.tables.markers[id].traceID].routeID, actorID, r);
    assert s3.calls == s.calls[call := Call(requestID, Reviewing(id, m))];
  }

  // ---- What a review writes, whatever happens meanwhile ----

  /** The distance a review asks for: the one it names, or else the one it read. */
  function AskedDistance(m: Marker, r: ReviewRequest): real {
    if r.distanceM.Some? then r.distanceM.value else m.distanceM
  }

  /** Call `call` is reviewing marker `id`, which it read as `m`, on behalf of `actorID`. */
  predicate ReviewingFor(s: Store, call: nat, requestID: string, id: nat, m: Marker, actorID: nat, r: ReviewRequest) {
    && call in s.calls && s.calls[call].requestID == requestID
    && match s.calls[call].job
       case HasMarker(k, n, a, q) => k == id && n == m && a == actorID && q == r
       case HasMarkerTrace(k, n, _, a, q) => k == id && n == m && a == actorID && q == r
       case Reviewing(k, n) =>
         && k == id && n.eventType == r.eventType && n.distanceM == AskedDistance(m, r)
         && n.reviewNote == r.reviewNote && n.reviewedBy == Some(actorID)
       case _ => false
  }

  /** The call stays in flight throughout. */
  predicate InFlight(s: Store, es: seq<StoreEvent>, call: nat)
    decreases |es|
  {
    call in s.calls && (es != [] ==> InFlight(ApplyStore(s, es[0]), es[1..], call))
  }

  lemma {:induction false} ReviewingStep(s: Store, e: StoreEvent, call: nat, requestID: string, id: nat, m: Marker,
      actorID: nat, r: ReviewRequest)
    requires ReviewingFor(s, call, requestID, id, m, actorID, r) && call in ApplyStore(s, e).calls
    ensures ReviewingFor(ApplyStore(s, e), call, requestID, id, m, actorID, r)
  {
    if e == ReviewTrace(call) {
      ReviewTraceStep(s, call);
    } else if e == ReviewRoute(call) {
      ReviewRouteStep(s, call);
    } else {
      ReviewStays(s, e, call);
    }
  }

  /** A review in flight. */
  predicate IsReview(job: Job) {
    job.HasMarker? || job.HasMarkerTrace? || job.Reviewing?
  }

  /** Only its own two reads move a review on. */
  lemma {:induction false} ReviewStays(s: Store, e: StoreEvent, call: nat)
    requires call in s.calls && IsReview(s.calls[call].job)
    requires e != ReviewTrace(call) && e != ReviewRoute(call) && call in ApplyStore(s, e).calls
    ensures ApplyStore(s, e).calls[call] == s.calls[call]
  {
  }

  lemma {:induction false} ReviewTraceStep(s: Store, call: nat)
    requires call in s.calls && call in ApplyStore(s, ReviewTrace(call)).calls && IsReview(s.calls[call].job)
    ensures var before, after := s.calls[call], ApplyStore(s, ReviewTrace(call)).calls[call];
            after.requestID == before.requestID
            && match before.job
               case HasMarker(k, m, a, r) =>
                 after.job.HasMarkerTrace? && after.job == HasMarkerTrace(k, m, after.job.routeID, a, r)
               case _ => after == before
  {
  }

  lemma {:induction false} ReviewRouteStep(s: Store, call: nat)
    requires call in s.calls && call in ApplyStore(s, ReviewRoute(call)).calls && IsReview(s.calls[call].job)
    ensures var before, after := s.calls[call], ApplyStore(s, ReviewRoute(call)).calls[call];
            after.requestID == before.requestID
            && match before.job
               case HasMarkerTrace(k, m, _, a, r) =>
                 && after.job.Reviewing? && after.job.markerID == k
                 && after.job.marker.eventType == r.eventType && after.job.marker.distanceM == AskedDistance(m, r)
                 && after.job.marker.reviewNote == r.reviewNote && after.job.marker.reviewedBy == Some(a)
               case _ => after == before
  {
  }

  lemma {:induction false} ReviewingStays(s: Store, es: seq<StoreEvent>, call: nat, requestID: string, id: nat,
      m: Marker, actorID: nat, r: ReviewRequest)
    requires ReviewingFor(s, call, requestID, id, m, actorID, r) && InFlight(s, es, call)
    ensures ReviewingFor(RunStore(s, es), call, requestID, id, m, actorID, r)
    decreases |es|
  {
    if es == [] {
    } else {
      ReviewingStep(s, es[0], call, requestID, id, m, actorID, r);
      ReviewingStays(ApplyStore(s, es[0]), es[1..], call, requestID, id, m, actorID, r);
    }
  }

  /**
   A review goes on past its last read exactly if the distance it asks for is no more than the length of the
   route it read.
   */
  lemma {:induction false} ReviewRefusedExactly(s: Store, call: nat, id: nat, m: Marker, routeID: nat, actorID: nat,
      r: ReviewRequest)
    requires call in s.calls && s.calls[call].job == HasMarkerTrace(id, m, routeID, actorID, r)
    requires routeID in s.tables.routes
    ensures call in ApplyStore(s, ReviewRoute(call)).calls <==> AskedDistance(m, r) <= s.tables.routes[routeID].lengthM
    ensures ApplyStore(s, ReviewRoute(call)).tables == s.tables
  {
  }

  /** The marker with what a review of it asks for, and everything else as it is. */
  function ReviewWritten(stored: Marker, read: Marker, actorID: nat, r: ReviewRequest): Marker {
    stored.(eventType := r.eventType, distanceM := if r.distanceM.Some? then r.distanceM.value else read.distanceM,
            reviewed := true, reviewNote := r.reviewNote, reviewedBy := Some(actorID))
  }

  /**
   What a review commits, whatever has been committed since it began: event type, note and reviewer as requested
   and the distance that was named or else read, in the marker as it is stored by then.  Nothing else changes
   but for one entry in the log.
   */
  lemma {:induction false} ReviewWrites(s: Store, call: nat, requestID: string, id: nat, actorID: nat,
      r: ReviewRequest, es: seq<StoreEvent>)
    requires call !in s.calls && id in s.tables.markers && ValidReview(r) && !Blank(requestID)
    requires InFlight(ApplyStore(s, ReviewRead(call, requestID, id, actorID, r)), es, call)
    requires var t := RunStore(ApplyStore(s, ReviewRead(call, requestID, id, actorID, r)), es);
             call in t.calls && Ready(t.calls[call].job) && id in t.tables.markers
    ensures var t := RunStore(ApplyStore(s, ReviewRead(call, requestID, id, actorID, r)), es);
            ApplyStore(t, Commit(call)).tables
              == t.tables.(markers := t.tables.markers[
                             id := ReviewWritten(t.tables.markers[id], s.tables.markers[id], actorID, r)],
                           audits := t.tables.audits + [TraceAudit(EventReviewed, id, requestID)])
  {
    var read := ApplyStore(s, ReviewRead(call, requestID, id, actorID, r));
    ReviewingStays(read, es, call, requestID, id, s.tables.markers[id], actorID, r);
  }

  /**
   So a review that names no distance stores the distance it read: it leaves the stored distance alone exactly
   if that is still the distance it read.
   */
  lemma {:induction false} UnnamedDistanceExactly(s: Store, call: nat, requestID: string, id: nat, actorID: nat,
      r: ReviewRequest, es: seq<StoreEvent>)
    requires call !in s.calls && id in s.tables.markers && r.distanceM.None? && !Blank(requestID)
    requires InFlight(ApplyStore(s, ReviewRead(call, requestID, id, actorID, r)), es, call)
    requires var t := RunStore(ApplyStore(s, ReviewRead(call, requestID, id, actorID, r)), es);
             call in t.calls && Ready(t.calls[call].job) && id in t.tables.markers
    ensures var t := RunStore(ApplyStore(s, ReviewRead(call, requestID, id, actorID, r)), es);
            var after := ApplyStore(t, Commit(call)).tables.markers;
            && id in after && after[id].reviewed
            && after[id].distanceM == s.tables.markers[id].distanceM
            && (after[id].distanceM == t.tables.markers[id].distanceM
                <==> t.tables.markers[id].distanceM == s.tables.markers[id].distanceM)
  {
    ReviewWrites(s, call, requestID, id, actorID, r, es);
  }

  /** The reads of one review, then a whole other review, then the commit of the first. */
  function OvertakenReview(call: nat, other: nat, requestID: string, id: nat, actorID: nat, kept: ReviewRequest,
      revised: ReviewRequest): seq<StoreEvent> {
    [ReviewRead(call, requestID, id, actorID, kept)] + ([ReviewTrace(call)] + [ReviewRoute(call)])
    + (ReviewCall(other, requestID, id, actorID, revised) + [Commit(call)])
  }

  /**
   So a revision can be lost: for every marker and every admissible new distance there is a run in which a
   review commits that distance and a later commit, of a review that named none, undoes it.
   */
  lemma {:induction false} RevisionLost(s: Store, call: nat, other: nat, requestID: string, id: nat, actorID: nat,
      kept: ReviewRequest, revised: ReviewRequest)
    requires call !in s.calls && other !in s.calls && call != other && !Blank(requestID) && Reviewable(s.tables, id)
    requires kept.distanceM.None? && s.tables.markers[id].distanceM <= RouteLengthOf(s.tables, id)
    requires revised.distanceM.Some? && 0.0 <= revised.distanceM.value <= RouteLengthOf(s.tables, id)
    ensures var es := OvertakenReview(call, other, requestID, id, actorID, kept, revised);
            var before, after := RunStore(s, es[..|es| - 1]).tables.markers, RunStore(s, es).tables.markers;
            && id in before && before[id].distanceM == revised.distanceM.value
            && id in after && after[id].distanceM == s.tables.markers[id].distanceM
  {
    var m := ReviewedMarker(s.tables.markers[id], RouteLengthOf(s.tables, id), actorID, kept).value;
    var n := ReviewedMarker(s.tables.markers[id], RouteLengthOf(s.tables, id), actorID, revised).value;
    var reading := [ReviewRead(call, requestID, id, actorID, kept)] + ([ReviewTrace(call)] + [ReviewRoute(call)]);
    var rest := ReviewCall(other, requestID, id, actorID, revised);
    var es := OvertakenReview(call, other, requestID, id, actorID, kept, revised);
    ReviewReadsRun(s, call, requestID, id, actorID, kept, m);
    var t := RunStore(s, reading);
    ReviewCallRuns(t, other, requestID, id, actorID, revised, n);
    var u := RunStore(t, rest);
    assert es == reading + (rest + [Commit(call)]) && es[..|es| - 1] == reading + rest;
    RunStoreConcat(s, reading, rest);
    RunStoreConcat(s, reading, rest + [Commit(call)]);
    RunStoreConcat(t, rest, [Commit(call)]);
    RunStoreOne(u, Commit(call));
    assert u.calls[call] == Call(requestID, Reviewing(id, m));
  }
}
