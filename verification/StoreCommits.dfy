/**
 Which detections go through and under which parameters, what they and imports commit whatever happens
 meanwhile, and how the log of the store agrees with its tables.
 */
module StoreCommits {
  import opened Wrappers
  import opened RequestID
  import opened Denoise
  import opened Detection
  import opened TraceStore
  import TraceInvariants
  import opened StoreRuns

  // ---- Detections ----

  lemma {:induction false} ParametersOnce(r: DetectRequest, t: Trace, window: int, threshold: real, merge: int)
    requires ParametersFor(window, threshold, merge, r, t)
    ensures window == IntOr(IntOr(r.denoiseWindow, t.denoiseWindow), 5)
    ensures threshold == RealOr(RealOr(r.peakThresholdDB, t.peakThresholdDB), 0.8)
    ensures merge == IntOr(IntOr(r.mergeWindow, t.mergeWindow), 3)
  {
  }

  /** What a detection computes: filter, noise floor and events of the raw samples, under the chosen parameters. */
  predicate Computes(d: DetectionRun, t: Trace, route: Route, window: int, threshold: real, merge: int) {
    && d.window == window >= 1 && d.threshold == threshold && d.merge == merge && d.route == route
    && d.filtered == Filtered(t.raw, window)
    && NoiseFloorResult(d.filtered) == Ok(d.noise)
    && DetectResult(d.filtered, Setting(threshold, merge, t.sampleIntervalNS, route.refractiveIndex, route.lengthM))
         == Ok(d.detected)
  }

  /** A detection call, given what the last of the three algorithms returns. */
  function RunFrom(traceID: nat, t: Trace, route: Route, window: int, threshold: real, merge: int,
      detected: Result<Detected>): Option<DetectionRun>
    requires window >= 1 && |t.raw| > 0
  {
    if detected.Err? then None
    else
      Some(DetectionRun(traceID, window, threshold, merge, Filtered(t.raw, window),
                        Median(Tail(Filtered(t.raw, window))), detected.value, route))
  }

  lemma {:induction false} DetectionStages(traceID: nat, t: Trace, route: Route, r: DetectRequest, window: int,
      threshold: real, merge: int, detected: Result<Detected>)
    requires ParametersFor(window, threshold, merge, r, t)
    requires |t.raw| >= 16 && 1 <= window <= 31
    requires detected == DetectResult(Filtered(t.raw, window), SettingOf(threshold, merge, t.sampleIntervalNS, route))
    ensures DetectionOf(traceID, t, route, r) == RunFrom(traceID, t, route, window, threshold, merge, detected)
  {
    ParametersOnce(r, t, window, threshold, merge);
    assert MovingMedianResult(t.raw, window) == Ok(Filtered(t.raw, window));
  }

  lemma {:induction false} DetectionRefused(traceID: nat, t: Trace, route: Route, r: DetectRequest, window: int,
      threshold: real, merge: int)
    requires ParametersFor(window, threshold, merge, r, t)
    requires !(|t.raw| >= 16 && 1 <= window <= 31)
    ensures DetectionOf(traceID, t, route, r).None?
  {
    ParametersOnce(r, t, window, threshold, merge);
    TraceInvariants.FilterSucceedsExactly(t.raw, window);
  }

  /**
   A detection goes through exactly if the trace has sixteen samples, the chosen parameters are admissible, and
   the sampling can be converted or the filtered trace has no step that reaches the threshold.
   */
  lemma {:induction false} DetectionExactly(traceID: nat, t: Trace, route: Route, r: DetectRequest, window: int,
      threshold: real, merge: int)
    requires ParametersFor(window, threshold, merge, r, t)
    ensures DetectionOf(traceID, t, route, r).Some?
       <==> && |t.raw| >= 16 && 1 <= window <= 31 && threshold > 0.0 && merge >= 1
            && ((exists p :: IsPeak(p, Filtered(t.raw, window), threshold)) ==>
                  t.sampleIntervalNS > 0.0 && 1.3 <= route.refractiveIndex <= 1.7)
    ensures DetectionOf(traceID, t, route, r).Some? ==>
              var d := DetectionOf(traceID, t, route, r).value;
              d.traceID == traceID && Computes(d, t, route, window, threshold, merge)
  {
    if |t.raw| >= 16 && 1 <= window <= 31 {
      var points, setting := Filtered(t.raw, window), SettingOf(threshold, merge, t.sampleIntervalNS, route);
      DetectionStages(traceID, t, route, r, window, threshold, merge, DetectResult(points, setting));
      DetectSucceedsExactly(points, setting);
    } else {
      DetectionRefused(traceID, t, route, r, window, threshold, merge);
    }
  }

  /** Call `call` is detecting on trace `traceID`, which it read as `t`. */
  predicate DetectingFor(s: Store, call: nat, requestID: string, traceID: nat, t: Trace, r: DetectRequest) {
    && call in s.calls && s.calls[call].requestID == requestID
    && match s.calls[call].job
       case HasTrace(k, u, q) => k == traceID && u == t && q == r
       case Detecting(d) => DetectionOf(traceID, t, d.route, r) == Some(d)
       case _ => false
  }

  lemma {:induction false} RouteKept(traceID: nat, t: Trace, route: Route, r: DetectRequest)
    requires DetectionOf(traceID, t, route, r).Some?
    ensures var d := DetectionOf(traceID, t, route, r).value;
            d.route == route && d.traceID == traceID && ParametersFor(d.window, d.threshold, d.merge, r, t)
  {
  }

  /** Only `DetectRoute` moves a detection call on. */
  lemma {:induction false} JobStays(s: Store, e: StoreEvent, call: nat)
    requires call in s.calls && (s.calls[call].job.HasTrace? || s.calls[call].job.Detecting?)
    requires e != DetectRoute(call) && call in ApplyStore(s, e).calls
    ensures ApplyStore(s, e).calls[call] == s.calls[call]
  {
  }

  lemma {:induction false} GoesOnWith(s: Store, call: nat, o: Option<DetectionRun>)
    requires call in s.calls && call in WithDetection(s, call, o).calls
    ensures o.Some? && WithDetection(s, call, o).calls[call] == s.calls[call].(job := Detecting(o.value))
  {
    assert o.None? ==> call !in EndCall(s, call).calls;
  }

  lemma {:induction false} RouteStep(s: Store, call: nat)
    requires call in s.calls
    ensures !s.calls[call].job.HasTrace? ==> ApplyStore(s, DetectRoute(call)) == s
    ensures s.calls[call].job.HasTrace? && s.calls[call].job.trace.routeID !in s.tables.routes ==>
              call !in ApplyStore(s, DetectRoute(call)).calls
  {
  }

  lemma {:induction false} DetectingStep(s: Store, e: StoreEvent, call: nat, requestID: string, traceID: nat,
      t: Trace, r: DetectRequest)
    requires DetectingFor(s, call, requestID, traceID, t, r) && call in ApplyStore(s, e).calls
    ensures DetectingFor(ApplyStore(s, e), call, requestID, traceID, t, r)
  {
    if e != DetectRoute(call) {
      JobStays(s, e, call);
    } else {
      RouteStep(s, call);
      if s.calls[call].job.HasTrace? {
        DetectRouteRuns(s, call, requestID, traceID, t, r);
        var route := s.tables.routes[t.routeID];
        GoesOnWith(s, call, DetectionOf(traceID, t, route, r));
        RouteKept(traceID, t, route, r);
      }
    }
  }

  lemma {:induction false} DetectingStays(s: Store, es: seq<StoreEvent>, call: nat, requestID: string, traceID: nat,
      t: Trace, r: DetectRequest)
    requires DetectingFor(s, call, requestID, traceID, t, r) && InFlight(s, es, call)
    ensures DetectingFor(RunStore(s, es), call, requestID, traceID, t, r)
    decreases |es|
  {
    if es == [] {
    } else {
      DetectingStep(s, es[0], call, requestID, traceID, t, r);
      DetectingStays(ApplyStore(s, es[0]), es[1..], call, requestID, traceID, t, r);
    }
  }

  /** The tables after a detection: derived columns rewritten, markers replaced, one more entry in the log. */
  predicate DetectionWritten(before: Tables, after: Tables, traceID: nat, d: DetectionRun, requestID: string)
    requires traceID in before.traces
  {
    && after.traces == before.traces[traceID := before.traces[traceID].(
                         processed := d.filtered, noiseFloorDB := d.noise, denoiseWindow := d.window,
                         peakThresholdDB := d.threshold, mergeWindow := d.merge)]
    && TraceInvariants.Replaced(before.markers, after.markers, traceID, before.nextMarkerID,
                                MarkersOf(traceID, d.detected.events))
    && after.nextMarkerID == before.nextMarkerID + |d.detected.events|
    && after.routes == before.routes && after.nextTraceID == before.nextTraceID
    && after.audits == before.audits + [TraceAudit(EventsDetected, traceID, requestID)]
  }

  lemma {:induction false} CommitRuns(s: Store, call: nat, requestID: string, d: DetectionRun)
    requires call in s.calls && s.calls[call] == Call(requestID, Detecting(d)) && !Blank(requestID)
    ensures ApplyStore(s, Commit(call)) == CommitDetection(s, call, d, requestID)
  {
  }

  lemma {:induction false} CommitWrites(s: Store, call: nat, requestID: string, d: DetectionRun)
    requires d.traceID in s.tables.traces
    ensures DetectionWritten(s.tables, CommitDetection(s, call, d, requestID).tables, d.traceID, d, requestID)
  {
    TraceInvariants.ReplaceExact(s.tables.markers, d.traceID, s.tables.nextMarkerID,
                                 MarkersOf(d.traceID, d.detected.events));
  }

  /**
   What a detection commits, whatever has been committed since it read its trace: what it computed from the trace
   as it read it, with parameters that prefer the request over what that trace stored.
   */
  lemma {:induction false} DetectionWrites(s: Store, call: nat, requestID: string, traceID: nat, r: DetectRequest,
      es: seq<StoreEvent>)
    returns (d: DetectionRun)
    requires call !in s.calls && traceID in s.tables.traces && !Blank(requestID)
    requires InFlight(ApplyStore(s, DetectRead(call, requestID, traceID, r)), es, call)
    requires var t := RunStore(ApplyStore(s, DetectRead(call, requestID, traceID, r)), es);
             call in t.calls && Ready(t.calls[call].job) && traceID in t.tables.traces
    ensures DetectionOf(traceID, s.tables.traces[traceID], d.route, r) == Some(d)
    ensures ParametersFor(d.window, d.threshold, d.merge, r, s.tables.traces[traceID])
    ensures var t := RunStore(ApplyStore(s, DetectRead(call, requestID, traceID, r)), es);
            DetectionWritten(t.tables, ApplyStore(t, Commit(call)).tables, traceID, d, requestID)
  {
    var read := ApplyStore(s, DetectRead(call, requestID, traceID, r));
    DetectReadRuns(s, call, requestID, traceID, r);
    DetectingStays(read, es, call, requestID, traceID, s.tables.traces[traceID], r);
    var t := RunStore(read, es);
    d := t.calls[call].job.detection;
    RouteKept(traceID, s.tables.traces[traceID], d.route, r);
    CommitRuns(t, call, requestID, d);
    CommitWrites(t, call, requestID, d);
  }

  // ---- Imports ----

  predicate ImportingAs(s: Store, call: nat, requestID: string, trace: Trace) {
    call in s.calls && s.calls[call] == Call(requestID, Importing(trace))
  }

  lemma {:induction false} ImportingStays(s: Store, es: seq<StoreEvent>, call: nat, requestID: string, trace: Trace)
    requires ImportingAs(s, call, requestID, trace) && InFlight(s, es, call)
    ensures ImportingAs(RunStore(s, es), call, requestID, trace)
    decreases |es|
  {
    if es == [] {
    } else {
      ImportingStep(s, es[0], call, requestID, trace);
      ImportingStays(ApplyStore(s, es[0]), es[1..], call, requestID, trace);
    }
  }

  lemma {:induction false} ImportingStep(s: Store, e: StoreEvent, call: nat, requestID: string, trace: Trace)
    requires ImportingAs(s, call, requestID, trace) && call in ApplyStore(s, e).calls
    ensures ImportingAs(ApplyStore(s, e), call, requestID, trace)
  {
  }

  lemma {:induction false} ImportCommitRuns(s: Store, call: nat, requestID: string, trace: Trace)
    requires ImportingAs(s, call, requestID, trace) && !Blank(requestID)
    ensures ApplyStore(s, Commit(call)).tables
         == s.tables.(traces := s.tables.traces[s.tables.nextTraceID := trace],
                      nextTraceID := s.tables.nextTraceID + 1,
                      audits := s.tables.audits + [TraceAudit(TraceImported, s.tables.nextTraceID, requestID)])
  {
  }

  /**
   What an import commits, whatever has been committed since it decided: the samples and parameters it was sent,
   under the number that is next by then, and one entry in the log.
   */
  lemma {:induction false} ImportWrites(s: Store, call: nat, requestID: string, r: ImportRequest, maxPoints: nat,
      es: seq<StoreEvent>)
    returns (trace: Trace)
    requires call !in s.calls && ImportOutcomeOf(r, s.tables.routes, maxPoints).Accepted? && !Blank(requestID)
    requires InFlight(ApplyStore(s, ImportRead(call, requestID, r, maxPoints)), es, call)
    ensures ImportedAs(trace, r) && TraceOK(trace)
    ensures var t := RunStore(ApplyStore(s, ImportRead(call, requestID, r, maxPoints)), es);
            ApplyStore(t, Commit(call)).tables
              == t.tables.(traces := t.tables.traces[t.tables.nextTraceID := trace],
                           nextTraceID := t.tables.nextTraceID + 1,
                           audits := t.tables.audits + [TraceAudit(TraceImported, t.tables.nextTraceID, requestID)])
  {
    trace := ImportOutcomeOf(r, s.tables.routes, maxPoints).trace;
    TraceInvariants.ImportStores(r, s.tables.routes, maxPoints);
    TraceInvariants.ImportAccepts(r, s.tables.routes, maxPoints);
    ImportReadRuns(s, call, requestID, r, maxPoints, trace);
    var read := AddCall(s, call, requestID, Importing(trace));
    ImportingStays(read, es, call, requestID, trace);
    ImportCommitRuns(RunStore(read, es), call, requestID, trace);
  }
}
