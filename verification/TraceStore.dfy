/**
 Traces and their event markers, and the calls that import, re-detect and review them.  Each call reads
 first and commits later in one transaction, so any other call may commit in between.
 */
module TraceStore {
  import opened Wrappers
  import opened RequestID
  import opened Denoise
  import opened Distance
  import opened Detection

  // ---- Tables ----

  datatype Route = Route(lengthM: real, refractiveIndex: real)

  datatype Trace = Trace(
    routeID: nat,
    sampleIntervalNS: real,
    raw: seq<real>,
    processed: seq<real>,
    noiseFloorDB: real,
    denoiseWindow: int,
    peakThresholdDB: real,
    mergeWindow: int)

  datatype Marker = Marker(
    traceID: nat,
    distanceM: real,
    eventType: EventType,
    insertionLossDB: real,
    reflectanceDB: real,
    confidence: real,
    algorithmEventType: EventType,
    algorithmDistanceM: real,
    algorithmInsertionLossDB: real,
    reviewed: bool,
    reviewNote: string,
    reviewedBy: Option<nat>)

  datatype TraceAction = TraceImported | EventsDetected | EventReviewed

  datatype TraceAudit = TraceAudit(action: TraceAction, resourceID: nat, requestID: string)

  datatype Tables = Tables(
    routes: map<nat, Route>,
    traces: map<nat, Trace>,
    markers: map<nat, Marker>,
    nextTraceID: nat,
    nextMarkerID: nat,
    audits: seq<TraceAudit>)

  /** `ReplaceForTrace`, first half: unreviewed markers of the trace are deleted. */
  function Cleared(markers: map<nat, Marker>, traceID: nat): map<nat, Marker> {
    map id | id in markers && (markers[id].traceID != traceID || markers[id].reviewed) :: markers[id]
  }

  /** Second half: the new markers are inserted under fresh ids. */
  function Inserted(markers: map<nat, Marker>, next: nat, added: seq<Marker>): map<nat, Marker>
    decreases |added|
  {
    if added == [] then markers else Inserted(markers[next := added[0]], next + 1, added[1..])
  }

  function MarkerOf(traceID: nat, e: DetectedEvent): Marker {
    Marker(traceID, e.distanceM, e.eventType, e.insertionLossDB, e.reflectanceDB, e.confidence,
           e.eventType, e.distanceM, e.insertionLossDB, false, "", None)
  }

  function MarkersOf(traceID: nat, events: seq<DetectedEvent>): (r: seq<Marker>)
    ensures |r| == |events|
  {
    seq(|events|, i requires 0 <= i < |events| => MarkerOf(traceID, events[i]))
  }

  // ---- Requests ----

  datatype ImportRequest = ImportRequest(
    routeID: nat,
    sampleIntervalNS: real,
    points: seq<real>,
    denoiseWindow: int,
    peakThresholdDB: real,
    mergeWindow: int)

  datatype DetectRequest = DetectRequest(denoiseWindow: int, peakThresholdDB: real, mergeWindow: int)

  datatype ReviewRequest = ReviewRequest(eventType: EventType, distanceM: Option<real>, reviewNote: string)

  function IntOr(value: int, fallback: int): int {
    if value == 0 then fallback else value
  }

  function RealOr(value: real, fallback: real): real {
    if value == 0.0 then fallback else value
  }

  datatype ImportError =
    | TooManyPoints
    | SampleOutOfRange(index: nat)
    | RouteNotFound
    | AlgorithmRefused(error: AlgorithmError)
    | CoverageTooSmall

  datatype ImportOutcome = Accepted(trace: Trace) | Refused(error: ImportError)

  predicate SampleOK(x: real) {
    -200.0 <= x <= 100.0
  }

  /** The first inadmissible sample among the first `n`, or -1. */
  function FirstBad(points: seq<real>, n: nat): (r: int)
    requires n <= |points|
    ensures -1 <= r < n
    ensures r < 0 <==> forall i :: 0 <= i < n ==> SampleOK(points[i])
    ensures r >= 0 ==> !SampleOK(points[r]) && forall i :: 0 <= i < r ==> SampleOK(points[i])
  {
    if n == 0 then -1
    else
      var r := FirstBad(points, n - 1);
      if r >= 0 then r else if SampleOK(points[n - 1]) then -1 else n - 1
  }

  function ImportedTrace(r: ImportRequest, filtered: seq<real>, noise: real): Trace {
    Trace(r.routeID, r.sampleIntervalNS, r.points, filtered, noise,
          IntOr(r.denoiseWindow, 5), RealOr(r.peakThresholdDB, 0.8), IntOr(r.mergeWindow, 3))
  }

  /** What an import stores besides the derived columns; a parameter that is not requested has its default. */
  predicate ImportedAs(t: Trace, r: ImportRequest) {
    && t.raw == r.points && t.routeID == r.routeID && t.sampleIntervalNS == r.sampleIntervalNS
    && t.denoiseWindow == (if r.denoiseWindow != 0 then r.denoiseWindow else 5)
    && t.peakThresholdDB == (if r.peakThresholdDB != 0.0 then r.peakThresholdDB else 0.8)
    && t.mergeWindow == (if r.mergeWindow != 0 then r.mergeWindow else 3)
  }

  /** What `Import` decides before its transaction. */
  function ImportOutcomeOf(r: ImportRequest, routes: map<nat, Route>, maxPoints: nat): ImportOutcome {
    if |r.points| > maxPoints then Refused(TooManyPoints)
    else if FirstBad(r.points, |r.points|) >= 0 then Refused(SampleOutOfRange(FirstBad(r.points, |r.points|)))
    else if r.routeID !in routes then Refused(RouteNotFound)
    else
      var filtered := MovingMedianResult(r.points, IntOr(r.denoiseWindow, 5));
      if filtered.Err? then Refused(AlgorithmRefused(filtered.error))
      else
        var noise := NoiseFloorResult(filtered.value);
        if noise.Err? then Refused(AlgorithmRefused(noise.error))
        else
          var route := routes[r.routeID];
          var last := SampleDistance(|r.points| - 1, r.sampleIntervalNS, route.refractiveIndex);
          if last.Err? then Refused(AlgorithmRefused(last.error))
          else if last.value < route.lengthM * 0.05 then Refused(CoverageTooSmall)
          else Accepted(ImportedTrace(r, filtered.value, noise.value))
  }

  /** The detection parameters of a trace under parameters `window`, `threshold`, `merge` on a route. */
  function SettingOf(threshold: real, merge: int, intervalNS: real, route: Route): Setting {
    Setting(threshold, merge, intervalNS, route.refractiveIndex, route.lengthM)
  }

  /** Each parameter is the requested one; or, if that is zero, the stored one; or, if both are, the default. */
  predicate ParametersFor(window: int, threshold: real, merge: int, r: DetectRequest, t: Trace) {
    && (r.denoiseWindow != 0 ==> window == r.denoiseWindow)
    && (r.denoiseWindow == 0 && t.denoiseWindow != 0 ==> window == t.denoiseWindow)
    && (r.denoiseWindow == 0 && t.denoiseWindow == 0 ==> window == 5)
    && (r.peakThresholdDB != 0.0 ==> threshold == r.peakThresholdDB)
    && (r.peakThresholdDB == 0.0 && t.peakThresholdDB != 0.0 ==> threshold == t.peakThresholdDB)
    && (r.peakThresholdDB == 0.0 && t.peakThresholdDB == 0.0 ==> threshold == 0.8)
    && (r.mergeWindow != 0 ==> merge == r.mergeWindow)
    && (r.mergeWindow == 0 && t.mergeWindow != 0 ==> merge == t.mergeWindow)
    && (r.mergeWindow == 0 && t.mergeWindow == 0 ==> merge == 3)
  }

  /** What a detection call carries from its reads to its transaction. */
  datatype DetectionRun = DetectionRun(
    traceID: nat,
    window: int,
    threshold: real,
    merge: int,
    filtered: seq<real>,
    noise: real,
    detected: Detected,
    route: Route)

  /** What `Detect` computes from the trace and route it read; None is any of its error returns. */
  function DetectionOf(traceID: nat, t: Trace, route: Route, r: DetectRequest): Option<DetectionRun> {
    var window := IntOr(IntOr(r.denoiseWindow, t.denoiseWindow), 5);
    var threshold := RealOr(RealOr(r.peakThresholdDB, t.peakThresholdDB), 0.8);
    var merge := IntOr(IntOr(r.mergeWindow, t.mergeWindow), 3);
    var filtered := MovingMedianResult(t.raw, window);
    if filtered.Err? then None
    else
      var noise := NoiseFloorResult(filtered.value);
      var detected := DetectResult(filtered.value, SettingOf(threshold, merge, t.sampleIntervalNS, route));
      if noise.Err? || detected.Err? then None
      else Some(DetectionRun(traceID, window, threshold, merge, filtered.value, noise.value, detected.value, route))
  }

  // ---- Calls in flight ----

  /** Where a call stands: what it has read so far, or what it is about to commit. */
  datatype Job =
    | Importing(trace: Trace)
    | HasTrace(traceID: nat, trace: Trace, detecting: DetectRequest)
    | Detecting(detection: DetectionRun)
    | HasMarker(markerID: nat, marker: Marker, actorID: nat, reviewing: ReviewRequest)
    | HasMarkerTrace(markerID: nat, marker: Marker, routeID: nat, actorID: nat, reviewing: ReviewRequest)
    | Reviewing(markerID: nat, marker: Marker)

  /** All reads are done; only the transaction is left. */
  predicate Ready(job: Job) {
    job.Importing? || job.Detecting? || job.Reviewing?
  }

  datatype Call = Call(requestID: string, job: Job)

  /**
   The latest detection of a trace: the route it read, what it reported, and where its markers start.
   The program does not store it; it is kept for the statements only.
   */
  datatype Batch = Batch(route: Route, events: seq<DetectedEvent>, rejected: nat, firstID: nat)

  datatype Store = Store(tables: Tables, calls: map<nat, Call>, latest: map<nat, Batch>)

  datatype StoreEvent =
    | PutRoute(routeID: nat, route: Route)
    | ImportRead(call: nat, requestID: string, importing: ImportRequest, maxPoints: nat)
    | DetectRead(call: nat, requestID: string, traceID: nat, detecting: DetectRequest)
    | DetectRoute(call: nat)
    | ReviewRead(call: nat, requestID: string, markerID: nat, actorID: nat, reviewing: ReviewRequest)
    | ReviewTrace(call: nat)
    | ReviewRoute(call: nat)
    | Commit(call: nat)
    | Abandon(call: nat)

  /** The ranges the database enforces on a route. */
  predicate ValidRoute(r: Route) {
    0.0 < r.lengthM <= 500000.0 && 1.3 <= r.refractiveIndex <= 1.7
  }

  function EndCall(s: Store, call: nat): Store {
    s.(calls := s.calls - {call})
  }

  function ApplyImportRead(s: Store, call: nat, requestID: string, r: ImportRequest, maxPoints: nat): Store {
    var outcome := ImportOutcomeOf(r, s.tables.routes, maxPoints);
    if call in s.calls || outcome.Refused? then s
    else s.(calls := s.calls[call := Call(requestID, Importing(outcome.trace))])
  }

  function AddCall(s: Store, call: nat, requestID: string, job: Job): Store {
    s.(calls := s.calls[call := Call(requestID, job)])
  }

  /** A call goes on to its next stage. */
  function NextJob(s: Store, call: nat, job: Job): Store
    requires call in s.calls
  {
    s.(calls := s.calls[call := s.calls[call].(job := job)])
  }

  /** The first read of `Detect`: the trace. */
  function ApplyDetectRead(s: Store, call: nat, requestID: string, traceID: nat, r: DetectRequest): Store {
    if call in s.calls || traceID !in s.tables.traces then s
    else AddCall(s, call, requestID, HasTrace(traceID, s.tables.traces[traceID], r))
  }

  /** The second read, the route of that trace, and the computation. */
  function ApplyDetectRoute(s: Store, call: nat): Store {
    if call !in s.calls || !s.calls[call].job.HasTrace? then s
    else
      var job := s.calls[call].job;
      if job.trace.routeID !in s.tables.routes then EndCall(s, call)
      else
        var route := s.tables.routes[job.trace.routeID];
        WithDetection(s, call, DetectionOf(job.traceID, job.trace, route, job.detecting))
  }

  /** A call goes on with its detection, or ends if the algorithms refused. */
  function WithDetection(s: Store, call: nat, d: Option<DetectionRun>): Store
    requires call in s.calls
  {
    if d.None? then EndCall(s, call) else NextJob(s, call, Detecting(d.value))
  }

  /** The marker a review wants to store, or None if the review is refused. */
  function ReviewedMarker(m: Marker, routeLength: real, actorID: nat, r: ReviewRequest): Option<Marker> {
    var distance := if r.distanceM.Some? then r.distanceM.value else m.distanceM;
    if distance > routeLength then None
    else Some(m.(eventType := r.eventType, distanceM := distance, reviewed := true,
                 reviewNote := r.reviewNote, reviewedBy := Some(actorID)))
  }

  /** The validator's range for a reviewed distance. */
  predicate ValidReview(r: ReviewRequest) {
    r.distanceM.Some? ==> 0.0 <= r.distanceM.value
  }

  /** The reads of `Review`: the marker, ... */
  function ApplyReviewRead(s: Store, call: nat, requestID: string, id: nat, actorID: nat, r: ReviewRequest): Store {
    if call in s.calls || id !in s.tables.markers || !ValidReview(r) then s
    else AddCall(s, call, requestID, HasMarker(id, s.tables.markers[id], actorID, r))
  }

  /** ... its trace, ... */
  function ApplyReviewTrace(s: Store, call: nat): Store {
    if call !in s.calls || !s.calls[call].job.HasMarker? then s
    else
      var job := s.calls[call].job;
      if job.marker.traceID !in s.tables.traces then EndCall(s, call)
      else
        var routeID := s.tables.traces[job.marker.traceID].routeID;
        NextJob(s, call, HasMarkerTrace(job.markerID, job.marker, routeID, job.actorID, job.reviewing))
  }

  /** ... and the route of that trace. */
  function ApplyReviewRoute(s: Store, call: nat): Store {
    if call !in s.calls || !s.calls[call].job.HasMarkerTrace? then s
    else
      var job := s.calls[call].job;
      if job.routeID !in s.tables.routes then EndCall(s, call)
      else
        var reviewed := ReviewedMarker(job.marker, s.tables.routes[job.routeID].lengthM, job.actorID, job.reviewing);
        if reviewed.None? then EndCall(s, call) else NextJob(s, call, Reviewing(job.markerID, reviewed.value))
  }

  function WithAudit(t: Tables, action: TraceAction, id: nat, requestID: string): Tables {
    t.(audits := t.audits + [TraceAudit(action, id, requestID)])
  }

  function CommitImport(s: Store, call: nat, trace: Trace, requestID: string): Store {
    var id := s.tables.nextTraceID;
    EndCall(s, call).(tables := WithAudit(s.tables.(traces := s.tables.traces[id := trace], nextTraceID := id + 1),
                                      TraceImported, id, requestID))
  }

  /** `UpdateProcessing`. */
  function Reprocessed(t: Trace, d: DetectionRun): Trace {
    t.(processed := d.filtered, noiseFloorDB := d.noise, denoiseWindow := d.window,
       peakThresholdDB := d.threshold, mergeWindow := d.merge)
  }

  function CommitDetection(s: Store, call: nat, d: DetectionRun, requestID: string): Store {
    if d.traceID !in s.tables.traces then EndCall(s, call)
    else
      var added := MarkersOf(d.traceID, d.detected.events);
      var next := s.tables.nextMarkerID;
      var tables := s.tables.(
        traces := s.tables.traces[d.traceID := Reprocessed(s.tables.traces[d.traceID], d)],
        markers := Inserted(Cleared(s.tables.markers, d.traceID), next, added),
        nextMarkerID := next + |added|);
      EndCall(s, call).(tables := WithAudit(tables, EventsDetected, d.traceID, requestID),
                    latest := s.latest[d.traceID := Batch(d.route, d.detected.events, d.detected.rejected, next)])
  }

  /** `Review` writes the human columns only; a marker deleted meanwhile is not found. */
  function CommitReview(s: Store, call: nat, id: nat, m: Marker, requestID: string): Store {
    if id !in s.tables.markers then EndCall(s, call)
    else
      var stored := s.tables.markers[id].(eventType := m.eventType, distanceM := m.distanceM, reviewed := true,
                                          reviewNote := m.reviewNote, reviewedBy := m.reviewedBy);
      var tables := s.tables.(markers := s.tables.markers[id := stored]);
      EndCall(s, call).(tables := WithAudit(tables, EventReviewed, id, requestID))
  }

  function CommitJob(s: Store, call: nat, job: Job, requestID: string): Store
    requires Ready(job)
  {
    match job
    case Importing(trace) => CommitImport(s, call, trace, requestID)
    case Detecting(d) => CommitDetection(s, call, d, requestID)
    case Reviewing(id, m) => CommitReview(s, call, id, m, requestID)
  }

  /** The transaction of a call; a blank request id rolls it back. */
  function ApplyCommit(s: Store, call: nat): Store {
    if call !in s.calls || !Ready(s.calls[call].job) then s
    else if Blank(s.calls[call].requestID) then EndCall(s, call)
    else CommitJob(s, call, s.calls[call].job, s.calls[call].requestID)
  }

  function ApplyStore(s: Store, e: StoreEvent): Store {
    match e
    case PutRoute(id, route) =>
      if ValidRoute(route) then s.(tables := s.tables.(routes := s.tables.routes[id := route])) else s
    case ImportRead(call, requestID, r, maxPoints) => ApplyImportRead(s, call, requestID, r, maxPoints)
    case DetectRead(call, requestID, traceID, r) => ApplyDetectRead(s, call, requestID, traceID, r)
    case DetectRoute(call) => ApplyDetectRoute(s, call)
    case ReviewRead(call, requestID, id, actorID, r) => ApplyReviewRead(s, call, requestID, id, actorID, r)
    case ReviewTrace(call) => ApplyReviewTrace(s, call)
    case ReviewRoute(call) => ApplyReviewRoute(s, call)
    case Commit(call) => ApplyCommit(s, call)
    case Abandon(call) => EndCall(s, call)
  }

  function RunStore(s: Store, es: seq<StoreEvent>): Store
    decreases |es|
  {
    if es == [] then s else RunStore(ApplyStore(s, es[0]), es[1..])
  }

  function EmptyStore(): Store {
    Store(Tables(map[], map[], map[], 1, 1, []), map[], map[])
  }

  // ---- Invariant ----

  /** Processed samples and noise floor are what the raw samples and the stored window give. */
  predicate TraceOK(t: Trace) {
    && InSampleRange(t.raw)
    && MovingMedianResult(t.raw, t.denoiseWindow) == Ok(t.processed)
    && NoiseFloorResult(t.processed) == Ok(t.noiseFloorDB)
  }

  /** A detection call's results follow from the raw samples of its trace. */
  predicate DetectionOK(d: DetectionRun, t: Trace) {
    && MovingMedianResult(t.raw, d.window) == Ok(d.filtered)
    && NoiseFloorResult(d.filtered) == Ok(d.noise)
    && DetectResult(d.filtered, SettingOf(d.threshold, d.merge, t.sampleIntervalNS, d.route)) == Ok(d.detected)
  }

  /** The columns reviewers never touch equal what the algorithm reported. */
  predicate FromAlgorithm(m: Marker, e: DetectedEvent) {
    && m.algorithmEventType == e.eventType
    && m.algorithmDistanceM == e.distanceM
    && m.algorithmInsertionLossDB == e.insertionLossDB
    && m.insertionLossDB == e.insertionLossDB
    && m.reflectanceDB == e.reflectanceDB
    && m.confidence == e.confidence
  }

  predicate MarkerOK(m: Marker) {
    && EventInRange(m.insertionLossDB, m.reflectanceDB, m.confidence)
    && 0.0 <= m.distanceM
    && (!m.reviewed ==> m.distanceM == m.algorithmDistanceM && m.eventType == m.algorithmEventType)
  }

  /** Re-running detection on the stored trace with the route of its latest detection gives the same report. */
  predicate BatchReplays(t: Trace, b: Batch) {
    DetectResult(t.processed, SettingOf(t.peakThresholdDB, t.mergeWindow, t.sampleIntervalNS, b.route))
      == Ok(Detected(b.events, b.rejected))
  }

  /** The markers the latest detection inserted are all there, with the columns it gave them. */
  predicate BatchStored(markers: map<nat, Marker>, next: nat, traceID: nat, b: Batch) {
    && b.firstID + |b.events| <= next
    && forall id :: b.firstID <= id < b.firstID + |b.events| ==>
         id in markers && markers[id].traceID == traceID && FromAlgorithm(markers[id], b.events[id - b.firstID])
  }

  predicate TracesOK(traces: map<nat, Trace>, next: nat) {
    forall id :: id in traces ==> id < next && TraceOK(traces[id])
  }

  predicate MarkersOK(markers: map<nat, Marker>, next: nat) {
    forall id :: id in markers ==> id < next && MarkerOK(markers[id])
  }

  /** Markers lie on detected traces; the unreviewed ones belong to the latest detection. */
  predicate UnreviewedFresh(markers: map<nat, Marker>, latest: map<nat, Batch>) {
    forall id :: id in markers ==>
      markers[id].traceID in latest && (!markers[id].reviewed ==> InBatch(latest[markers[id].traceID], id))
  }

  predicate InBatch(b: Batch, id: nat) {
    b.firstID <= id < b.firstID + |b.events|
  }

  /** Every latest detection replays on what is stored. */
  predicate ReplaysOK(traces: map<nat, Trace>, latest: map<nat, Batch>) {
    forall t :: t in latest ==> t in traces && BatchReplays(traces[t], latest[t])
  }

  /** And its markers are still there. */
  predicate StoredOK(markers: map<nat, Marker>, next: nat, latest: map<nat, Batch>) {
    forall t :: t in latest ==> BatchStored(markers, next, t, latest[t])
  }

  predicate CallsOK(traces: map<nat, Trace>, calls: map<nat, Call>) {
    forall c :: c in calls ==> JobOK(traces, calls[c].job)
  }

  predicate JobOK(traces: map<nat, Trace>, job: Job) {
    match job
    case Importing(trace) => TraceOK(trace)
    case HasTrace(traceID, t, _) => traceID in traces && SameCapture(t, traces[traceID])
    case Detecting(d) => d.traceID in traces && DetectionOK(d, traces[d.traceID])
    case HasMarker(_, m, _, r) => 0.0 <= m.distanceM && ValidReview(r)
    case HasMarkerTrace(_, m, _, _, r) => 0.0 <= m.distanceM && ValidReview(r)
    case Reviewing(_, m) => 0.0 <= m.distanceM
  }

  /** The columns of a trace that no call writes after import. */
  predicate SameCapture(a: Trace, b: Trace) {
    a.raw == b.raw && a.routeID == b.routeID && a.sampleIntervalNS == b.sampleIntervalNS
  }

  predicate StoreInv(s: Store) {
    && TracesOK(s.tables.traces, s.tables.nextTraceID)
    && MarkersOK(s.tables.markers, s.tables.nextMarkerID)
    && UnreviewedFresh(s.tables.markers, s.latest)
    && ReplaysOK(s.tables.traces, s.latest)
    && StoredOK(s.tables.markers, s.tables.nextMarkerID, s.latest)
    && CallsOK(s.tables.traces, s.calls)
  }
}
