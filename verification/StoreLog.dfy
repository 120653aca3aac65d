/** The log of the store agrees with its tables, whatever imports, detections and reviews interleave. */
module StoreLog {
  import opened Counting
  import opened RequestID
  import opened TraceStore
  import TraceInvariants

  /** Some entry reports this action on this trace or marker. */
  predicate Logged(audits: seq<TraceAudit>, action: TraceAction, id: nat) {
    exists k :: 0 <= k < |audits| && audits[k].action == action && audits[k].resourceID == id
  }

  function Imports(): TraceAudit -> bool {
    (a: TraceAudit) => a.action == TraceImported
  }

  lemma {:induction false} LoggedMore(audits: seq<TraceAudit>, a: TraceAudit, action: TraceAction, id: nat)
    ensures Logged(audits + [a], action, id)
       <==> Logged(audits, action, id) || (a.action == action && a.resourceID == id)
  {
    var more := audits + [a];
    if Logged(audits, action, id) {
      var k :| 0 <= k < |audits| && audits[k].action == action && audits[k].resourceID == id;
      assert more[k] == audits[k];
    }
    assert more[|audits|] == a;
  }

  /** The trace numbers handed out so far are those of the stored traces, and each import has its entry. */
  ghost predicate ImportsLogged(t: Tables) {
    && Count(t.audits, Imports()) + 1 == t.nextTraceID
    && (forall id: nat :: id in t.traces <==> 1 <= id < t.nextTraceID)
    && (forall id: nat :: Logged(t.audits, TraceImported, id) <==> id in t.traces)
  }

  /** A marker counts as reviewed exactly if the log has a review of it. */
  ghost predicate ReviewsLogged(t: Tables) {
    forall id: nat :: Logged(t.audits, EventReviewed, id) <==> id in t.markers && t.markers[id].reviewed
  }

  /** A trace has a latest detection exactly if the log has a detection on it. */
  ghost predicate DetectionsLogged(audits: seq<TraceAudit>, latest: map<nat, Batch>) {
    forall id: nat :: Logged(audits, EventsDetected, id) <==> id in latest
  }

  predicate AllSigned(audits: seq<TraceAudit>) {
    forall k :: 0 <= k < |audits| ==> !Blank(audits[k].requestID)
  }

  ghost predicate LogInv(s: Store) {
    && ImportsLogged(s.tables) && ReviewsLogged(s.tables) && DetectionsLogged(s.tables.audits, s.latest)
    && AllSigned(s.tables.audits)
  }

  /** One more entry reports one more thing. */
  lemma {:induction false} LoggedAll(audits: seq<TraceAudit>, a: TraceAudit)
    ensures forall action, id: nat :: Logged(audits + [a], action, id)
                                      <==> Logged(audits, action, id) || (a.action == action && a.resourceID == id)
  {
    forall action, id: nat
      ensures Logged(audits + [a], action, id)
         <==> Logged(audits, action, id) || (a.action == action && a.resourceID == id)
    {
      LoggedMore(audits, a, action, id);
    }
  }

  lemma {:induction false} ImportLogs(s: Store, call: nat, trace: Trace, requestID: string)
    requires LogInv(s) && !Blank(requestID)
    ensures LogInv(CommitImport(s, call, trace, requestID))
  {
    var a := TraceAudit(TraceImported, s.tables.nextTraceID, requestID);
    CountLast(s.tables.audits, a, Imports());
    LoggedAll(s.tables.audits, a);
  }

  lemma {:induction false} DetectionLogs(s: Store, call: nat, d: DetectionRun, requestID: string)
    requires LogInv(s) && MarkersOK(s.tables.markers, s.tables.nextMarkerID) && !Blank(requestID)
    requires d.traceID in s.tables.traces
    ensures LogInv(CommitDetection(s, call, d, requestID))
  {
    var a := TraceAudit(EventsDetected, d.traceID, requestID);
    var t := CommitDetection(s, call, d, requestID);
    DetectionCommits(s, call, d, requestID);
    ReplacedReviewed(s.tables.markers, s.tables.nextMarkerID, d.traceID, d.detected.events, t.tables.markers);
    DetectionAgrees(s, t, a);
  }

  /** What a detection does to the log and to the keys of the tables. */
  lemma {:induction false} DetectionCommits(s: Store, call: nat, d: DetectionRun, requestID: string)
    requires d.traceID in s.tables.traces
    ensures var t := CommitDetection(s, call, d, requestID);
            && t.tables.audits == s.tables.audits + [TraceAudit(EventsDetected, d.traceID, requestID)]
            && t.tables.traces.Keys == s.tables.traces.Keys && t.tables.nextTraceID == s.tables.nextTraceID
            && t.latest.Keys == s.latest.Keys + {d.traceID}
            && t.tables.markers == Inserted(Cleared(s.tables.markers, d.traceID), s.tables.nextMarkerID,
                                            MarkersOf(d.traceID, d.detected.events))
  {
  }

  lemma {:induction false} DetectionAgrees(s: Store, t: Store, a: TraceAudit)
    requires LogInv(s) && a.action == EventsDetected && a.resourceID in s.tables.traces && !Blank(a.requestID)
    requires t.tables.audits == s.tables.audits + [a]
    requires t.tables.traces.Keys == s.tables.traces.Keys && t.tables.nextTraceID == s.tables.nextTraceID
    requires t.latest.Keys == s.latest.Keys + {a.resourceID}
    requires forall id: nat :: id in t.tables.markers && t.tables.markers[id].reviewed
               <==> id in s.tables.markers && s.tables.markers[id].reviewed
    ensures LogInv(t)
  {
    ImportsUnchanged(s.tables, t.tables, a);
    ReviewsUnchanged(s.tables, t.tables, a);
    OneMoreDetected(s.tables.audits, a, s.latest, t.latest);
  }

  lemma {:induction false} ReviewsUnchanged(before: Tables, after: Tables, a: TraceAudit)
    requires ReviewsLogged(before) && a.action != EventReviewed && after.audits == before.audits + [a]
    requires forall id: nat :: id in after.markers && after.markers[id].reviewed
               <==> id in before.markers && before.markers[id].reviewed
    ensures ReviewsLogged(after)
  {
    LoggedAll(before.audits, a);
  }

  lemma {:induction false} OneMoreDetected(audits: seq<TraceAudit>, a: TraceAudit, before: map<nat, Batch>,
      after: map<nat, Batch>)
    requires DetectionsLogged(audits, before) && a.action == EventsDetected
    requires after.Keys == before.Keys + {a.resourceID}
    ensures DetectionsLogged(audits + [a], after)
  {
    LoggedAll(audits, a);
  }

  /** An entry of another kind says nothing about imports. */
  lemma {:induction false} ImportsUnchanged(before: Tables, after: Tables, a: TraceAudit)
    requires ImportsLogged(before) && a.action != TraceImported && after.audits == before.audits + [a]
    requires after.traces.Keys == before.traces.Keys && after.nextTraceID == before.nextTraceID
    ensures ImportsLogged(after)
  {
    CountLast(before.audits, a, Imports());
    LoggedAll(before.audits, a);
    forall id: nat ensures id in after.traces <==> id in before.traces {
      assert id in after.traces.Keys <==> id in before.traces.Keys;
    }
  }

  /** Replacing the markers of a trace neither drops nor adds a reviewed one. */
  lemma {:induction false} ReplacedReviewed(before: map<nat, Marker>, next: nat, traceID: nat,
      events: seq<Detection.DetectedEvent>, after: map<nat, Marker>)
    requires MarkersOK(before, next)
    requires after == Inserted(Cleared(before, traceID), next, MarkersOf(traceID, events))
    ensures forall id: nat :: id in after && after[id].reviewed <==> id in before && before[id].reviewed
  {
    forall id: nat
      ensures id in after && after[id].reviewed <==> id in before && before[id].reviewed
    {
      TraceInvariants.InsertedExact(Cleared(before, traceID), next, MarkersOf(traceID, events), id);
    }
  }

  lemma {:induction false} ReviewLogs(s: Store, call: nat, id: nat, m: Marker, requestID: string)
    requires LogInv(s) && !Blank(requestID) && id in s.tables.markers
    ensures LogInv(CommitReview(s, call, id, m, requestID))
  {
    var a := TraceAudit(EventReviewed, id, requestID);
    CountLast(s.tables.audits, a, Imports());
    LoggedAll(s.tables.audits, a);
  }

  lemma {:induction false} JobLogs(s: Store, call: nat, job: Job, requestID: string)
    requires LogInv(s) && MarkersOK(s.tables.markers, s.tables.nextMarkerID) && Ready(job) && !Blank(requestID)
    ensures LogInv(CommitJob(s, call, job, requestID))
  {
    match job
    case Importing(trace) => ImportLogs(s, call, trace, requestID);
    case Detecting(d) => if d.traceID in s.tables.traces { DetectionLogs(s, call, d, requestID); }
    case Reviewing(id, m) => if id in s.tables.markers { ReviewLogs(s, call, id, m, requestID); }
  }

  /** A step that commits nothing leaves the log alone. */
  lemma {:induction false} ReadsKeepLog(s: Store, e: StoreEvent)
    requires !e.Commit?
    ensures ApplyStore(s, e).tables.audits == s.tables.audits && ApplyStore(s, e).latest == s.latest
  {
  }

  lemma {:induction false} StepLogs(s: Store, e: StoreEvent)
    requires LogInv(s) && MarkersOK(s.tables.markers, s.tables.nextMarkerID)
    ensures LogInv(ApplyStore(s, e))
  {
    if e.Commit? {
      if e.call in s.calls && Ready(s.calls[e.call].job) && !Blank(s.calls[e.call].requestID) {
        JobLogs(s, e.call, s.calls[e.call].job, s.calls[e.call].requestID);
      }
    } else {
      ReadsKeepLog(s, e);
      TraceInvariants.ReadsKeepRows(s, e);
    }
  }

  lemma {:induction false} RunLogs(s: Store, es: seq<StoreEvent>)
    requires StoreInv(s) && LogInv(s)
    ensures LogInv(RunStore(s, es))
    decreases |es|
  {
    if es == [] {
    } else {
      StepLogs(s, es[0]);
      TraceInvariants.StepKeepsStore(s, es[0]);
      RunLogs(ApplyStore(s, es[0]), es[1..]);
    }
  }

  lemma {:induction false} EmptyLogged(s: Store)
    requires s.tables.audits == [] && s.tables.traces == map[] && s.tables.markers == map[]
    requires s.tables.nextTraceID == 1 && s.latest == map[]
    ensures LogInv(s)
  {
  }

  lemma {:induction false} EmptySound(s: Store)
    requires s.tables.traces == map[] && s.tables.markers == map[] && s.latest == map[] && s.calls == map[]
    ensures StoreInv(s)
  {
  }

  /**
   In every reachable store the log has one entry per trace ever imported, a trace has a latest detection exactly
   if a detection on it is logged, a marker counts as reviewed exactly if a review of it is logged, and no entry
   lacks a request id.
   */
  lemma {:induction false} LogAgrees(es: seq<StoreEvent>)
    ensures LogInv(RunStore(EmptyStore(), es))
  {
    EmptyLogged(EmptyStore());
    EmptySound(EmptyStore());
    RunLogs(EmptyStore(), es);
  }
}
