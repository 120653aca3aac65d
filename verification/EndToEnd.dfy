/**
 The whole backend in one machine: the trace store and the case run side by side, an analysis loads the
 markers of its two traces at two different moments, and anything may happen in between.
 */
module EndToEnd {
  import opened Wrappers
  import opened Comparison
  import opened OrderIndependence
  import opened DifferenceLaws
  import opened EstimateDeterminism
  import opened TraceStore
  import TraceInvariants
  import StoreRuns
  import opened EventLoading
  import opened CaseLifecycle
  import CaseInvariants
  import CaseRuns
  import opened CaseService

  /** What an analysis has loaded so far. */
  datatype Loads = Loads(baseline: Option<seq<ComparableEvent>>, current: Option<seq<ComparableEvent>>)

  datatype Joint = Joint(store: Store, system: System, loads: map<nat, Loads>)

  datatype JointEvent =
    | StoreStep(step: StoreEvent)
    | CaseStep(event: Event)
    | LoadBaseline(worker: nat, events: seq<ComparableEvent>)
    | LoadCurrent(worker: nat, events: seq<ComparableEvent>)
    | Compare(worker: nat, loadError: string, outcome: Outcome)

  function NewJoint(clock: int): Joint {
    Joint(EmptyStore(), Initial(clock), map[])
  }

  predicate BelongsToRoute(store: Store, traceID: nat, routeID: nat) {
    traceID in store.tables.traces && store.tables.traces[traceID].routeID == routeID
  }

  /** A case step on its own: comparing is a joint step, and `Create` looks its traces up. */
  predicate Enabled(j: Joint, e: Event) {
    && !e.Compute?
    && (e.Create? ==>
          && e.baselineBelongs == BelongsToRoute(j.store, e.create.baselineTraceID, e.create.routeID)
          && e.currentBelongs == BelongsToRoute(j.store, e.create.currentTraceID, e.create.routeID))
  }

  predicate IsWorking(s: System, w: nat) {
    w in s.workers && s.workers[w].stage.Working?
  }

  predicate IsBusy(s: System, w: nat) {
    w in s.workers && Busy(s.workers[w].stage)
  }

  /** A call's local lists live as long as the call. */
  function Moved(j: Joint, s: System): Joint {
    Joint(j.store, s, map w | w in j.loads && IsBusy(s, w) :: j.loads[w])
  }

  function LoadsOf(j: Joint, w: nat): Loads {
    if w in j.loads then j.loads[w] else Loads(None, None)
  }

  function OrEmpty(events: Option<seq<ComparableEvent>>): seq<ComparableEvent> {
    if events.Some? then events.value else []
  }

  /** `compareEvents` reports a load error, or has both lists. */
  predicate MayCompare(j: Joint, w: nat, loadError: string, outcome: Outcome) {
    && IsWorking(j.system, w)
    && (loadError == "" ==> LoadsOf(j, w).baseline.Some? && LoadsOf(j, w).current.Some?)
    && IsOutcome(outcome, loadError, OrEmpty(LoadsOf(j, w).baseline), OrEmpty(LoadsOf(j, w).current),
                 EffectiveParameters(j.system.workers[w].request, j.system.workers[w].stage.item.parameters))
  }

  function ApplyJoint(j: Joint, e: JointEvent): Joint {
    match e
    case StoreStep(step) => j.(store := ApplyStore(j.store, step))
    case CaseStep(event) => if Enabled(j, event) then Moved(j, Apply(j.system, event)) else j
    case LoadBaseline(w, events) =>
      if IsWorking(j.system, w)
         && IsLoaded(events, j.store.tables.markers, j.system.workers[w].stage.item.baselineTraceID)
      then j.(loads := j.loads[w := Loads(Some(events), None)]) else j
    case LoadCurrent(w, events) =>
      if IsWorking(j.system, w) && LoadsOf(j, w).baseline.Some?
         && IsLoaded(events, j.store.tables.markers, j.system.workers[w].stage.item.currentTraceID)
      then j.(loads := j.loads[w := Loads(LoadsOf(j, w).baseline, Some(events))]) else j
    case Compare(w, loadError, outcome) =>
      if MayCompare(j, w, loadError, outcome) then Moved(j, Apply(j.system, Compute(w, outcome))) else j
  }

  function RunJoint(clock: int, es: seq<JointEvent>): Joint
    decreases |es|
  {
    if es == [] then NewJoint(clock) else ApplyJoint(RunJoint(clock, es[..|es| - 1]), es[|es| - 1])
  }

  // ---- Each part on its own ----

  function StoreTrace(e: JointEvent): seq<StoreEvent> {
    if e.StoreStep? then [e.step] else []
  }

  function CaseTrace(j: Joint, e: JointEvent): seq<Event> {
    match e
    case CaseStep(event) => if Enabled(j, event) then [event] else []
    case Compare(w, loadError, outcome) => if MayCompare(j, w, loadError, outcome) then [Compute(w, outcome)] else []
    case _ => []
  }

  function StoreEvents(es: seq<JointEvent>): seq<StoreEvent> {
    if es == [] then [] else StoreEvents(es[..|es| - 1]) + StoreTrace(es[|es| - 1])
  }

  function CaseEvents(clock: int, es: seq<JointEvent>): seq<Event> {
    if es == [] then []
    else CaseEvents(clock, es[..|es| - 1]) + CaseTrace(RunJoint(clock, es[..|es| - 1]), es[|es| - 1])
  }

  /** Every joint run is a run of the store and a run of the case, so all that holds of those holds here. */
  lemma {:induction false} JointProjects(clock: int, es: seq<JointEvent>)
    ensures RunJoint(clock, es).store == RunStore(EmptyStore(), StoreEvents(es))
    ensures RunJoint(clock, es).system == Run(Initial(clock), CaseEvents(clock, es))
    decreases |es|
  {
    if es == [] {
    } else {
      var before, e := es[..|es| - 1], es[|es| - 1];
      JointProjects(clock, before);
      var j := RunJoint(clock, before);
      StoreRuns.RunStoreConcat(EmptyStore(), StoreEvents(before), StoreTrace(e));
      CaseRuns.RunConcat(Initial(clock), CaseEvents(clock, before), CaseTrace(j, e));
      if e.StoreStep? { assert [e.step][1..] == []; }
      if CaseTrace(j, e) != [] { CaseRuns.RunOne(j.system, CaseTrace(j, e)[0]); }
    }
  }

  lemma JointInv(clock: int, es: seq<JointEvent>)
    ensures StoreInv(RunJoint(clock, es).store)
    ensures CaseInvariants.Inv(RunJoint(clock, es).system)
  {
    JointProjects(clock, es);
    TraceInvariants.RunKeepsStore(EmptyStore(), StoreEvents(es));
    CaseInvariants.RunKeepsInv(Initial(clock), CaseEvents(clock, es));
  }

  // ---- Where a report comes from ----

  /** A run with all the states it went through, one more than steps. */
  datatype Trail = Trail(steps: seq<JointEvent>, states: seq<Joint>)

  predicate IsTrail(r: Trail) {
    |r.states| == |r.steps| + 1
  }

  function Last(r: Trail): Joint
    requires IsTrail(r)
  {
    r.states[|r.steps|]
  }

  function Extended(r: Trail, e: JointEvent, t: Joint): (u: Trail)
    requires IsTrail(r)
    ensures IsTrail(u) && Last(u) == t
  {
    Trail(r.steps + [e], r.states + [t])
  }

  /** The first `n` steps. */
  function Upto(r: Trail, n: nat): (u: Trail)
    requires IsTrail(r) && n <= |r.steps|
    ensures IsTrail(u)
  {
    Trail(r.steps[..n], r.states[..n + 1])
  }

  function TrailOf(clock: int, es: seq<JointEvent>): (r: Trail)
    ensures IsTrail(r) && r.steps == es && Last(r) == RunJoint(clock, es)
    decreases |es|
  {
    if es == [] then Trail([], [NewJoint(clock)])
    else
      var r := TrailOf(clock, es[..|es| - 1]);
      Extended(r, es[|es| - 1], ApplyJoint(Last(r), es[|es| - 1]))
  }

  lemma {:induction false} TrailAt(clock: int, es: seq<JointEvent>, n: nat)
    requires n <= |es|
    ensures TrailOf(clock, es).states[n] == RunJoint(clock, es[..n])
    decreases |es|
  {
    if n == |es| {
      assert es[..n] == es;
    } else {
      TrailAt(clock, es[..|es| - 1], n);
      assert es[..|es| - 1][..n] == es[..n];
    }
  }

  /** A call's stay in the run: when it started, and when it loaded its two lists. */
  datatype Session = Session(call: nat, start: nat, baselineAt: nat, currentAt: nat)

  /** Step `start` started the call, and it has been at work ever since. */
  ghost predicate AtWork(r: Trail, call: nat, start: nat)
    requires IsTrail(r)
  {
    && start < |r.steps|
    && r.steps[start].CaseStep? && r.steps[start].event.Start? && r.steps[start].event.worker == call
    && !IsBusy(r.states[start].system, call)
    && forall n :: start < n <= |r.steps| ==> IsBusy(r.states[n].system, call)
  }

  /** The lists were what the store held for the two traces, at two moments of the stay, baseline first. */
  ghost predicate LoadedIn(r: Trail, s: Session, l: Loads, baselineTraceID: nat, currentTraceID: nat)
    requires IsTrail(r)
  {
    && (l.baseline.Some? ==>
          && s.start < s.baselineAt <= |r.steps|
          && IsLoaded(l.baseline.value, r.states[s.baselineAt].store.tables.markers, baselineTraceID))
    && (l.current.Some? ==>
          && l.baseline.Some? && s.baselineAt <= s.currentAt <= |r.steps|
          && IsLoaded(l.current.value, r.states[s.currentAt].store.tables.markers, currentTraceID))
  }

  ghost predicate InSession(r: Trail, s: Session, l: Loads, baselineTraceID: nat, currentTraceID: nat)
    requires IsTrail(r)
  {
    AtWork(r, s.call, s.start) && LoadedIn(r, s, l, baselineTraceID, currentTraceID)
  }

  /** What a call has loaded, it has loaded since its start. */
  ghost predicate LoadsFrom(r: Trail, call: nat, l: Loads, baselineTraceID: nat, currentTraceID: nat)
    requires IsTrail(r)
  {
    exists s: Session :: s.call == call && InSession(r, s, l, baselineTraceID, currentTraceID)
  }

  lemma {:induction false} AtWorkStays(r: Trail, e: JointEvent, t: Joint, call: nat, start: nat)
    requires IsTrail(r) && AtWork(r, call, start) && IsBusy(t.system, call)
    ensures AtWork(Extended(r, e, t), call, start)
  {
    var u := Extended(r, e, t);
    forall n | start < n <= |u.steps| ensures IsBusy(u.states[n].system, call) {
      if n <= |r.steps| { assert u.states[n] == r.states[n]; }
    }
  }

  lemma {:induction false} AtWorkBegins(r: Trail, e: JointEvent, t: Joint, call: nat)
    requires IsTrail(r) && e.CaseStep? && e.event.Start? && e.event.worker == call
    requires !IsBusy(Last(r).system, call) && IsBusy(t.system, call)
    ensures AtWork(Extended(r, e, t), call, |r.steps|)
  {
  }

  lemma {:induction false} LoadsStay(r: Trail, e: JointEvent, t: Joint, call: nat, l: Loads, a: nat, b: nat)
    requires IsTrail(r) && LoadsFrom(r, call, l, a, b) && IsBusy(t.system, call)
    ensures LoadsFrom(Extended(r, e, t), call, l, a, b)
  {
    var s: Session :| s.call == call && InSession(r, s, l, a, b);
    AtWorkStays(r, e, t, call, s.start);
    assert InSession(Extended(r, e, t), s, l, a, b);
  }

  /** A successful result is a comparison of two non-empty lists. */
  predicate IsReport(l: Loads, p: CaseParameters, differences: seq<Difference>) {
    && l.baseline.Some? && l.current.Some? && l.baseline.value != [] && l.current.value != []
    && IsComparison(l.baseline.value, l.current.value, p.distanceToleranceM, p.lossIncreaseDB, differences)
  }

  /** Call `w` has a result: these differences, under parameters chosen from its request and the case it read. */
  predicate HasReport(s: System, w: nat, differences: seq<Difference>, p: CaseParameters) {
    && w in s.workers && s.workers[w].stage.HasResult? && s.workers[w].stage.outcome == Success(differences)
    && ParametersChosen(p, s.workers[w].request, s.workers[w].stage.item.parameters)
  }

  /** Step `at` is the save of the call by which the case got its report. */
  ghost predicate SavedAt(r: Trail, call: nat, at: nat, row: CaseRow)
    requires IsTrail(r)
  {
    && at < |r.steps| && r.steps[at] == CaseStep(Save(call))
    && HasReport(r.states[at].system, call, row.differences, row.parameters)
    && var before, after := r.states[at].system.db.row, r.states[at + 1].system.db.row;
       && before.Some? && !Settled(before.value)
       && after.Some? && Settled(after.value) && SameReport(after.value, row)
  }

  /** The report of `row` was saved at step `at` by a call that compared what it had loaded since its start. */
  ghost predicate SupportedBy(r: Trail, row: CaseRow, s: Session, l: Loads, at: nat)
    requires IsTrail(r)
  {
    && SavedAt(r, s.call, at, row)
    && InSession(Upto(r, at), s, l, row.baselineTraceID, row.currentTraceID)
    && IsReport(l, row.parameters, row.differences)
  }

  ghost predicate Supported(r: Trail, row: CaseRow)
    requires IsTrail(r)
  {
    exists s: Session, l: Loads, at: nat :: SupportedBy(r, row, s, l, at)
  }

  predicate SameTraces(a: CaseRow, b: CaseRow) {
    a.routeID == b.routeID && a.baselineTraceID == b.baselineTraceID && a.currentTraceID == b.currentTraceID
  }

  predicate HasItem(stage: Stage) {
    !stage.MustReload?
  }

  /** Every call works on the traces of the stored case. */
  predicate ItemsMatch(s: System) {
    forall w :: w in s.workers && HasItem(s.workers[w].stage) ==>
      s.db.row.Some? && SameTraces(s.workers[w].stage.item, s.db.row.value)
  }

  lemma RowKeepsTraces(s: System, e: Event)
    requires s.db.row.Some?
    ensures Apply(s, e).db.row.Some? && SameTraces(s.db.row.value, Apply(s, e).db.row.value)
  {
  }

  /** A call either keeps its item or takes the stored one. */
  lemma ItemOrigin(s: System, e: Event, w: nat)
    requires var t := Apply(s, e); w in t.workers && HasItem(t.workers[w].stage)
    ensures var item := Apply(s, e).workers[w].stage.item;
            || (s.db.row.Some? && item == s.db.row.value)
            || (w in s.workers && HasItem(s.workers[w].stage) && SameTraces(item, s.workers[w].stage.item))
  {
  }

  lemma ItemsStep(s: System, e: Event)
    requires ItemsMatch(s)
    ensures ItemsMatch(Apply(s, e))
  {
    forall w | w in Apply(s, e).workers && HasItem(Apply(s, e).workers[w].stage)
      ensures Apply(s, e).db.row.Some? && SameTraces(Apply(s, e).workers[w].stage.item, Apply(s, e).db.row.value)
    {
      ItemOrigin(s, e, w);
      RowKeepsTraces(s, e);
    }
  }

  /** What a call with a result holds. */
  predicate ResultBacked(worker: Worker, l: Loads) {
    worker.stage.HasResult? && worker.stage.outcome.Success? ==>
      IsReport(l, EffectiveParameters(worker.request, worker.stage.item.parameters), worker.stage.outcome.differences)
  }

  predicate ResultsBacked(j: Joint) {
    && (forall w :: w in j.loads ==> IsBusy(j.system, w))
    && (forall w :: w in j.system.workers ==> ResultBacked(j.system.workers[w], LoadsOf(j, w)))
  }

  /** Only `Compute` gives a call its result. */
  lemma ResultOrigin(s: System, e: Event, w: nat)
    requires !e.Compute?
    requires var t := Apply(s, e); w in t.workers && t.workers[w].stage.HasResult?
    ensures w in s.workers && s.workers[w] == Apply(s, e).workers[w]
  {
  }

  lemma CaseKeepsResults(j: Joint, e: Event)
    requires ResultsBacked(j) && !e.Compute?
    ensures ResultsBacked(Moved(j, Apply(j.system, e)))
  {
    var t := Moved(j, Apply(j.system, e));
    forall w | w in t.system.workers
      ensures ResultBacked(t.system.workers[w], LoadsOf(t, w))
    {
      if t.system.workers[w].stage.HasResult? {
        ResultOrigin(j.system, e, w);
        assert ResultBacked(j.system.workers[w], LoadsOf(j, w));
      }
    }
  }

  lemma CompareKeepsResults(j: Joint, w: nat, loadError: string, outcome: Outcome)
    requires ResultsBacked(j) && MayCompare(j, w, loadError, outcome)
    ensures ResultsBacked(Moved(j, Apply(j.system, Compute(w, outcome))))
  {
    var t := Moved(j, Apply(j.system, Compute(w, outcome)));
    forall v | v in t.system.workers
      ensures ResultBacked(t.system.workers[v], LoadsOf(t, v))
    {
      assert ResultBacked(j.system.workers[v], LoadsOf(j, v));
    }
  }

  lemma LoadKeepsResults(j: Joint, w: nat, l: Loads)
    requires ResultsBacked(j) && IsWorking(j.system, w)
    ensures ResultsBacked(j.(loads := j.loads[w := l]))
  {
    var t := j.(loads := j.loads[w := l]);
    forall v | v in t.system.workers
      ensures ResultBacked(t.system.workers[v], LoadsOf(t, v))
    {
      assert ResultBacked(j.system.workers[v], LoadsOf(j, v));
    }
  }

  lemma StepKeepsResults(j: Joint, e: JointEvent)
    requires ResultsBacked(j)
    ensures ResultsBacked(ApplyJoint(j, e))
  {
    match e
    case CaseStep(event) => if Enabled(j, event) { CaseKeepsResults(j, event); }
    case LoadBaseline(w, events) => if ApplyJoint(j, e) != j { LoadKeepsResults(j, w, Loads(Some(events), None)); }
    case LoadCurrent(w, events) =>
      if ApplyJoint(j, e) != j { LoadKeepsResults(j, w, Loads(LoadsOf(j, w).baseline, Some(events))); }
    case Compare(w, loadError, outcome) =>
      if MayCompare(j, w, loadError, outcome) { CompareKeepsResults(j, w, loadError, outcome); }
    case StoreStep(_) => assert forall w :: LoadsOf(ApplyJoint(j, e), w) == LoadsOf(j, w);
  }

  // ---- The invariant that ties results to the store ----

  predicate Settled(row: CaseRow) {
    row.caseStatus == PendingReview || row.caseStatus == Confirmed || row.caseStatus == Closed
  }

  /** Every call at work has loaded what it holds since its own start. */
  ghost predicate LoadsTraced(r: Trail)
    requires IsTrail(r)
  {
    var j := Last(r);
    forall w :: IsBusy(j.system, w) ==>
      LoadsFrom(r, w, LoadsOf(j, w), ItemOf(j.system, w).baselineTraceID, ItemOf(j.system, w).currentTraceID)
  }

  /** The case a busy call works on, as it read it. */
  function ItemOf(s: System, w: nat): CaseRow
    requires IsBusy(s, w)
  {
    s.workers[w].stage.item
  }

  ghost predicate ReportSupportedIn(r: Trail)
    requires IsTrail(r)
  {
    var row := Last(r).system.db.row;
    row.Some? && Settled(row.value) ==> Supported(r, row.value)
  }

  ghost predicate TrailOK(r: Trail)
    requires IsTrail(r)
  {
    && ItemsMatch(Last(r).system)
    && ResultsBacked(Last(r))
    && LoadsTraced(r)
    && ReportSupportedIn(r)
  }

  lemma {:induction false} UptoStays(r: Trail, e: JointEvent, t: Joint, n: nat)
    requires IsTrail(r) && n <= |r.steps|
    ensures Upto(Extended(r, e, t), n) == Upto(r, n)
  {
    assert (r.steps + [e])[..n] == r.steps[..n] && (r.states + [t])[..n + 1] == r.states[..n + 1];
  }

  lemma {:induction false} SavedStays(r: Trail, e: JointEvent, t: Joint, call: nat, at: nat, a: CaseRow, b: CaseRow)
    requires IsTrail(r) && SavedAt(r, call, at, a) && SameReport(a, b)
    ensures SavedAt(Extended(r, e, t), call, at, b)
  {
  }

  lemma {:induction false} SupportedByStays(r: Trail, e: JointEvent, t: Joint, a: CaseRow, b: CaseRow,
      s: Session, l: Loads, at: nat)
    requires IsTrail(r) && SupportedBy(r, a, s, l, at) && SameReport(a, b)
    ensures SupportedBy(Extended(r, e, t), b, s, l, at)
  {
    SavedStays(r, e, t, s.call, at, a, b);
    UptoStays(r, e, t, at);
  }

  lemma {:induction false} SupportStays(r: Trail, e: JointEvent, t: Joint, a: CaseRow, b: CaseRow)
    requires IsTrail(r) && Supported(r, a) && SameReport(a, b)
    ensures Supported(Extended(r, e, t), b)
  {
    var s: Session, l: Loads, at: nat :| SupportedBy(r, a, s, l, at);
    SupportedByStays(r, e, t, a, b, s, l, at);
  }

  /** A busy call was busy before, with the same item, or this step is its start. */
  lemma BusyOrigin(s: System, e: Event, w: nat)
    requires IsBusy(Apply(s, e), w)
    ensures if IsBusy(s, w) then Apply(s, e).workers[w].stage.item == s.workers[w].stage.item
            else e.Start? && e.worker == w
  {
  }

  /** What a joint step does to the case part: nothing, or one case event. */
  lemma StepOrigin(j: Joint, e: JointEvent)
    ensures if CaseTrace(j, e) == [] then ApplyJoint(j, e).system == j.system
            else ApplyJoint(j, e) == Moved(j, Apply(j.system, CaseTrace(j, e)[0]))
  {
  }

  lemma {:induction false} MovedLoads(j: Joint, t: System, w: nat)
    requires ResultsBacked(j) && IsBusy(t, w)
    ensures LoadsOf(Moved(j, t), w) == LoadsOf(j, w)
    ensures !IsBusy(j.system, w) ==> LoadsOf(j, w) == Loads(None, None)
  {
  }

  /** What a call holds after a case event: what it held before, or nothing yet. */
  lemma {:induction false} LoadsMoved(r: Trail, e: JointEvent, t: Joint, w: nat, a: nat, b: nat)
    requires IsTrail(r) && IsBusy(t.system, w) && LoadsOf(t, w) == LoadsOf(Last(r), w)
    requires if IsBusy(Last(r).system, w) then LoadsFrom(r, w, LoadsOf(t, w), a, b)
             else LoadsOf(t, w) == Loads(None, None) && e.CaseStep? && e.event.Start? && e.event.worker == w
    ensures LoadsFrom(Extended(r, e, t), w, LoadsOf(t, w), a, b)
  {
    if IsBusy(Last(r).system, w) {
      LoadsStay(r, e, t, w, LoadsOf(t, w), a, b);
    } else {
      AtWorkBegins(r, e, t, w);
      assert InSession(Extended(r, e, t), Session(w, |r.steps|, 0, 0), Loads(None, None), a, b);
    }
  }

  lemma {:induction false} MovedKeepsLoads(r: Trail, e: JointEvent)
    requires IsTrail(r) && LoadsTraced(r) && ResultsBacked(Last(r)) && CaseTrace(Last(r), e) != []
    ensures LoadsTraced(Extended(r, e, ApplyJoint(Last(r), e)))
  {
    var j := Last(r);
    var t := ApplyJoint(j, e);
    StepOrigin(j, e);
    forall w | IsBusy(t.system, w)
      ensures LoadsFrom(Extended(r, e, t), w, LoadsOf(t, w), ItemOf(t.system, w).baselineTraceID,
                        ItemOf(t.system, w).currentTraceID)
    {
      MovedLoads(j, t.system, w);
      BusyOrigin(j.system, CaseTrace(j, e)[0], w);
      LoadsMoved(r, e, t, w, ItemOf(t.system, w).baselineTraceID, ItemOf(t.system, w).currentTraceID);
    }
  }

  /** A settled row was settled before with the same report, or a call with a successful result just saved it. */
  lemma SettledOrigin(s: System, e: Event)
    requires Apply(s, e).db.row.Some? && Settled(Apply(s, e).db.row.value)
    ensures s.db.row.Some?
    ensures var row := Apply(s, e).db.row.value;
            || (Settled(s.db.row.value) && SameReport(s.db.row.value, row))
            || SavedBy(s, e, row)
  {
  }

  predicate SameReport(a: CaseRow, b: CaseRow) {
    SameTraces(a, b) && a.parameters == b.parameters && a.differences == b.differences
  }

  predicate SavedBy(s: System, e: Event, row: CaseRow) {
    && e.Save? && e.worker in s.workers && s.workers[e.worker].stage.HasResult?
    && s.workers[e.worker].stage.outcome.Success?
    && s.db.row.Some? && !Settled(s.db.row.value) && SameTraces(s.db.row.value, row)
    && row.differences == s.workers[e.worker].stage.outcome.differences
    && row.parameters == EffectiveParameters(s.workers[e.worker].request, s.workers[e.worker].stage.item.parameters)
  }

  /** The step that settles a case is the save of a call that holds what it compared. */
  lemma {:induction false} SaveSupports(r: Trail, t: Joint, w: nat)
    requires IsTrail(r) && ResultsBacked(Last(r)) && LoadsTraced(r) && ItemsMatch(Last(r).system)
    requires var row := t.system.db.row;
             row.Some? && Settled(row.value) && SavedBy(Last(r).system, Save(w), row.value)
    ensures Supported(Extended(r, CaseStep(Save(w)), t), t.system.db.row.value)
  {
    var j, row := Last(r), t.system.db.row.value;
    var l := LoadsOf(j, w);
    assert ResultBacked(j.system.workers[w], l);
    assert IsBusy(j.system, w);
    var s: Session :| s.call == w && InSession(r, s, l, row.baselineTraceID, row.currentTraceID);
    var u := Extended(r, CaseStep(Save(w)), t);
    assert Upto(u, |r.steps|) == r;
    EffectiveExactly(j.system.workers[w].request, j.system.workers[w].stage.item.parameters, row.parameters);
    assert SupportedBy(u, row, s, l, |r.steps|);
  }

  /** A report stays supported, or a save has just supported it. */
  lemma {:induction false} ReportMoves(r: Trail, e: JointEvent, t: Joint, event: Event)
    requires IsTrail(r) && TrailOK(r) && Last(r).system.db.row.Some? && t.system.db.row.Some?
    requires var before, after := Last(r).system.db.row.value, t.system.db.row.value;
             || (Settled(before) && SameReport(before, after))
             || (Settled(after) && SavedBy(Last(r).system, event, after) && e == CaseStep(event))
    ensures ReportSupportedIn(Extended(r, e, t))
  {
    var before, after := Last(r).system.db.row.value, t.system.db.row.value;
    if Settled(before) && SameReport(before, after) {
      SupportStays(r, e, t, before, after);
    } else {
      SaveSupports(r, t, event.worker);
    }
  }

  lemma {:induction false} SaveIsCaseStep(j: Joint, e: JointEvent)
    requires CaseTrace(j, e) != [] && CaseTrace(j, e)[0].Save?
    ensures e == CaseStep(CaseTrace(j, e)[0])
  {
  }

  lemma {:induction false} MovedKeepsSupport(r: Trail, e: JointEvent)
    requires IsTrail(r) && TrailOK(r) && CaseTrace(Last(r), e) != []
    ensures ReportSupportedIn(Extended(r, e, ApplyJoint(Last(r), e)))
  {
    var j := Last(r);
    var t, event := ApplyJoint(j, e), CaseTrace(j, e)[0];
    StepOrigin(j, e);
    if t.system.db.row.Some? && Settled(t.system.db.row.value) {
      SettledOrigin(j.system, event);
      if event.Save? { SaveIsCaseStep(j, e); }
      ReportMoves(r, e, t, event);
    }
  }

  /** A step without a case event leaves a call's lists alone, or loads one of them from the store. */
  lemma {:induction false} LoadOrigin(j: Joint, e: JointEvent, w: nat)
    requires CaseTrace(j, e) == [] && IsBusy(j.system, w)
    ensures var t, item := ApplyJoint(j, e), j.system.workers[w].stage.item;
            || LoadsOf(t, w) == LoadsOf(j, w)
            || (e.LoadBaseline? && LoadsOf(t, w) == Loads(Some(e.events), None)
                && IsLoaded(e.events, t.store.tables.markers, item.baselineTraceID))
            || (e.LoadCurrent? && LoadsOf(j, w).baseline.Some?
                && LoadsOf(t, w) == Loads(LoadsOf(j, w).baseline, Some(e.events))
                && IsLoaded(e.events, t.store.tables.markers, item.currentTraceID))
  {
  }

  lemma {:induction false} BaselineLoaded(r: Trail, s: Session, events: seq<ComparableEvent>, a: nat, b: nat)
    requires IsTrail(r) && AtWork(r, s.call, s.start) && IsLoaded(events, Last(r).store.tables.markers, a)
    ensures LoadsFrom(r, s.call, Loads(Some(events), None), a, b)
  {
    assert InSession(r, s.(baselineAt := |r.steps|), Loads(Some(events), None), a, b);
  }

  lemma {:induction false} CurrentLoaded(r: Trail, s: Session, l: Loads, events: seq<ComparableEvent>, a: nat, b: nat)
    requires IsTrail(r) && InSession(r, s, l, a, b) && l.baseline.Some?
    requires IsLoaded(events, Last(r).store.tables.markers, b)
    ensures LoadsFrom(r, s.call, Loads(l.baseline, Some(events)), a, b)
  {
    assert InSession(r, s.(currentAt := |r.steps|), Loads(l.baseline, Some(events)), a, b);
  }

  /** What a working call holds after a step without a case event. */
  lemma {:induction false} LoadsAfter(r: Trail, e: JointEvent, w: nat, a: nat, b: nat)
    requires IsTrail(r) && CaseTrace(Last(r), e) == [] && IsBusy(Last(r).system, w)
    requires a == ItemOf(Last(r).system, w).baselineTraceID && b == ItemOf(Last(r).system, w).currentTraceID
    requires LoadsFrom(r, w, LoadsOf(Last(r), w), a, b)
    ensures var t := ApplyJoint(Last(r), e); LoadsFrom(Extended(r, e, t), w, LoadsOf(t, w), a, b)
  {
    var j := Last(r);
    var t := ApplyJoint(j, e);
    StepOrigin(j, e);
    LoadsStay(r, e, t, w, LoadsOf(j, w), a, b);
    LoadOrigin(j, e, w);
    if LoadsOf(t, w) != LoadsOf(j, w) {
      var s: Session :| s.call == w && InSession(Extended(r, e, t), s, LoadsOf(j, w), a, b);
      if e.LoadBaseline? {
        BaselineLoaded(Extended(r, e, t), s, e.events, a, b);
      } else {
        CurrentLoaded(Extended(r, e, t), s, LoadsOf(j, w), e.events, a, b);
      }
    }
  }

  /** A step that leaves the case part alone changes at most what one working call holds. */
  lemma {:induction false} LoadStep(r: Trail, e: JointEvent)
    requires IsTrail(r) && TrailOK(r) && CaseTrace(Last(r), e) == []
    ensures LoadsTraced(Extended(r, e, ApplyJoint(Last(r), e)))
    ensures ReportSupportedIn(Extended(r, e, ApplyJoint(Last(r), e)))
  {
    var j := Last(r);
    var t := ApplyJoint(j, e);
    StepOrigin(j, e);
    forall w | IsBusy(t.system, w)
      ensures LoadsFrom(Extended(r, e, t), w, LoadsOf(t, w), ItemOf(t.system, w).baselineTraceID,
                        ItemOf(t.system, w).currentTraceID)
    {
      LoadsAfter(r, e, w, ItemOf(j.system, w).baselineTraceID, ItemOf(j.system, w).currentTraceID);
    }
    if j.system.db.row.Some? && Settled(j.system.db.row.value) {
      SupportStays(r, e, t, j.system.db.row.value, j.system.db.row.value);
    }
  }

  lemma {:induction false} TrailStep(r: Trail, e: JointEvent)
    requires IsTrail(r) && TrailOK(r)
    ensures TrailOK(Extended(r, e, ApplyJoint(Last(r), e)))
  {
    var j := Last(r);
    StepOrigin(j, e);
    StepKeepsResults(j, e);
    if CaseTrace(j, e) == [] {
      LoadStep(r, e);
    } else {
      ItemsStep(j.system, CaseTrace(j, e)[0]);
      MovedKeepsLoads(r, e);
      MovedKeepsSupport(r, e);
    }
  }

  lemma {:induction false} RunOK(clock: int, es: seq<JointEvent>)
    ensures TrailOK(TrailOf(clock, es))
    decreases |es|
  {
    if es == [] {
    } else {
      RunOK(clock, es[..|es| - 1]);
      TrailStep(TrailOf(clock, es[..|es| - 1]), es[|es| - 1]);
    }
  }

  // ---- Main results ----

  /**
   The report of a case that has one, in any joint run, was saved by one call that was at work from its start
   to its save.  In between it loaded, in this order, what the store then held for the baseline trace and what
   it later held for the current trace; neither list is empty, all confidences are in range, and the report
   compares the two under the stored parameters.
   */
  lemma {:induction false} ReportSupported(clock: int, es: seq<JointEvent>) returns (s: Session, l: Loads, at: nat)
    requires var row := RunJoint(clock, es).system.db.row; row.Some? && Settled(row.value)
    ensures SupportedBy(TrailOf(clock, es), RunJoint(clock, es).system.db.row.value, s, l, at)
    ensures s.start < s.baselineAt <= s.currentAt <= at
    ensures ConfidentEvents(l.baseline.value) && ConfidentEvents(l.current.value)
  {
    RunOK(clock, es);
    var r, row := TrailOf(clock, es), RunJoint(clock, es).system.db.row.value;
    assert Supported(r, row);
    s, l, at :| SupportedBy(r, row, s, l, at);
    assert Upto(r, at).states[s.baselineAt] == r.states[s.baselineAt];
    assert Upto(r, at).states[s.currentAt] == r.states[s.currentAt];
    LoadedConfident(clock, es, s.baselineAt, l.baseline.value, row.baselineTraceID);
    LoadedConfident(clock, es, s.currentAt, l.current.value, row.currentTraceID);
  }

  lemma {:induction false} LoadedConfident(clock: int, es: seq<JointEvent>, n: nat, events: seq<ComparableEvent>,
      traceID: nat)
    requires n <= |es| && IsLoaded(events, TrailOf(clock, es).states[n].store.tables.markers, traceID)
    ensures ConfidentEvents(events)
  {
    TrailAt(clock, es, n);
    JointInv(clock, es[..n]);
    var tables := RunJoint(clock, es[..n]).store.tables;
    LoadedInRange(events, tables.markers, tables.nextMarkerID, traceID);
  }

  /**
   From raw samples to the stored estimate: whatever is imported, detected, reviewed and analyzed, in any
   order, a case pending review carries an estimate exactly if it carries differences, its uncertainty
   lies between 1 and 9.2 metres, and every difference has confidence between 0.54 and 0.99.
   */
  lemma UncertaintyInRange(clock: int, es: seq<JointEvent>)
    ensures var row := RunJoint(clock, es).system.db.row;
            row.Some? && row.value.caseStatus == PendingReview ==>
              && (row.value.differences == [] <==> row.value.uncertaintyM.None?)
              && (row.value.differences == [] <==> row.value.estimatedDistanceM.None?)
              && (row.value.uncertaintyM.Some? ==> 1.0 <= row.value.uncertaintyM.value <= 9.2)
              && ConfidentDifferences(row.value.differences)
  {
    var row := RunJoint(clock, es).system.db.row;
    if row.Some? && row.value.caseStatus == PendingReview {
      var session, l, at := ReportSupported(clock, es);
      ComparisonConfident(l.baseline.value, l.current.value, row.value.parameters.distanceToleranceM,
                          row.value.parameters.lossIncreaseDB, row.value.differences);
      EstimateRange(row.value.differences);
      JointInv(clock, es);
      assert CaseInvariants.FieldsAgree(row.value);
    }
  }

  /**
   The stored estimate is determined by the two loaded lists and the stored parameters: any comparison of
   those lists, however it orders ties, has the estimate that is stored.
   */
  lemma {:induction false} StoredEstimateDetermined(clock: int, es: seq<JointEvent>, l: Loads,
      differences: seq<Difference>)
    requires var row := RunJoint(clock, es).system.db.row;
             && row.Some? && row.value.caseStatus == PendingReview
             && IsReport(l, row.value.parameters, row.value.differences)
    requires IsReport(l, RunJoint(clock, es).system.db.row.value.parameters, differences)
    ensures var row, estimate := RunJoint(clock, es).system.db.row.value, PrimaryOf(differences);
            if estimate.None? then row.estimatedDistanceM == None && row.uncertaintyM == None
            else && row.estimatedDistanceM == Some(estimate.value.distanceM)
                 && row.uncertaintyM == Some(estimate.value.uncertaintyM)
  {
    var row := RunJoint(clock, es).system.db.row.value;
    JointInv(clock, es);
    assert CaseInvariants.FieldsAgree(row);
    EstimateDeterministic(l.baseline.value, l.current.value,
                          row.parameters.distanceToleranceM, row.parameters.lossIncreaseDB,
                          row.differences, differences);
  }

  /**
   If, when they were loaded, no matched event shared its distance with another event of its own trace, then
   the tables alone determine what is stored: loading them again in any order of ties and comparing again gives
   the stored differences and the stored estimate.
   */
  lemma StoredReportDetermined(clock: int, es: seq<JointEvent>, s: Session, l: Loads, at: nat,
      again: Loads, differences: seq<Difference>)
    requires var row := RunJoint(clock, es).system.db.row; row.Some? && row.value.caseStatus == PendingReview
    requires SupportedBy(TrailOf(clock, es), RunJoint(clock, es).system.db.row.value, s, l, at)
    requires var row := RunJoint(clock, es).system.db.row.value;
             && MatchedAlone(Places(l.baseline.value), Places(l.current.value), row.parameters.distanceToleranceM)
             && again.baseline.Some? && again.current.Some?
             && LoadedIn(Upto(TrailOf(clock, es), at), s, again, row.baselineTraceID, row.currentTraceID)
             && IsComparison(again.baseline.value, again.current.value, row.parameters.distanceToleranceM,
                             row.parameters.lossIncreaseDB, differences)
    ensures var row := RunJoint(clock, es).system.db.row.value;
            multiset(differences) == multiset(row.differences) && PrimaryOf(differences) == PrimaryOf(row.differences)
    ensures CaseInvariants.EstimateStored(RunJoint(clock, es).system.db.row.value)
  {
    var row := RunJoint(clock, es).system.db.row.value;
    var r := Upto(TrailOf(clock, es), at);
    var base, current := r.states[s.baselineAt].store.tables.markers, r.states[s.currentAt].store.tables.markers;
    LoadsDetermineReport(l.baseline.value, again.baseline.value, base, row.baselineTraceID,
                         l.current.value, again.current.value, current, row.currentTraceID,
                         row.parameters.distanceToleranceM, row.parameters.lossIncreaseDB,
                         row.differences, differences);
    JointInv(clock, es);
    assert CaseInvariants.FieldsAgree(row);
  }

  /** Both traces of the case exist, differ, and lie on its route. */
  predicate OnRoute(store: Store, row: CaseRow) {
    && row.baselineTraceID != row.currentTraceID
    && BelongsToRoute(store, row.baselineTraceID, row.routeID)
    && BelongsToRoute(store, row.currentTraceID, row.routeID)
  }

  predicate CaseOnRoute(j: Joint) {
    j.system.db.row.Some? ==> OnRoute(j.store, j.system.db.row.value)
  }

  lemma StoreStepOnRoute(s: Store, e: StoreEvent, row: CaseRow)
    requires StoreInv(s) && OnRoute(s, row)
    ensures OnRoute(ApplyStore(s, e), row)
  {
    TraceStays(s, e, row.baselineTraceID);
    TraceStays(s, e, row.currentTraceID);
  }

  lemma CaseStepOnRoute(j: Joint, e: Event)
    requires CaseOnRoute(j) && (e.Compute? || Enabled(j, e))
    ensures CaseOnRoute(Moved(j, Apply(j.system, e)))
  {
    if Apply(j.system, e).db.row.Some? { RowOrigin(j.system, e); }
  }

  lemma StepOnRoute(j: Joint, e: JointEvent)
    requires StoreInv(j.store) && CaseOnRoute(j)
    ensures CaseOnRoute(ApplyJoint(j, e))
  {
    match e
    case StoreStep(step) =>
      if j.system.db.row.Some? { StoreStepOnRoute(j.store, step, j.system.db.row.value); }
    case CaseStep(event) => if Enabled(j, event) { CaseStepOnRoute(j, event); }
    case Compare(w, _, outcome) => CaseStepOnRoute(j, Compute(w, outcome));
    case LoadBaseline(_, _) =>
    case LoadCurrent(_, _) =>
  }

  /** In every joint run the two traces of the case exist, differ, and lie on its route. */
  lemma {:induction false} CaseTracesBelong(clock: int, es: seq<JointEvent>)
    ensures CaseOnRoute(RunJoint(clock, es))
    decreases |es|
  {
    if es == [] {
    } else {
      CaseTracesBelong(clock, es[..|es| - 1]);
      JointInv(clock, es[..|es| - 1]);
      StepOnRoute(RunJoint(clock, es[..|es| - 1]), es[|es| - 1]);
    }
  }

  lemma TraceStays(s: Store, e: StoreEvent, id: nat)
    requires StoreInv(s) && id in s.tables.traces
    ensures id in ApplyStore(s, e).tables.traces
    ensures ApplyStore(s, e).tables.traces[id].routeID == s.tables.traces[id].routeID
  {
    TraceInvariants.TraceKnown(s.tables.traces, s.tables.nextTraceID, id);
    TraceInvariants.RawStep(s, e, id);
  }

  /** A row keeps its traces, and gets them from `Create`. */
  lemma RowOrigin(s: System, e: Event)
    requires Apply(s, e).db.row.Some?
    ensures var row := Apply(s, e).db.row.value;
            if s.db.row.Some? then SameTraces(s.db.row.value, row)
            else && e.Create? && e.baselineBelongs && e.currentBelongs
                 && e.create.baselineTraceID != e.create.currentTraceID
                 && row.routeID == e.create.routeID
                 && row.baselineTraceID == e.create.baselineTraceID && row.currentTraceID == e.create.currentTraceID
  {
  }
}
