/**
 The localization case and the steps by which concurrent requests change it.  One case row, its audit
 log, one clock, and any number of `Analyze` calls in flight.  Every database transaction is one atomic
 step; between two transactions of a call any other step may happen, and a call may stop for ever.
 */
module CaseLifecycle {
  import opened Wrappers
  import opened RequestID
  import opened Comparison

  // ---- Status table (constants/case.go) ----

  datatype CaseStatus = Draft | Analyzing | PendingReview | Confirmed | Closed

  const TRANSITIONS: map<CaseStatus, set<CaseStatus>> := map[
    Draft := {Analyzing},
    Analyzing := {Draft, PendingReview},
    PendingReview := {Confirmed},
    Confirmed := {Closed},
    Closed := {}
  ]

  predicate CanTransition(from: CaseStatus, to: CaseStatus) {
    from in TRANSITIONS && to in TRANSITIONS[from]
  }

  /** The edges of the table. */
  lemma TransitionsExactly(from: CaseStatus, to: CaseStatus)
    ensures CanTransition(from, to)
       <==> || (from == Draft && to == Analyzing)
            || (from == Analyzing && (to == Draft || to == PendingReview))
            || (from == PendingReview && to == Confirmed)
            || (from == Confirmed && to == Closed)
  {
  }

  /** Nanoseconds. */
  const LEASE_TIMEOUT: int := 10 * 60 * 1_000_000_000

  // ---- Rows ----

  datatype CaseParameters = CaseParameters(distanceToleranceM: real, lossIncreaseDB: real)

  datatype CaseRow = CaseRow(
    routeID: nat,
    baselineTraceID: nat,
    currentTraceID: nat,
    caseStatus: CaseStatus,
    estimatedDistanceM: Option<real>,
    uncertaintyM: Option<real>,
    conclusion: string,
    reviewerID: Option<nat>,
    closedAt: Option<int>,
    analysisError: string,
    parameters: CaseParameters,
    differences: seq<Difference>,
    version: nat,
    updatedAt: int)

  datatype Role = Analyst | Reviewer | Admin

  datatype Actor = Actor(id: nat, role: Role, requestID: string)

  datatype Action =
    | CaseCreated
    | AnalysisRecovered
    | AnalysisStarted
    | AnalysisFailed
    | AnalysisCompleted
    | CaseConfirmed
    | CaseClosed

  datatype AuditEntry = AuditEntry(action: Action, actorID: nat, requestID: string)

  datatype Database = Database(row: Option<CaseRow>, audits: seq<AuditEntry>)

  function Entry(actor: Actor, action: Action): AuditEntry {
    AuditEntry(action, actor.id, actor.requestID)
  }

  // ---- Guarded updates (case_repository.go) ----

  /** The columns an update may carry besides status and version; None leaves a column alone. */
  datatype CaseUpdate = CaseUpdate(
    estimatedDistanceM: Option<real>,
    uncertaintyM: Option<real>,
    conclusion: Option<string>,
    reviewerID: Option<nat>,
    closedAt: Option<int>,
    analysisError: Option<string>,
    parameters: Option<CaseParameters>,
    differences: Option<seq<Difference>>)

  const NO_UPDATE: CaseUpdate := CaseUpdate(None, None, None, None, None, None, None, None)

  function Pick<T>(update: Option<T>, stored: T): T {
    match update case Some(v) => v case None => stored
  }

  /** One UPDATE statement: the given columns, the new status, the next version and the time stamp. */
  function Updated(row: CaseRow, u: CaseUpdate, status: CaseStatus, now: int): CaseRow {
    row.(estimatedDistanceM := if u.estimatedDistanceM.Some? then u.estimatedDistanceM else row.estimatedDistanceM,
         uncertaintyM := if u.uncertaintyM.Some? then u.uncertaintyM else row.uncertaintyM,
         conclusion := Pick(u.conclusion, row.conclusion),
         reviewerID := if u.reviewerID.Some? then u.reviewerID else row.reviewerID,
         closedAt := if u.closedAt.Some? then u.closedAt else row.closedAt,
         analysisError := Pick(u.analysisError, row.analysisError),
         parameters := Pick(u.parameters, row.parameters),
         differences := Pick(u.differences, row.differences),
         caseStatus := status,
         version := row.version + 1,
         updatedAt := now)
  }

  /** The row after `Transition`, or None if no row matches id, version and status. */
  function Transitioned(row: Option<CaseRow>, version: nat, from: CaseStatus, to: CaseStatus, u: CaseUpdate,
      now: int): Option<CaseRow> {
    if row.Some? && row.value.version == version && row.value.caseStatus == from
    then Some(Updated(row.value, u, to, now)) else None
  }

  /** The row after `SaveAnalysis`: any analyzing row matches, whatever its version. */
  function Saved(row: Option<CaseRow>, status: CaseStatus, u: CaseUpdate, now: int): Option<CaseRow> {
    if row.Some? && row.value.caseStatus == Analyzing
    then Some(Updated(row.value, u, status, now)) else None
  }

  const EXPIRED_MESSAGE: string := "previous analysis worker expired; please retry"

  /** The row after `RecoverStaleAnalysis`: an analyzing row last touched before `cutoff`. */
  function Recovered(row: Option<CaseRow>, cutoff: int, now: int): Option<CaseRow> {
    if row.Some? && row.value.caseStatus == Analyzing && row.value.updatedAt < cutoff
    then Some(Updated(row.value, NO_UPDATE.(analysisError := Some(EXPIRED_MESSAGE)), Draft, now)) else None
  }

  /** A transaction commits if its update matched a row and its audit entry was accepted. */
  predicate Commits(row: Option<CaseRow>, entry: AuditEntry) {
    row.Some? && !Blank(entry.requestID)
  }

  /** The database after such a transaction; otherwise everything is rolled back. */
  function Transact(db: Database, row: Option<CaseRow>, entry: AuditEntry): Database {
    if Commits(row, entry) then Database(row, db.audits + [entry]) else db
  }

  // ---- Requests ----

  datatype CreateRequest = CreateRequest(
    routeID: nat,
    baselineTraceID: nat,
    currentTraceID: nat,
    distanceToleranceM: real,
    lossIncreaseDB: real)

  datatype AnalyzeRequest = AnalyzeRequest(distanceToleranceM: real, lossIncreaseDB: real)

  datatype ConfirmRequest = ConfirmRequest(conclusion: string, estimatedDistanceM: real, uncertaintyM: real,
      version: nat)

  /** The validator's ranges. */
  predicate ValidConfirm(r: ConfirmRequest) {
    10 <= |r.conclusion| <= 2000 && 0.0 <= r.estimatedDistanceM && 0.0 <= r.uncertaintyM <= 5000.0 && r.version > 0
  }

  function OrDefault(value: real, fallback: real): real {
    if value == 0.0 then fallback else value
  }

  /** The row `Create` inserts. */
  function NewRow(r: CreateRequest, now: int): CaseRow {
    CaseRow(r.routeID, r.baselineTraceID, r.currentTraceID, Draft, None, None, "", None, None, "",
            CaseParameters(OrDefault(r.distanceToleranceM, 25.0), OrDefault(r.lossIncreaseDB, 0.5)), [], 1, now)
  }

  /** Request, then stored parameters, then built-in defaults. */
  function EffectiveParameters(r: AnalyzeRequest, saved: CaseParameters): CaseParameters {
    CaseParameters(OrDefault(OrDefault(r.distanceToleranceM, saved.distanceToleranceM), 25.0),
                   OrDefault(OrDefault(r.lossIncreaseDB, saved.lossIncreaseDB), 0.5))
  }

  /** Each parameter is the requested one; or, if that is zero, the stored one; or, if both are, the default. */
  predicate ParametersChosen(p: CaseParameters, r: AnalyzeRequest, saved: CaseParameters) {
    && (r.distanceToleranceM != 0.0 ==> p.distanceToleranceM == r.distanceToleranceM)
    && (r.distanceToleranceM == 0.0 && saved.distanceToleranceM != 0.0 ==>
          p.distanceToleranceM == saved.distanceToleranceM)
    && (r.distanceToleranceM == 0.0 && saved.distanceToleranceM == 0.0 ==> p.distanceToleranceM == 25.0)
    && (r.lossIncreaseDB != 0.0 ==> p.lossIncreaseDB == r.lossIncreaseDB)
    && (r.lossIncreaseDB == 0.0 && saved.lossIncreaseDB != 0.0 ==> p.lossIncreaseDB == saved.lossIncreaseDB)
    && (r.lossIncreaseDB == 0.0 && saved.lossIncreaseDB == 0.0 ==> p.lossIncreaseDB == 0.5)
  }

  lemma EffectiveExactly(r: AnalyzeRequest, saved: CaseParameters, p: CaseParameters)
    ensures p == EffectiveParameters(r, saved) <==> ParametersChosen(p, r, saved)
  {
  }

  // ---- Calls in flight ----

  /** What the comparison produced: an error message or the differences. */
  datatype Outcome = Failure(message: string) | Success(differences: seq<Difference>)

  /** Where an `Analyze` call stands between two transactions. */
  datatype Stage =
    | SawAnalyzing(item: CaseRow)
    | MustReload
    | HasRead(item: CaseRow)
    | Working(item: CaseRow, startedAt: int)
    | HasResult(item: CaseRow, startedAt: int, outcome: Outcome)

  /** Between the start transaction and the save. */
  predicate Busy(stage: Stage) {
    stage.Working? || stage.HasResult?
  }

  datatype Worker = Worker(actor: Actor, request: AnalyzeRequest, stage: Stage)

  /**
   `opener` names the call whose start opened the current analyzing period; the program does not store
   it, it is kept here to state who ought to save.
   */
  datatype System = System(clock: int, db: Database, workers: map<nat, Worker>, opener: Option<nat>)

  datatype Event =
    | Tick(elapsed: nat)
    | Create(actor: Actor, create: CreateRequest, baselineBelongs: bool, currentBelongs: bool)
    | BeginAnalyze(worker: nat, actor: Actor, request: AnalyzeRequest)
    | Recover(worker: nat, seenNow: int)
    | Reload(worker: nat)
    | Start(worker: nat, seenNow: int)
    | Compute(worker: nat, outcome: Outcome)
    | Save(worker: nat)
    | Crash(worker: nat)
    | Confirm(actor: Actor, confirm: ConfirmRequest)
    | Close(actor: Actor, version: nat, seenNow: int)

  function Finish(s: System, w: nat): System {
    s.(workers := s.workers - {w})
  }

  function Advance(s: System, w: nat, stage: Stage): System
    requires w in s.workers
  {
    s.(workers := s.workers[w := s.workers[w].(stage := stage)])
  }

  /** `Create`: both traces must differ and belong to the route. */
  function ApplyCreate(s: System, actor: Actor, r: CreateRequest, baselineBelongs: bool, currentBelongs: bool): System {
    if s.db.row.Some? || r.baselineTraceID == r.currentTraceID || !baselineBelongs || !currentBelongs then s
    else s.(db := Transact(s.db, Some(NewRow(r, s.clock)), Entry(actor, CaseCreated)))
  }

  /** The first read of `Analyze` and the checks made on it. */
  function ApplyBegin(s: System, w: nat, actor: Actor, request: AnalyzeRequest): System {
    if w in s.workers || s.db.row.None? then s
    else
      var item := s.db.row.value;
      if item.caseStatus == Analyzing then s.(workers := s.workers[w := Worker(actor, request, SawAnalyzing(item))])
      else if CanTransition(item.caseStatus, Analyzing)
      then s.(workers := s.workers[w := Worker(actor, request, HasRead(item))])
      else s
  }

  /** The recovery transaction; its clock reading may lie in the past by the time it runs. */
  function ApplyRecover(s: System, w: nat, seenNow: int): System {
    if w !in s.workers || !s.workers[w].stage.SawAnalyzing? || seenNow > s.clock then s
    else
      var row := Recovered(s.db.row, seenNow - LEASE_TIMEOUT, s.clock);
      var entry := Entry(s.workers[w].actor, AnalysisRecovered);
      if Commits(row, entry)
      then Advance(s, w, MustReload).(db := Transact(s.db, row, entry), opener := None)
      else Finish(s, w)
  }

  function ApplyReload(s: System, w: nat): System {
    if w !in s.workers || !s.workers[w].stage.MustReload? then s
    else if s.db.row.Some? && CanTransition(s.db.row.value.caseStatus, Analyzing)
    then Advance(s, w, HasRead(s.db.row.value))
    else Finish(s, w)
  }

  /**
   The start transaction: compare-and-swap on the version that was read.  The row is stamped with the time at
   which the update was built, which may lie in the past when it commits.
   */
  function ApplyStart(s: System, w: nat, seenNow: int): System {
    if w !in s.workers || !s.workers[w].stage.HasRead? || seenNow > s.clock then s
    else
      var item := s.workers[w].stage.item;
      var row := Transitioned(s.db.row, item.version, Draft, Analyzing, NO_UPDATE.(analysisError := Some("")), seenNow);
      var entry := Entry(s.workers[w].actor, AnalysisStarted);
      if Commits(row, entry)
      then Advance(s, w, Working(item.(caseStatus := Analyzing, version := item.version + 1), seenNow))
             .(db := Transact(s.db, row, entry), opener := Some(w))
      else Finish(s, w)
  }

  function ApplyCompute(s: System, w: nat, outcome: Outcome): System {
    if w !in s.workers || !s.workers[w].stage.Working? || outcome == Failure("") then s
    else Advance(s, w, HasResult(s.workers[w].stage.item, s.workers[w].stage.startedAt, outcome))
  }

  /** The columns a successful analysis writes. */
  function SuccessUpdate(differences: seq<Difference>, parameters: CaseParameters): CaseUpdate {
    var estimate := PrimaryOf(differences);
    NO_UPDATE.(differences := Some(differences),
               parameters := Some(parameters),
               analysisError := Some(""),
               estimatedDistanceM := if estimate.Some? then Some(estimate.value.distanceM) else None,
               uncertaintyM := if estimate.Some? then Some(estimate.value.uncertaintyM) else None)
  }

  /** The row a finished analysis tries to write. */
  function SavedRow(s: System, worker: Worker): Option<CaseRow>
    requires worker.stage.HasResult?
  {
    match worker.stage.outcome
    case Failure(message) => Saved(s.db.row, Draft, NO_UPDATE.(analysisError := Some(message)), s.clock)
    case Success(differences) =>
      Saved(s.db.row, PendingReview,
            SuccessUpdate(differences, EffectiveParameters(worker.request, worker.stage.item.parameters)), s.clock)
  }

  function SavedEntry(worker: Worker): AuditEntry
    requires worker.stage.HasResult?
  {
    Entry(worker.actor, if worker.stage.outcome.Failure? then AnalysisFailed else AnalysisCompleted)
  }

  /** The save transaction: guarded by the status only. */
  function ApplySave(s: System, w: nat): System {
    if w !in s.workers || !s.workers[w].stage.HasResult? then s
    else
      var row, entry := SavedRow(s, s.workers[w]), SavedEntry(s.workers[w]);
      if Commits(row, entry)
      then Finish(s, w).(db := Transact(s.db, row, entry), opener := None)
      else Finish(s, w)
  }

  predicate MayConfirm(actor: Actor) {
    actor.role == Reviewer || actor.role == Admin
  }

  /** Reading the case first only selects the error message: a closed case matches no transition. */
  function ApplyConfirm(s: System, actor: Actor, r: ConfirmRequest): System {
    if !MayConfirm(actor) || !ValidConfirm(r) then s
    else
      var u := NO_UPDATE.(conclusion := Some(r.conclusion), estimatedDistanceM := Some(r.estimatedDistanceM),
                          uncertaintyM := Some(r.uncertaintyM), reviewerID := Some(actor.id));
      s.(db := Transact(s.db, Transitioned(s.db.row, r.version, PendingReview, Confirmed, u, s.clock),
                        Entry(actor, CaseConfirmed)))
  }

  /** Closing stamps the time read before its transaction. */
  function ApplyClose(s: System, actor: Actor, version: nat, seenNow: int): System {
    var u := NO_UPDATE.(closedAt := Some(seenNow));
    if seenNow > s.clock then s
    else s.(db := Transact(s.db, Transitioned(s.db.row, version, Confirmed, Closed, u, s.clock),
                           Entry(actor, CaseClosed)))
  }

  /** One step of the system; an event that is not enabled changes nothing. */
  function Apply(s: System, e: Event): System {
    match e
    case Tick(elapsed) => s.(clock := s.clock + elapsed)
    case Create(actor, r, b, c) => ApplyCreate(s, actor, r, b, c)
    case BeginAnalyze(w, actor, request) => ApplyBegin(s, w, actor, request)
    case Recover(w, seenNow) => ApplyRecover(s, w, seenNow)
    case Reload(w) => ApplyReload(s, w)
    case Start(w, seenNow) => ApplyStart(s, w, seenNow)
    case Compute(w, outcome) => ApplyCompute(s, w, outcome)
    case Save(w) => ApplySave(s, w)
    case Crash(w) => Finish(s, w)
    case Confirm(actor, r) => ApplyConfirm(s, actor, r)
    case Close(actor, version, seenNow) => ApplyClose(s, actor, version, seenNow)
  }

  function Run(s: System, es: seq<Event>): System
    decreases |es|
  {
    if es == [] then s else Run(Apply(s, es[0]), es[1..])
  }

  function Initial(clock: int): System {
    System(clock, Database(None, []), map[], None)
  }
}
