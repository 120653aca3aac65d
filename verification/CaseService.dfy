/**
 The stored case and the service calls that change it, in place.  `Analyze` is cut at its transaction
 boundaries, so that other calls can run between the pieces; each piece is proved to be the step of
 the same name.
 */
module CaseService {
  import opened Wrappers
  import opened RequestID
  import opened Comparison
  import opened CaseLifecycle

  class CaseStore {
    var row: Option<CaseRow>
    var audits: seq<AuditEntry>

    /** The repository over tables that may already hold the case. */
    constructor (db: Database)
      ensures Contents() == db
    {
      row, audits := db.row, db.audits;
    }

    function Contents(): Database
      reads this
    {
      Database(row, audits)
    }

    method CreateCase(item: CaseRow)
      modifies this`row
      ensures row == Some(item)
    {
      row := Some(item);
    }

    method Transition(version: nat, from: CaseStatus, to: CaseStatus, u: CaseUpdate, now: int) returns (ok: bool)
      modifies this`row
      ensures ok == Transitioned(old(row), version, from, to, u, now).Some?
      ensures row == if ok then Transitioned(old(row), version, from, to, u, now) else old(row)
    {
      ok := false;
      if row.Some? && row.value.version == version && row.value.caseStatus == from {
        row := Some(Updated(row.value, u, to, now));
        ok := true;
      }
    }

    method SaveAnalysis(status: CaseStatus, u: CaseUpdate, now: int) returns (ok: bool)
      modifies this`row
      ensures ok == Saved(old(row), status, u, now).Some?
      ensures row == if ok then Saved(old(row), status, u, now) else old(row)
    {
      ok := false;
      if row.Some? && row.value.caseStatus == Analyzing {
        row := Some(Updated(row.value, u, status, now));
        ok := true;
      }
    }

    method RecoverStaleAnalysis(cutoff: int, now: int) returns (recovered: bool)
      modifies this`row
      ensures recovered == Recovered(old(row), cutoff, now).Some?
      ensures row == if recovered then Recovered(old(row), cutoff, now) else old(row)
    {
      recovered := false;
      if row.Some? && row.value.caseStatus == Analyzing && row.value.updatedAt < cutoff {
        row := Some(Updated(row.value, NO_UPDATE.(analysisError := Some(EXPIRED_MESSAGE)), Draft, now));
        recovered := true;
      }
    }

    /** Appends to the log, or refuses a blank request id. */
    method CreateAudit(entry: AuditEntry) returns (ok: bool)
      modifies this`audits
      ensures ok == !Blank(entry.requestID)
      ensures audits == if ok then old(audits) + [entry] else old(audits)
    {
      ok := !Blank(entry.requestID);
      if ok { audits := audits + [entry]; }
    }

    /** The end of a transaction: without its audit entry the row goes back to what it was. */
    method Finish(updated: bool, before: Option<CaseRow>, entry: AuditEntry) returns (committed: bool)
      modifies this
      ensures committed == (updated && !Blank(entry.requestID))
      ensures row == if committed then old(row) else before
      ensures audits == if committed then old(audits) + [entry] else old(audits)
    {
      committed := updated;
      if committed { committed := CreateAudit(entry); }
      if !committed { row := before; }
    }
  }

  /** What `compareEvents` may answer: differences exactly when everything it needs is there. */
  predicate IsOutcome(outcome: Outcome, loadError: string, baseline: seq<ComparableEvent>,
      current: seq<ComparableEvent>, p: CaseParameters) {
    && outcome != Failure("")
    && (outcome.Success? <==> loadError == "" && baseline != [] && current != []
                              && p.distanceToleranceM > 0.0 && p.lossIncreaseDB > 0.0)
    && (outcome.Success? ==>
          IsComparison(baseline, current, p.distanceToleranceM, p.lossIncreaseDB, outcome.differences))
  }

  /** `compareEvents` on the events that were loaded, or the error that loading them gave. */
  method CompareEvents(loadError: string, baseline: seq<ComparableEvent>, current: seq<ComparableEvent>,
      p: CaseParameters)
    returns (outcome: Outcome)
    ensures IsOutcome(outcome, loadError, baseline, current, p)
  {
    if loadError != "" { return Failure(loadError); }
    if |baseline| == 0 || |current| == 0 { return Failure("both traces require detected events"); }
    var r := CompareBaseline(baseline, current, p.distanceToleranceM, p.lossIncreaseDB);
    match r
    case Ok(differences) => outcome := Success(differences);
    case Err(error) =>
      outcome := Failure(if error == BadTolerance then "distance tolerance must be positive"
                         else "loss increase threshold must be positive");
  }

  /** The request, then what the case stores, then the built-in default. */
  method ChooseParameters(request: AnalyzeRequest, saved: CaseParameters) returns (p: CaseParameters)
    ensures p == EffectiveParameters(request, saved)
    ensures ParametersChosen(p, request, saved)
  {
    var tolerance, loss := request.distanceToleranceM, request.lossIncreaseDB;
    if tolerance == 0.0 { tolerance := saved.distanceToleranceM; }
    if tolerance == 0.0 { tolerance := 25.0; }
    if loss == 0.0 { loss := saved.lossIncreaseDB; }
    if loss == 0.0 { loss := 0.5; }
    p := CaseParameters(tolerance, loss);
  }

  class CaseService {
    const store: CaseStore
    var clock: int
    var workers: map<nat, Worker>
    ghost var opener: Option<nat>

    /** The service over a store, before any call. */
    constructor (store: CaseStore, clock: int)
      ensures this.store == store && State() == System(clock, store.Contents(), map[], None)
    {
      this.store := store;
      this.clock, workers, opener := clock, map[], None;
    }

    ghost function State(): System
      reads this, store
    {
      System(clock, store.Contents(), workers, opener)
    }

    method Wait(elapsed: nat)
      modifies this`clock
      ensures State() == Apply(old(State()), Tick(elapsed))
    {
      clock := clock + elapsed;
    }

    method CreateCase(actor: Actor, request: CreateRequest, baselineBelongs: bool,
        currentBelongs: bool) returns (created: bool)
      modifies store
      ensures State() == Apply(old(State()), Create(actor, request, baselineBelongs, currentBelongs))
      ensures created ==> store.row.Some? && store.row.value.caseStatus == Draft && store.row.value.version == 1
    {
      created := false;
      if store.row.Some? || request.baselineTraceID == request.currentTraceID || !baselineBelongs || !currentBelongs {
        return;
      }
      var tolerance, loss := request.distanceToleranceM, request.lossIncreaseDB;
      if tolerance == 0.0 { tolerance := 25.0; }
      if loss == 0.0 { loss := 0.5; }
      var before := store.row;
      store.CreateCase(CaseRow(request.routeID, request.baselineTraceID, request.currentTraceID, Draft, None, None, "",
                               None, None, "", CaseParameters(tolerance, loss), [], 1, clock));
      created := store.Finish(true, before, Entry(actor, CaseCreated));
    }

    /** The first read; true if the call goes on. */
    method AnalyzeRead(w: nat, actor: Actor, request: AnalyzeRequest) returns (goesOn: bool)
      requires w !in workers
      modifies this`workers
      ensures State() == Apply(old(State()), BeginAnalyze(w, actor, request))
      ensures goesOn == (w in workers)
    {
      goesOn := false;
      if store.row.None? { return; }
      var item := store.row.value;
      if item.caseStatus == Analyzing {
        workers := workers[w := Worker(actor, request, SawAnalyzing(item))];
        return true;
      }
      if !CanTransition(item.caseStatus, Analyzing) { return; }
      workers := workers[w := Worker(actor, request, HasRead(item))];
      goesOn := true;
    }

    method AnalyzeRecover(w: nat, seenNow: int) returns (recovered: bool)
      requires w in workers && workers[w].stage.SawAnalyzing? && seenNow <= clock
      modifies this`workers, this`opener, store
      ensures State() == Apply(old(State()), Recover(w, seenNow))
      ensures recovered == (w in workers)
    {
      var worker, before := workers[w], store.row;
      recovered := store.RecoverStaleAnalysis(seenNow - LEASE_TIMEOUT, clock);
      recovered := store.Finish(recovered, before, Entry(worker.actor, AnalysisRecovered));
      if recovered {
        workers, opener := workers[w := worker.(stage := MustReload)], None;
      } else {
        workers := workers - {w};
      }
    }

    method AnalyzeReload(w: nat) returns (goesOn: bool)
      requires w in workers && workers[w].stage.MustReload?
      modifies this`workers
      ensures State() == Apply(old(State()), Reload(w))
      ensures goesOn == (w in workers)
    {
      goesOn := store.row.Some? && CanTransition(store.row.value.caseStatus, Analyzing);
      if goesOn {
        workers := workers[w := workers[w].(stage := HasRead(store.row.value))];
      } else {
        workers := workers - {w};
      }
    }

    method AnalyzeStart(w: nat, seenNow: int) returns (started: bool)
      requires w in workers && workers[w].stage.HasRead? && seenNow <= clock
      modifies this`workers, this`opener, store
      ensures State() == Apply(old(State()), Start(w, seenNow))
      ensures started == (w in workers)
    {
      var worker, before := workers[w], store.row;
      var item := worker.stage.item;
      started := store.Transition(item.version, Draft, Analyzing, NO_UPDATE.(analysisError := Some("")), seenNow);
      started := store.Finish(started, before, Entry(worker.actor, AnalysisStarted));
      if started {
        item := item.(caseStatus := Analyzing, version := item.version + 1);
        workers, opener := workers[w := worker.(stage := Working(item, seenNow))], Some(w);
      } else {
        workers := workers - {w};
      }
    }

    method AnalyzeCompare(w: nat, loadError: string, baseline: seq<ComparableEvent>, current: seq<ComparableEvent>)
      returns (outcome: Outcome)
      requires w in workers && workers[w].stage.Working?
      modifies this`workers
      ensures State() == Apply(old(State()), Compute(w, outcome))
      ensures IsOutcome(outcome, loadError, baseline, current,
                        EffectiveParameters(old(workers[w].request), old(workers[w].stage.item.parameters)))
    {
      var worker := workers[w];
      var parameters := ChooseParameters(worker.request, worker.stage.item.parameters);
      outcome := CompareEvents(loadError, baseline, current, parameters);
      workers := workers[w := worker.(stage := HasResult(worker.stage.item, worker.stage.startedAt, outcome))];
    }

    method AnalyzeSave(w: nat) returns (saved: bool)
      requires w in workers && workers[w].stage.HasResult?
      modifies this`workers, this`opener, store
      ensures State() == Apply(old(State()), Save(w))
      ensures saved <==> store.audits != old(store.audits)
    {
      var worker, before := workers[w], store.row;
      var entry := SavedEntry(worker);
      match worker.stage.outcome {
        case Failure(message) =>
          saved := store.SaveAnalysis(Draft, NO_UPDATE.(analysisError := Some(message)), clock);
        case Success(differences) =>
          var parameters := ChooseParameters(worker.request, worker.stage.item.parameters);
          var estimate := PrimaryDifference(differences);
          var updates := NO_UPDATE.(
            differences := Some(differences),
            parameters := Some(parameters),
            analysisError := Some(""));
          if estimate.Some? {
            updates := updates.(estimatedDistanceM := Some(estimate.value.distanceM),
                                uncertaintyM := Some(estimate.value.uncertaintyM));
          }
          saved := store.SaveAnalysis(PendingReview, updates, clock);
      }
      saved := store.Finish(saved, before, entry);
      if saved { opener := None; }
      workers := workers - {w};
    }

    method AnalyzeCrash(w: nat)
      modifies this`workers
      ensures State() == Apply(old(State()), Crash(w))
    {
      workers := workers - {w};
    }

    method ConfirmCase(actor: Actor, request: ConfirmRequest) returns (confirmed: bool)
      requires ValidConfirm(request)
      modifies store
      ensures State() == Apply(old(State()), Confirm(actor, request))
      ensures confirmed <==> store.audits != old(store.audits)
    {
      confirmed := false;
      if actor.role != Reviewer && actor.role != Admin { return; }
      if store.row.None? || store.row.value.caseStatus == Closed { return; }
      var before := store.row;
      confirmed := store.Transition(request.version, PendingReview, Confirmed,
        NO_UPDATE.(conclusion := Some(request.conclusion), estimatedDistanceM := Some(request.estimatedDistanceM),
                   uncertaintyM := Some(request.uncertaintyM), reviewerID := Some(actor.id)), clock);
      confirmed := store.Finish(confirmed, before, Entry(actor, CaseConfirmed));
    }

    method CloseCase(actor: Actor, version: nat, seenNow: int) returns (closed: bool)
      requires seenNow <= clock
      modifies store
      ensures State() == Apply(old(State()), Close(actor, version, seenNow))
      ensures closed <==> store.audits != old(store.audits)
    {
      closed := false;
      if store.row.None? { return; }
      var before := store.row;
      closed := store.Transition(version, Confirmed, Closed, NO_UPDATE.(closedAt := Some(seenNow)), clock);
      closed := store.Finish(closed, before, Entry(actor, CaseClosed));
    }
  }
}
