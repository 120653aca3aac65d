/** Exactly when each transaction on a case commits, and what it then writes. */
module CaseCommits {
  import opened Wrappers
  import opened RequestID
  import opened Comparison
  import opened CaseLifecycle

  /** The step stores `row` and appends one entry to the log. */
  predicate Stores(s: System, e: Event, row: CaseRow, action: Action, actor: Actor) {
    Apply(s, e).db == Database(Some(row), s.db.audits + [AuditEntry(action, actor.id, actor.requestID)])
  }

  /** The stored case has this status. */
  predicate Has(s: System, status: CaseStatus) {
    s.db.row.Some? && s.db.row.value.caseStatus == status
  }

  /** A new case: a draft under the requested parameters, 25 metres and 0.5 decibels where none are requested. */
  lemma {:induction false} CreateExactly(s: System, actor: Actor, r: CreateRequest, baselineBelongs: bool,
      currentBelongs: bool)
    ensures var e := Create(actor, r, baselineBelongs, currentBelongs);
            Apply(s, e).db != s.db
            <==> && s.db.row.None? && r.baselineTraceID != r.currentTraceID && baselineBelongs && currentBelongs
                 && !Blank(actor.requestID)
    ensures var e := Create(actor, r, baselineBelongs, currentBelongs);
            var p := CaseParameters(if r.distanceToleranceM != 0.0 then r.distanceToleranceM else 25.0,
                                    if r.lossIncreaseDB != 0.0 then r.lossIncreaseDB else 0.5);
            Apply(s, e).db != s.db ==>
              Stores(s, e, CaseRow(r.routeID, r.baselineTraceID, r.currentTraceID, Draft, None, None, "", None, None,
                                   "", p, [], 1, s.clock),
                     CaseCreated, actor)
  {
  }

  /** A call goes on from its first read exactly if it finds a draft, or an analysis it may try to recover. */
  lemma {:induction false} BeginExactly(s: System, w: nat, actor: Actor, request: AnalyzeRequest)
    requires w !in s.workers
    ensures var t := Apply(s, BeginAnalyze(w, actor, request));
            && (w in t.workers <==> Has(s, Draft) || Has(s, Analyzing))
            && (Has(s, Draft) ==> t.workers[w] == Worker(actor, request, HasRead(s.db.row.value)))
            && (Has(s, Analyzing) ==> t.workers[w] == Worker(actor, request, SawAnalyzing(s.db.row.value)))
  {
  }

  /** An analysis is recovered exactly if it was last touched more than ten minutes before the time read. */
  lemma {:induction false} RecoverExactly(s: System, w: nat, seenNow: int)
    requires w in s.workers && s.workers[w].stage.SawAnalyzing? && seenNow <= s.clock
    ensures Apply(s, Recover(w, seenNow)).db != s.db
       <==> && Has(s, Analyzing) && s.db.row.value.updatedAt + 600_000_000_000 < seenNow
            && !Blank(s.workers[w].actor.requestID)
    ensures Apply(s, Recover(w, seenNow)).db != s.db ==>
              var row := s.db.row.value;
              Stores(s, Recover(w, seenNow),
                     row.(caseStatus := Draft, version := row.version + 1, updatedAt := s.clock,
                          analysisError := "previous analysis worker expired; please retry"),
                     AnalysisRecovered, s.workers[w].actor)
  {
  }

  /** After recovering the case, a call goes on exactly if it finds a draft. */
  lemma {:induction false} ReloadExactly(s: System, w: nat)
    requires w in s.workers && s.workers[w].stage.MustReload?
    ensures var t := Apply(s, Reload(w));
            && (w in t.workers <==> Has(s, Draft))
            && (Has(s, Draft) ==> t.workers[w] == s.workers[w].(stage := HasRead(s.db.row.value)))
  {
  }

  /** An analysis starts exactly on the draft, and the version of it, that the call read. */
  lemma {:induction false} StartExactly(s: System, w: nat, seenNow: int)
    requires w in s.workers && s.workers[w].stage.HasRead? && seenNow <= s.clock
    ensures Apply(s, Start(w, seenNow)).db != s.db
       <==> && Has(s, Draft) && s.db.row.value.version == s.workers[w].stage.item.version
            && !Blank(s.workers[w].actor.requestID)
    ensures Apply(s, Start(w, seenNow)).db != s.db ==>
              var row := s.db.row.value;
              && Stores(s, Start(w, seenNow),
                        row.(caseStatus := Analyzing, version := row.version + 1, updatedAt := seenNow,
                             analysisError := ""),
                        AnalysisStarted, s.workers[w].actor)
              && Apply(s, Start(w, seenNow)).opener == Some(w)
  {
  }

  /** The two columns of the estimate, as a report with these differences leaves them. */
  predicate EstimateColumns(before: CaseRow, after: CaseRow, differences: seq<Difference>, k: nat) {
    if differences == [] then
      after.estimatedDistanceM == before.estimatedDistanceM && after.uncertaintyM == before.uncertaintyM
    else
      && IsPrimary(differences, |differences|, k)
      && after.estimatedDistanceM.Some? && after.uncertaintyM.Some?
      && Estimates(Estimate(after.estimatedDistanceM.value, after.uncertaintyM.value), differences[k])
  }

  /**
   A successful analysis is saved exactly if the case is being analyzed; what it stores are its differences, the
   parameters it ran under, chosen from its request and the case it read, and the estimate of its primary
   difference.
   */
  lemma {:induction false} SaveExactly(s: System, w: nat, differences: seq<Difference>) returns (k: nat)
    requires w in s.workers && s.workers[w].stage.HasResult? && s.workers[w].stage.outcome == Success(differences)
    ensures Apply(s, Save(w)).db != s.db <==> Has(s, Analyzing) && !Blank(s.workers[w].actor.requestID)
    ensures Apply(s, Save(w)).db != s.db ==>
              && Apply(s, Save(w)).db.row.Some?
              && var before, after := s.db.row.value, Apply(s, Save(w)).db.row.value;
                 && ParametersChosen(after.parameters, s.workers[w].request, s.workers[w].stage.item.parameters)
                 && EstimateColumns(before, after, differences, k)
                 && Stores(s, Save(w),
                           before.(caseStatus := PendingReview, version := before.version + 1, updatedAt := s.clock,
                                   analysisError := "", differences := differences, parameters := after.parameters,
                                   estimatedDistanceM := after.estimatedDistanceM, uncertaintyM := after.uncertaintyM),
                           AnalysisCompleted, s.workers[w].actor)
  {
    k := EstimateExactly(differences);
  }

  /** A failed one is saved under the same condition, as a draft that carries the message. */
  lemma {:induction false} SaveFailureExactly(s: System, w: nat, message: string)
    requires w in s.workers && s.workers[w].stage.HasResult? && s.workers[w].stage.outcome == Failure(message)
    ensures Apply(s, Save(w)).db != s.db <==> Has(s, Analyzing) && !Blank(s.workers[w].actor.requestID)
    ensures Apply(s, Save(w)).db != s.db ==>
              var row := s.db.row.value;
              Stores(s, Save(w),
                     row.(caseStatus := Draft, version := row.version + 1, updatedAt := s.clock,
                          analysisError := message),
                     AnalysisFailed, s.workers[w].actor)
  {
  }

  /** A confirmation commits exactly for an entitled actor, a valid request and the awaited version, and writes it. */
  lemma {:induction false} ConfirmExactly(s: System, actor: Actor, r: ConfirmRequest)
    ensures Apply(s, Confirm(actor, r)).db != s.db
       <==> && (actor.role == Reviewer || actor.role == Admin) && !Blank(actor.requestID)
            && 10 <= |r.conclusion| <= 2000 && 0.0 <= r.estimatedDistanceM && 0.0 <= r.uncertaintyM <= 5000.0
            && r.version > 0 && Has(s, PendingReview) && s.db.row.value.version == r.version
    ensures Apply(s, Confirm(actor, r)).db != s.db ==>
              var row := s.db.row.value;
              Stores(s, Confirm(actor, r),
                     row.(caseStatus := Confirmed, version := row.version + 1, updatedAt := s.clock,
                          conclusion := r.conclusion, reviewerID := Some(actor.id),
                          estimatedDistanceM := Some(r.estimatedDistanceM), uncertaintyM := Some(r.uncertaintyM)),
                     CaseConfirmed, actor)
  {
  }

  /** Closing commits exactly on the awaited version of a confirmed case, and stamps the time that was read. */
  lemma {:induction false} CloseExactly(s: System, actor: Actor, version: nat, seenNow: int)
    requires seenNow <= s.clock
    ensures Apply(s, Close(actor, version, seenNow)).db != s.db
       <==> Has(s, Confirmed) && s.db.row.value.version == version && !Blank(actor.requestID)
    ensures Apply(s, Close(actor, version, seenNow)).db != s.db ==>
              var row := s.db.row.value;
              Stores(s, Close(actor, version, seenNow),
                     row.(caseStatus := Closed, version := row.version + 1, updatedAt := s.clock,
                          closedAt := Some(seenNow)),
                     CaseClosed, actor)
  {
  }

  // ---- Where the stored parameters come from ----

  /** The parameters a case is created under. */
  predicate CreatedUnder(p: CaseParameters, r: CreateRequest) {
    && p.distanceToleranceM == (if r.distanceToleranceM != 0.0 then r.distanceToleranceM else 25.0)
    && p.lossIncreaseDB == (if r.lossIncreaseDB != 0.0 then r.lossIncreaseDB else 0.5)
  }

  /** A case that has its report. */
  predicate Reported(row: CaseRow) {
    row.caseStatus != Draft && row.caseStatus != Analyzing
  }

  /** Under which parameters some request among `asked` has a case analyzed that was created under `created`. */
  predicate AskedFor(p: CaseParameters, created: CaseParameters, asked: seq<AnalyzeRequest>) {
    exists i :: 0 <= i < |asked| && ParametersChosen(p, asked[i], created)
  }

  /** Without a report the case keeps its first parameters; with one it has those some request asked for. */
  predicate RowSourced(row: CaseRow, created: CaseParameters, asked: seq<AnalyzeRequest>) {
    if Reported(row) then AskedFor(row.parameters, created, asked) else row.parameters == created
  }

  /** A call works for one of the requests, on a case that it read before there was a report. */
  predicate CallSourced(worker: Worker, created: CaseParameters, asked: seq<AnalyzeRequest>) {
    && worker.request in asked
    && (!worker.stage.MustReload? ==> worker.stage.item.parameters == created)
  }

  predicate Sourced(s: System, created: CaseParameters, asked: seq<AnalyzeRequest>) {
    && s.db.row.Some? && RowSourced(s.db.row.value, created, asked)
    && forall w :: w in s.workers ==> CallSourced(s.workers[w], created, asked)
  }

  /** The requests that open a call. */
  function Asking(e: Event): seq<AnalyzeRequest> {
    if e.BeginAnalyze? then [e.request] else []
  }

  function AskedIn(es: seq<Event>): seq<AnalyzeRequest> {
    if es == [] then [] else Asking(es[0]) + AskedIn(es[1..])
  }

  lemma {:induction false} MoreAsked(s: System, created: CaseParameters, asked: seq<AnalyzeRequest>,
      more: seq<AnalyzeRequest>)
    requires Sourced(s, created, asked)
    ensures Sourced(s, created, asked + more)
  {
    if Reported(s.db.row.value) {
      var i :| 0 <= i < |asked| && ParametersChosen(s.db.row.value.parameters, asked[i], created);
      assert (asked + more)[i] == asked[i];
    }
  }

  /** The row after a step: as before, with the same parameters and report, or just saved by a call. */
  lemma {:induction false} SourcedRow(s: System, e: Event, created: CaseParameters, asked: seq<AnalyzeRequest>)
    requires Sourced(s, created, asked)
    ensures Apply(s, e).db.row.Some? && RowSourced(Apply(s, e).db.row.value, created, asked)
  {
    if e.Save? && e.worker in s.workers && s.workers[e.worker].stage.HasResult? {
      var worker := s.workers[e.worker];
      assert CallSourced(worker, created, asked);
      if worker.stage.outcome.Success? && Apply(s, e).db != s.db {
        var k := SaveExactly(s, e.worker, worker.stage.outcome.differences);
        var i :| 0 <= i < |asked| && asked[i] == worker.request;
      }
    }
  }

  lemma {:induction false} SourcedCall(s: System, e: Event, created: CaseParameters, asked: seq<AnalyzeRequest>,
      w: nat)
    requires Sourced(s, created, asked) && w in Apply(s, e).workers
    requires e.BeginAnalyze? ==> e.request in asked
    ensures CallSourced(Apply(s, e).workers[w], created, asked)
  {
    if w in s.workers { assert CallSourced(s.workers[w], created, asked); }
  }

  lemma {:induction false} SourcedStep(s: System, e: Event, created: CaseParameters, asked: seq<AnalyzeRequest>)
    requires Sourced(s, created, asked)
    ensures Sourced(Apply(s, e), created, asked + Asking(e))
  {
    var more := asked + Asking(e);
    MoreAsked(s, created, asked, Asking(e));
    if e.BeginAnalyze? { assert more[|asked|] == e.request; }
    SourcedRow(s, e, created, more);
    forall w | w in Apply(s, e).workers ensures CallSourced(Apply(s, e).workers[w], created, more) {
      SourcedCall(s, e, created, more, w);
    }
  }

  lemma {:induction false} SourcedRun(s: System, es: seq<Event>, created: CaseParameters, asked: seq<AnalyzeRequest>)
    requires Sourced(s, created, asked)
    ensures Sourced(Run(s, es), created, asked + AskedIn(es))
    decreases |es|
  {
    if es == [] {
      assert asked + [] == asked;
    } else {
      SourcedStep(s, es[0], created, asked);
      SourcedRun(Apply(s, es[0]), es[1..], created, asked + Asking(es[0]));
      assert asked + AskedIn(es) == asked + Asking(es[0]) + AskedIn(es[1..]);
    }
  }

  /** Some request among the `Create` events of the run leads to these parameters. */
  predicate CreatedIn(es: seq<Event>, p: CaseParameters) {
    exists i :: 0 <= i < |es| && es[i].Create? && CreatedUnder(p, es[i].create)
  }

  /** Before there is a case there are no calls, and only `Create` makes one. */
  lemma {:induction false} FirstRow(s: System, e: Event)
    requires s.db.row.None? && s.workers == map[]
    ensures Apply(s, e).workers == map[]
    ensures Apply(s, e).db.row.Some? ==>
              e.Create? && CreatedUnder(Apply(s, e).db.row.value.parameters, e.create)
              && Sourced(Apply(s, e), Apply(s, e).db.row.value.parameters, [])
  {
    if e.Create? { CreateExactly(s, e.actor, e.create, e.baselineBelongs, e.currentBelongs); }
  }

  lemma {:induction false} SourcedFromEmpty(s: System, es: seq<Event>) returns (created: CaseParameters)
    requires s.db.row.None? && s.workers == map[]
    ensures Run(s, es).db.row.Some? ==> CreatedIn(es, created) && Sourced(Run(s, es), created, AskedIn(es))
    decreases |es|
  {
    created := CaseParameters(0.0, 0.0);
    if es != [] {
      var t := Apply(s, es[0]);
      FirstRow(s, es[0]);
      if t.db.row.Some? {
        created := t.db.row.value.parameters;
        SourcedRun(t, es[1..], created, []);
        assert [] + AskedIn(es[1..]) == AskedIn(es);
      } else {
        created := SourcedFromEmpty(t, es[1..]);
        if Run(t, es[1..]).db.row.Some? {
          var i :| 0 <= i < |es[1..]| && es[1..][i].Create? && CreatedUnder(created, es[1..][i].create);
          assert es[i + 1] == es[1..][i];
          MoreSourced(Run(t, es[1..]), created, es);
        }
      }
    }
  }

  lemma {:induction false} MoreSourced(s: System, created: CaseParameters, es: seq<Event>)
    requires es != [] && Sourced(s, created, AskedIn(es[1..]))
    ensures Sourced(s, created, AskedIn(es))
  {
    var asked := AskedIn(es[1..]);
    assert AskedIn(es) == Asking(es[0]) + asked;
    if Reported(s.db.row.value) {
      var i :| 0 <= i < |asked| && ParametersChosen(s.db.row.value.parameters, asked[i], created);
      assert AskedIn(es)[|Asking(es[0])| + i] == asked[i];
    }
    forall w | w in s.workers ensures CallSourced(s.workers[w], created, AskedIn(es)) {
      assert CallSourced(s.workers[w], created, asked);
    }
  }

  /**
   In every run: until it has a report, a case keeps the parameters of the request that created it; from then on
   it has those that some request to analyze it asked for, falling back, one by one, on the ones it was created
   under.
   */
  lemma {:induction false} StoredParameters(clock: int, es: seq<Event>) returns (created: CaseParameters)
    ensures var row := Run(Initial(clock), es).db.row;
            row.Some? ==> CreatedIn(es, created) && RowSourced(row.value, created, AskedIn(es))
  {
    created := SourcedFromEmpty(Initial(clock), es);
  }
}
