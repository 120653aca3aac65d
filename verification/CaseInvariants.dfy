/** What holds of a case in every state that any interleaving of requests can reach. */
module CaseInvariants {
  import opened Wrappers
  import opened Counting
  import opened RequestID
  import opened Comparison
  import opened CaseLifecycle

  // ---- Replaying the audit log ----

  /** Where a replay of audit actions stands. */
  datatype Walk = Nowhere | At(status: CaseStatus) | Broken

  function TargetOf(action: Action): CaseStatus {
    match action
    case CaseCreated => Draft
    case AnalysisRecovered => Draft
    case AnalysisStarted => Analyzing
    case AnalysisFailed => Draft
    case AnalysisCompleted => PendingReview
    case CaseConfirmed => Confirmed
    case CaseClosed => Closed
  }

  /** Recovery and failure leave `analyzing`; every action must follow an edge of the status table. */
  function StepWalk(at: Walk, action: Action): Walk {
    if action == CaseCreated then (if at.Nowhere? then At(Draft) else Broken)
    else if at.At? && CanTransition(at.status, TargetOf(action)) then At(TargetOf(action))
    else Broken
  }

  function Replay(audits: seq<AuditEntry>): Walk {
    if audits == [] then Nowhere else StepWalk(Replay(audits[..|audits| - 1]), audits[|audits| - 1].action)
  }

  function IsAction(a: Action): AuditEntry -> bool {
    (e: AuditEntry) => e.action == a
  }

  function Tally(audits: seq<AuditEntry>, a: Action): nat {
    Count(audits, IsAction(a))
  }

  function B2N(b: bool): nat {
    if b then 1 else 0
  }

  /** How far along the lifecycle a status lies. */
  function Rank(status: CaseStatus): nat {
    match status
    case Draft => 0
    case Analyzing => 1
    case PendingReview => 2
    case Confirmed => 3
    case Closed => 4
  }

  lemma TallyLast(audits: seq<AuditEntry>, e: AuditEntry, a: Action)
    ensures Tally(audits + [e], a) == Tally(audits, a) + B2N(e.action == a)
  {
    CountLast(audits, e, IsAction(a));
  }

  /**
   Conservation along the log: every start is answered by a failure, a recovery or a completion, or is
   still open; and the length of the log is determined by the status and the number of retries.
   */
  predicate Conserved(audits: seq<AuditEntry>, status: CaseStatus) {
    && Tally(audits, CaseCreated) == 1
    && Tally(audits, AnalysisStarted)
         == Tally(audits, AnalysisFailed) + Tally(audits, AnalysisRecovered) + Tally(audits, AnalysisCompleted)
            + B2N(status == Analyzing)
    && Tally(audits, AnalysisCompleted) == B2N(Rank(status) >= 2)
    && Tally(audits, CaseConfirmed) == B2N(Rank(status) >= 3)
    && Tally(audits, CaseClosed) == B2N(Rank(status) >= 4)
    && |audits| == 1 + 2 * (Tally(audits, AnalysisFailed) + Tally(audits, AnalysisRecovered)) + Rank(status)
  }

  lemma TalliesEmpty()
    ensures forall a :: Tally([], a) == 0
  {
  }

  lemma TalliesStep(before: seq<AuditEntry>, e: AuditEntry)
    ensures forall a :: Tally(before + [e], a) == Tally(before, a) + B2N(e.action == a)
  {
    forall a
      ensures Tally(before + [e], a) == Tally(before, a) + B2N(e.action == a)
    {
      TallyLast(before, e, a);
    }
  }

  lemma ConservedStart(e: AuditEntry)
    requires e.action == CaseCreated
    ensures Conserved([e], Draft)
  {
    TalliesEmpty();
    TalliesStep([], e);
    assert [] + [e] == [e];
  }

  lemma ConservedStep(before: seq<AuditEntry>, e: AuditEntry, status: CaseStatus)
    requires Conserved(before, status) && StepWalk(At(status), e.action).At?
    ensures Conserved(before + [e], StepWalk(At(status), e.action).status)
  {
    TalliesStep(before, e);
  }

  /** A log with the laws, as far as its replay got. */
  predicate Balanced(audits: seq<AuditEntry>, at: Walk) {
    && (at.At? ==> Conserved(audits, at.status))
    && (at.Nowhere? ==> audits == [])
  }

  lemma BalancedStep(before: seq<AuditEntry>, e: AuditEntry, at: Walk)
    requires Balanced(before, at)
    ensures Balanced(before + [e], StepWalk(at, e.action))
  {
    match at
    case Nowhere =>
      assert [] + [e] == [e];
      if e.action == CaseCreated { ConservedStart(e); }
    case At(status) =>
      if StepWalk(at, e.action).At? { ConservedStep(before, e, status); }
    case Broken =>
  }

  /** Any log that replays to a status obeys the conservation laws. */
  lemma {:induction false} ReplayConserves(audits: seq<AuditEntry>)
    ensures Balanced(audits, Replay(audits))
  {
    if audits == [] {
    } else {
      var before, e := audits[..|audits| - 1], audits[|audits| - 1];
      ReplayConserves(before);
      assert audits == before + [e];
      BalancedStep(before, e, Replay(before));
    }
  }

  // ---- Field and status agreement ----

  predicate FieldsAgree(row: CaseRow) {
    && (row.reviewerID.Some? <==> row.caseStatus == Confirmed || row.caseStatus == Closed)
    && (row.closedAt.Some? <==> row.caseStatus == Closed)
    && (row.closedAt.Some? ==> row.closedAt.value <= row.updatedAt)
    && (row.conclusion != "" <==> row.caseStatus == Confirmed || row.caseStatus == Closed)
    && row.parameters.distanceToleranceM != 0.0 && row.parameters.lossIncreaseDB != 0.0
    && (row.caseStatus != Draft ==> row.analysisError == "")
    && (row.caseStatus == Draft ==> (row.analysisError == "" <==> row.version == 1))
    && (row.caseStatus == Draft || row.caseStatus == Analyzing ==>
          row.estimatedDistanceM == None && row.uncertaintyM == None && row.differences == [])
    && (row.caseStatus == PendingReview ==> EstimateStored(row))
    && (row.caseStatus == Confirmed || row.caseStatus == Closed ==>
          row.estimatedDistanceM.Some? && row.uncertaintyM.Some?)
  }

  /** The stored estimate is that of the primary difference, and is absent exactly without differences. */
  predicate EstimateStored(row: CaseRow) {
    match PrimaryOf(row.differences)
    case None => row.differences == [] && row.estimatedDistanceM == None && row.uncertaintyM == None
    case Some(e) =>
      && row.differences != []
      && row.estimatedDistanceM == Some(e.distanceM) && row.uncertaintyM == Some(e.uncertaintyM)
  }

  // ---- The database invariant ----

  predicate DatabaseOK(db: Database) {
    && (db.row.None? ==> db.audits == [])
    && (db.row.Some? ==>
          && Replay(db.audits) == At(db.row.value.caseStatus)
          && |db.audits| == db.row.value.version
          && FieldsAgree(db.row.value))
    && (forall i :: 0 <= i < |db.audits| ==> !Blank(db.audits[i].requestID))
  }

  predicate WorkersOK(s: System) {
    forall w :: w in s.workers && s.workers[w].stage.HasResult? ==> s.workers[w].stage.outcome != Failure("")
  }

  predicate Inv(s: System) {
    DatabaseOK(s.db) && WorkersOK(s)
  }

  /** A committed transaction: one more audit row, one more version, along an edge of the table. */
  predicate CommitStep(before: Database, after: Database) {
    && after.row.Some?
    && |after.audits| == |before.audits| + 1
    && before.audits <= after.audits
    && after.row.value.version == (if before.row.Some? then before.row.value.version else 0) + 1
    && (before.row.None? ==> after.row.value.caseStatus == Draft)
    && (before.row.Some? ==> CanTransition(before.row.value.caseStatus, after.row.value.caseStatus))
    && StepWalk(if before.row.Some? then At(before.row.value.caseStatus) else Nowhere,
                after.audits[|before.audits|].action)
         == At(after.row.value.caseStatus)
    && !Blank(after.audits[|before.audits|].requestID)
    && FieldsAgree(after.row.value)
  }

  lemma CommitKeepsDatabase(before: Database, after: Database)
    requires DatabaseOK(before) && CommitStep(before, after)
    ensures DatabaseOK(after)
  {
    assert after.audits == before.audits + [after.audits[|before.audits|]];
    assert after.audits[..|after.audits| - 1] == before.audits;
  }

  lemma CreateStep(s: System, actor: Actor, r: CreateRequest, b: bool, c: bool)
    requires Inv(s)
    ensures var t := ApplyCreate(s, actor, r, b, c); t.db == s.db || CommitStep(s.db, t.db)
  {
  }

  lemma RecoverStep(s: System, w: nat, seenNow: int)
    requires Inv(s)
    ensures var t := ApplyRecover(s, w, seenNow); t.db == s.db || CommitStep(s.db, t.db)
  {
  }

  lemma StartStep(s: System, w: nat, seenNow: int)
    requires Inv(s)
    ensures var t := ApplyStart(s, w, seenNow); t.db == s.db || CommitStep(s.db, t.db)
  {
  }

  lemma SaveStep(s: System, w: nat)
    requires Inv(s)
    ensures var t := ApplySave(s, w); t.db == s.db || CommitStep(s.db, t.db)
  {
  }

  lemma ConfirmStep(s: System, actor: Actor, r: ConfirmRequest)
    requires Inv(s)
    ensures var t := ApplyConfirm(s, actor, r); t.db == s.db || CommitStep(s.db, t.db)
  {
  }

  lemma CloseStep(s: System, actor: Actor, version: nat, seenNow: int)
    requires Inv(s)
    ensures var t := ApplyClose(s, actor, version, seenNow); t.db == s.db || CommitStep(s.db, t.db)
  {
  }

  /** Every step either leaves row and log alone or commits exactly one audited transition. */
  lemma {:induction false} StepCommitsOnce(s: System, e: Event)
    requires Inv(s)
    ensures Apply(s, e).db == s.db || CommitStep(s.db, Apply(s, e).db)
  {
    match e
    case Create(actor, r, b, c) => CreateStep(s, actor, r, b, c);
    case Recover(w, seenNow) => RecoverStep(s, w, seenNow);
    case Start(w, seenNow) => StartStep(s, w, seenNow);
    case Save(w) => SaveStep(s, w);
    case Confirm(actor, r) => ConfirmStep(s, actor, r);
    case Close(actor, version, seenNow) => CloseStep(s, actor, version, seenNow);
    case _ =>
  }

  lemma StepKeepsWorkers(s: System, e: Event)
    requires WorkersOK(s)
    ensures WorkersOK(Apply(s, e))
  {
  }

  lemma {:induction false} StepKeepsInv(s: System, e: Event)
    requires Inv(s)
    ensures Inv(Apply(s, e))
  {
    StepCommitsOnce(s, e);
    if Apply(s, e).db != s.db { CommitKeepsDatabase(s.db, Apply(s, e).db); }
    StepKeepsWorkers(s, e);
  }

  lemma {:induction false} RunKeepsInv(s: System, es: seq<Event>)
    requires Inv(s)
    ensures Inv(Run(s, es))
    decreases |es|
  {
    if es == [] {
    } else {
      StepKeepsInv(s, es[0]);
      RunKeepsInv(Apply(s, es[0]), es[1..]);
    }
  }

  /**
   In every reachable state the audit log of the case has one entry per version, replays along the
   edges of the status table to the stored status, and balances; the columns agree with the status.
   */
  lemma ReachableCase(clock: int, es: seq<Event>)
    ensures var db := Run(Initial(clock), es).db;
            db.row.Some? ==>
              && |db.audits| == db.row.value.version
              && Replay(db.audits) == At(db.row.value.caseStatus)
              && Conserved(db.audits, db.row.value.caseStatus)
              && FieldsAgree(db.row.value)
  {
    RunKeepsInv(Initial(clock), es);
    ReplayConserves(Run(Initial(clock), es).db.audits);
  }

  /** The estimate stored with a report is that of its primary difference, and absent exactly if there is none. */
  lemma {:induction false} StoredEstimateExactly(clock: int, es: seq<Event>) returns (k: nat)
    ensures var row := Run(Initial(clock), es).db.row;
            row.Some? && row.value.caseStatus == PendingReview ==>
              if row.value.differences == [] then
                row.value.estimatedDistanceM == None && row.value.uncertaintyM == None
              else
                && IsPrimary(row.value.differences, |row.value.differences|, k)
                && row.value.estimatedDistanceM.Some? && row.value.uncertaintyM.Some?
                && Estimates(Estimate(row.value.estimatedDistanceM.value, row.value.uncertaintyM.value),
                             row.value.differences[k])
  {
    k := 0;
    ReachableCase(clock, es);
    var row := Run(Initial(clock), es).db.row;
    if row.Some? && row.value.caseStatus == PendingReview { k := EstimateExactly(row.value.differences); }
  }

  lemma OddPlusEven(version: nat, retries: nat, rank: nat)
    requires version == 1 + 2 * retries + rank
    ensures version % 2 == (1 + rank) % 2
  {
  }

  /** The parity of the version is a function of the status. */
  lemma VersionParity(clock: int, es: seq<Event>)
    ensures var row := Run(Initial(clock), es).db.row;
            row.Some? ==> row.value.version % 2 == (1 + Rank(row.value.caseStatus)) % 2
  {
    ReachableCase(clock, es);
    var db := Run(Initial(clock), es).db;
    if db.row.Some? {
      OddPlusEven(db.row.value.version, Tally(db.audits, AnalysisFailed) + Tally(db.audits, AnalysisRecovered),
                  Rank(db.row.value.caseStatus));
    }
  }
}
