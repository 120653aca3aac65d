/**
 The analysis lease.  Saving is guarded by the status alone, so who may save rests on timing: a call that
 saves within the lease timeout of its own start is always the one whose start opened the current
 analyzing period.
 */
module CaseLease {
  import opened Wrappers
  import opened RequestID
  import opened CaseLifecycle
  import opened CaseInvariants
  import opened CaseRuns

  /** The version the row had right after this call's start committed. */
  function StartVersion(stage: Stage): nat
    requires Busy(stage)
  {
    stage.item.version
  }

  // ---- Without timing ----

  /** A busy call knows version and time stamp of its start; it opened the current period iff that is current. */
  predicate CallOK(s: System, w: nat)
    requires w in s.workers && Busy(s.workers[w].stage)
  {
    var stage := s.workers[w].stage;
    && s.db.row.Some?
    && stage.startedAt <= s.clock
    && StartVersion(stage) <= s.db.row.value.version
    && !Blank(s.workers[w].actor.requestID)
    && (StartVersion(stage) == s.db.row.value.version ==>
          && s.db.row.value.caseStatus == Analyzing
          && s.db.row.value.updatedAt == stage.startedAt
          && s.opener == Some(w))
    && (s.opener == Some(w) ==> StartVersion(stage) == s.db.row.value.version)
  }

  predicate CallsOK(s: System) {
    forall w :: w in s.workers && Busy(s.workers[w].stage) ==> CallOK(s, w)
  }

  lemma RecoverKeepsCalls(s: System, w: nat, seenNow: int)
    requires Inv(s) && CallsOK(s)
    ensures CallsOK(ApplyRecover(s, w, seenNow))
  {
  }

  lemma StartKeepsCalls(s: System, w: nat, seenNow: int)
    requires Inv(s) && CallsOK(s)
    ensures CallsOK(ApplyStart(s, w, seenNow))
  {
  }

  lemma SaveKeepsCalls(s: System, w: nat)
    requires Inv(s) && CallsOK(s)
    ensures CallsOK(ApplySave(s, w))
  {
  }

  lemma ConfirmKeepsCalls(s: System, actor: Actor, r: ConfirmRequest)
    requires Inv(s) && CallsOK(s)
    ensures CallsOK(ApplyConfirm(s, actor, r))
  {
  }

  lemma CloseKeepsCalls(s: System, actor: Actor, version: nat, seenNow: int)
    requires Inv(s) && CallsOK(s)
    ensures CallsOK(ApplyClose(s, actor, version, seenNow))
  {
  }

  lemma StepKeepsCalls(s: System, e: Event)
    requires Inv(s) && CallsOK(s)
    ensures CallsOK(Apply(s, e))
  {
    match e
    case Recover(w, seenNow) => RecoverKeepsCalls(s, w, seenNow);
    case Start(w, seenNow) => StartKeepsCalls(s, w, seenNow);
    case Save(w) => SaveKeepsCalls(s, w);
    case Confirm(actor, r) => ConfirmKeepsCalls(s, actor, r);
    case Close(actor, version, seenNow) => CloseKeepsCalls(s, actor, version, seenNow);
    case Create(actor, r, b, c) =>
    case _ => ReadKeepsCalls(s, e);
  }

  lemma ReadKeepsCalls(s: System, e: Event)
    requires CallsOK(s)
    requires e.Tick? || e.BeginAnalyze? || e.Reload? || e.Compute? || e.Crash?
    ensures CallsOK(Apply(s, e))
  {
  }

  lemma {:induction false} RunKeepsCalls(s: System, es: seq<Event>)
    requires Inv(s) && CallsOK(s)
    ensures CallsOK(Run(s, es))
    decreases |es|
  {
    if es == [] {
    } else {
      StepKeepsCalls(s, es[0]);
      StepKeepsInv(s, es[0]);
      RunKeepsCalls(Apply(s, es[0]), es[1..]);
    }
  }

  /**
   Exactly when a save lands where it belongs, in any run: the saving call opened the current analyzing
   period if and only if no transaction has committed since its start.
   */
  lemma SaveBelongs(clock: int, es: seq<Event>, w: nat)
    requires var s := Run(Initial(clock), es); w in s.workers && s.workers[w].stage.HasResult?
    ensures var s := Run(Initial(clock), es);
            s.db.row.Some? &&
            (s.opener == Some(w) && s.db.row.value.caseStatus == Analyzing
             <==> s.db.row.value.version == StartVersion(s.workers[w].stage))
    ensures var s := Run(Initial(clock), es);
            Apply(s, Save(w)).db != s.db <==> s.db.row.value.caseStatus == Analyzing
  {
    RunKeepsInv(Initial(clock), es);
    RunKeepsCalls(Initial(clock), es);
    var s := Run(Initial(clock), es);
    assert CallOK(s, w);
    StepCommitsOnce(s, Save(w));
  }

  // ---- With timing ----

  /** More than ten minutes have passed since the time stamp of the start. */
  predicate Expired(s: System, w: nat)
    requires w in s.workers && Busy(s.workers[w].stage)
  {
    s.clock > s.workers[w].stage.startedAt + 600_000_000_000
  }

  /** A save no later than the lease timeout after the time stamp of the start of the same call. */
  predicate TimelyStep(s: System, e: Event) {
    e.Save? && e.worker in s.workers && s.workers[e.worker].stage.HasResult? ==> !Expired(s, e.worker)
  }

  /** A run in which every call that still saves does so in time; the others have crashed. */
  predicate Timely(s: System, es: seq<Event>)
    decreases |es|
  {
    es != [] ==> TimelyStep(s, es[0]) && Timely(Apply(s, es[0]), es[1..])
  }

  /** A call that lost its analyzing period has outlived its lease. */
  predicate OnlyExpiredLose(s: System) {
    forall w :: w in s.workers && Busy(s.workers[w].stage) ==>
      s.db.row.Some? && (StartVersion(s.workers[w].stage) == s.db.row.value.version || Expired(s, w))
  }

  lemma RecoverEvictsExpired(s: System, w: nat, seenNow: int)
    requires Inv(s) && CallsOK(s) && OnlyExpiredLose(s)
    ensures OnlyExpiredLose(ApplyRecover(s, w, seenNow))
  {
  }

  lemma StartEvictsNobody(s: System, w: nat, seenNow: int)
    requires Inv(s) && CallsOK(s) && OnlyExpiredLose(s)
    ensures OnlyExpiredLose(ApplyStart(s, w, seenNow))
  {
  }

  lemma TimelySaveEvictsNobody(s: System, w: nat)
    requires Inv(s) && CallsOK(s) && OnlyExpiredLose(s) && TimelyStep(s, Save(w))
    ensures OnlyExpiredLose(ApplySave(s, w))
  {
  }

  lemma ReadEvictsNobody(s: System, e: Event)
    requires OnlyExpiredLose(s)
    requires e.Tick? || e.BeginAnalyze? || e.Reload? || e.Compute? || e.Crash?
    ensures OnlyExpiredLose(Apply(s, e))
  {
  }

  lemma ReviewEvictsNobody(s: System, e: Event)
    requires CallsOK(s) && OnlyExpiredLose(s)
    requires e.Create? || e.Confirm? || e.Close?
    ensures OnlyExpiredLose(Apply(s, e))
  {
  }

  lemma StepKeepsLeases(s: System, e: Event)
    requires Inv(s) && CallsOK(s) && OnlyExpiredLose(s) && TimelyStep(s, e)
    ensures OnlyExpiredLose(Apply(s, e))
  {
    match e
    case Recover(w, seenNow) => RecoverEvictsExpired(s, w, seenNow);
    case Start(w, seenNow) => StartEvictsNobody(s, w, seenNow);
    case Save(w) => TimelySaveEvictsNobody(s, w);
    case Create(_, _, _, _) => ReviewEvictsNobody(s, e);
    case Confirm(_, _) => ReviewEvictsNobody(s, e);
    case Close(_, _, _) => ReviewEvictsNobody(s, e);
    case _ => ReadEvictsNobody(s, e);
  }

  lemma {:induction false} RunKeepsLeases(s: System, es: seq<Event>)
    requires Inv(s) && CallsOK(s) && OnlyExpiredLose(s) && Timely(s, es)
    ensures OnlyExpiredLose(Run(s, es))
    decreases |es|
  {
    if es == [] {
    } else {
      StepKeepsLeases(s, es[0]);
      StepKeepsCalls(s, es[0]);
      StepKeepsInv(s, es[0]);
      RunKeepsLeases(Apply(s, es[0]), es[1..]);
    }
  }

  /**
   Fencing: after any timely run, a timely save always commits, and it is made by the call whose start
   opened the analyzing period it ends.
   */
  lemma LeaseFencing(clock: int, es: seq<Event>, w: nat)
    requires Timely(Initial(clock), es)
    requires var s := Run(Initial(clock), es);
             w in s.workers && s.workers[w].stage.HasResult? && TimelyStep(s, Save(w))
    ensures var s := Run(Initial(clock), es);
            && s.opener == Some(w)
            && s.db.row.Some?
            && s.db.row.value.version == StartVersion(s.workers[w].stage)
            && CommitStep(s.db, Apply(s, Save(w)).db)
  {
    RunKeepsInv(Initial(clock), es);
    RunKeepsCalls(Initial(clock), es);
    RunKeepsLeases(Initial(clock), es);
    var s := Run(Initial(clock), es);
    assert CallOK(s, w);
    StepCommitsOnce(s, Save(w));
  }

  /** Recovery never takes the period of a call that can still save in time. */
  lemma RecoverySparesTheLiving(clock: int, es: seq<Event>, w: nat, r: nat, seenNow: int)
    requires var s := Run(Initial(clock), es);
             && Apply(s, Recover(r, seenNow)).db != s.db
             && w in s.workers && Busy(s.workers[w].stage) && s.opener == Some(w)
    ensures Expired(Run(Initial(clock), es), w)
  {
    RunKeepsInv(Initial(clock), es);
    RunKeepsCalls(Initial(clock), es);
    var s := Run(Initial(clock), es);
    assert CallOK(s, w);
  }

  // ---- Why the timing hypothesis is needed ----

  /** The steps of a call that finds the case in draft at time `now`. */
  function DraftCall(w: nat, actor: Actor, request: AnalyzeRequest, now: int): seq<Event> {
    [BeginAnalyze(w, actor, request), Start(w, now)]
  }

  /** The steps of a call that finds an analysis older than the lease at time `now`. */
  function TakeoverCall(w: nat, actor: Actor, request: AnalyzeRequest, now: int): seq<Event> {
    [BeginAnalyze(w, actor, request), Recover(w, now)] + [Reload(w), Start(w, now)]
  }

  /** The case is being analyzed since now, on behalf of call `w`. */
  predicate Opened(s: System, w: nat, actor: Actor) {
    && s.opener == Some(w)
    && s.db.row.Some? && s.db.row.value.caseStatus == Analyzing && s.db.row.value.updatedAt == s.clock
    && w in s.workers && s.workers[w].stage.Working? && s.workers[w].stage.startedAt == s.clock
    && s.workers[w].actor == actor
  }

  ghost predicate OthersSame(s: System, t: System, w: nat) {
    t.clock == s.clock
    && forall v :: v != w ==> (v in t.workers <==> v in s.workers) && (v in s.workers ==> t.workers[v] == s.workers[v])
  }

  lemma DraftStarts(s: System, w: nat, actor: Actor, request: AnalyzeRequest)
    requires s.db.row.Some? && s.db.row.value.caseStatus == Draft
    requires w !in s.workers && !Blank(actor.requestID)
    ensures Opened(Run(s, DraftCall(w, actor, request, s.clock)), w, actor)
    ensures OthersSame(s, Run(s, DraftCall(w, actor, request, s.clock)), w)
  {
    RunTwo(s, BeginAnalyze(w, actor, request), Start(w, s.clock));
  }

  /** The first half: the stale row goes back to draft. */
  lemma StaleRecovers(s: System, w: nat, actor: Actor, request: AnalyzeRequest)
    requires s.db.row.Some? && s.db.row.value.caseStatus == Analyzing
    requires s.clock > s.db.row.value.updatedAt + 600_000_000_000
    requires w !in s.workers && !Blank(actor.requestID)
    ensures var t := Run(s, [BeginAnalyze(w, actor, request), Recover(w, s.clock)]);
            && Recovering(t, w, actor) && OthersSame(s, t, w)
            && t.db.row.value.version == s.db.row.value.version + 1
  {
    RunTwo(s, BeginAnalyze(w, actor, request), Recover(w, s.clock));
  }

  predicate Recovering(s: System, w: nat, actor: Actor) {
    && s.db.row.Some? && s.db.row.value.caseStatus == Draft
    && w in s.workers && s.workers[w].stage.MustReload? && s.workers[w].actor == actor
  }

  lemma RecoveredStarts(s: System, w: nat, actor: Actor)
    requires Recovering(s, w, actor) && !Blank(actor.requestID)
    ensures var t := Run(s, [Reload(w), Start(w, s.clock)]);
            Opened(t, w, actor) && OthersSame(s, t, w) && t.db.row.value.version == s.db.row.value.version + 1
  {
    RunTwo(s, Reload(w), Start(w, s.clock));
  }

  /**
   A crashed analysis never blocks the case: once the lease has run out, a fresh call that is not
   disturbed recovers the case and becomes its opener, two versions later.
   */
  lemma StaleCaseRestarts(s: System, w: nat, actor: Actor, request: AnalyzeRequest)
    requires s.db.row.Some? && s.db.row.value.caseStatus == Analyzing
    requires s.clock > s.db.row.value.updatedAt + 600_000_000_000
    requires w !in s.workers && !Blank(actor.requestID)
    ensures var t := Run(s, TakeoverCall(w, actor, request, s.clock));
            Opened(t, w, actor) && OthersSame(s, t, w) && t.db.row.value.version == s.db.row.value.version + 2
  {
    var first := [BeginAnalyze(w, actor, request), Recover(w, s.clock)];
    RunConcat(s, first, [Reload(w), Start(w, s.clock)]);
    StaleRecovers(s, w, actor, request);
    RecoveredStarts(Run(s, first), w, actor);
  }

  /** The first call outlives its lease, a second one takes the case over, and then the first has a result. */
  function LateRun(first: Actor, second: Actor, create: CreateRequest, request: AnalyzeRequest): seq<Event> {
    [Create(first, create, true, true)]
    + (DraftCall(1, first, request, 0)
       + ([Tick(LEASE_TIMEOUT + 1)]
          + (TakeoverCall(2, second, request, LEASE_TIMEOUT + 1)
             + [Compute(1, Success([]))])))
  }

  /** A late result is accepted whoever opened the period, and locks out the call that did. */
  lemma {:induction false} LateSaveLocksOut(s: System, late: nat, opener: nat, outcome: Outcome)
    requires s.db.row.Some? && s.db.row.value.caseStatus == Analyzing
    requires late != opener && late in s.workers && s.workers[late].stage.HasResult?
    requires s.workers[late].stage.outcome == Success([])
    requires opener in s.workers && s.workers[opener].stage.Working? && outcome != Failure("")
    requires !Blank(s.workers[late].actor.requestID)
    ensures LockedOut(s, late, opener, outcome)
  {
  }

  /** If `late` saves now, its result is stored, and `opener`'s own result is then refused. */
  predicate LockedOut(s: System, late: nat, opener: nat, outcome: Outcome) {
    var t := Apply(s, Save(late));
    var u := Apply(t, Compute(opener, outcome));
    && t.db.row.Some? && t.db.row.value.caseStatus == PendingReview
    && |t.db.audits| == |s.db.audits| + 1
    && opener in u.workers && u.workers[opener].stage.HasResult?
    && Apply(u, Save(opener)).db == t.db
  }

  /** Call 1 has outlived its lease while call 2 works in a period of its own. */
  predicate Overtaken(s: System, first: Actor) {
    && s.opener == Some(2)
    && s.db.row.Some? && s.db.row.value.caseStatus == Analyzing
    && 1 in s.workers && s.workers[1].actor == first
    && s.workers[1].stage.Working? && Expired(s, 1)
    && 2 in s.workers && s.workers[2].stage.Working?
  }

  /** A new case, call 1 at work on it, and the lease run out. */
  lemma FirstCallExpires(s: System, first: Actor, request: AnalyzeRequest)
    requires s.db.row.Some? && s.db.row.value.caseStatus == Draft
    requires s.workers == map[] && !Blank(first.requestID)
    ensures var t := Apply(Run(s, DraftCall(1, first, request, s.clock)), Tick(LEASE_TIMEOUT + 1));
            && t.clock == s.clock + LEASE_TIMEOUT + 1
            && t.db.row.Some? && t.db.row.value.caseStatus == Analyzing
            && t.clock > t.db.row.value.updatedAt + LEASE_TIMEOUT
            && 1 in t.workers && t.workers[1].actor == first && t.workers[1].stage.Working? && Expired(t, 1)
            && 2 !in t.workers
  {
    DraftStarts(s, 1, first, request);
  }

  lemma SecondCallTakesOver(s: System, first: Actor, second: Actor, request: AnalyzeRequest)
    requires s.db.row.Some? && s.db.row.value.caseStatus == Analyzing
    requires s.clock > s.db.row.value.updatedAt + 600_000_000_000
    requires 1 in s.workers && s.workers[1].actor == first && s.workers[1].stage.Working? && Expired(s, 1)
    requires 2 !in s.workers && !Blank(second.requestID)
    ensures Overtaken(Run(s, TakeoverCall(2, second, request, s.clock)), first)
  {
    StaleCaseRestarts(s, 2, second, request);
  }

  lemma OvertakenSaves(s: System, first: Actor, outcome: Outcome)
    requires Overtaken(s, first) && !Blank(first.requestID) && outcome != Failure("")
    ensures var t := Apply(s, Compute(1, Success([])));
            && t.opener == Some(2)
            && 1 in t.workers && t.workers[1].stage.HasResult? && !TimelyStep(t, Save(1))
            && LockedOut(t, 1, 2, outcome)
  {
    LateSaveLocksOut(Apply(s, Compute(1, Success([]))), 1, 2, outcome);
  }

  /**
   Without the hypothesis fencing fails: for every pair of callers there is a run in which the expired
   call 1 ends the period that call 2 opened, and call 2's own result is then refused.
   */
  lemma LateSaveSteals(first: Actor, second: Actor, create: CreateRequest, request: AnalyzeRequest, outcome: Outcome)
    requires !Blank(first.requestID) && !Blank(second.requestID)
    requires create.baselineTraceID != create.currentTraceID && outcome != Failure("")
    ensures var s := Run(Initial(0), LateRun(first, second, create, request));
            && s.opener == Some(2)
            && 1 in s.workers && s.workers[1].stage.HasResult? && !TimelyStep(s, Save(1))
            && LockedOut(s, 1, 2, outcome)
  {
    var create1 := Create(first, create, true, true);
    var s1 := Apply(Initial(0), create1);
    FirstCallExpires(s1, first, request);
    var s3 := Apply(Run(s1, DraftCall(1, first, request, 0)), Tick(LEASE_TIMEOUT + 1));
    SecondCallTakesOver(s3, first, second, request);
    var s4 := Run(s3, TakeoverCall(2, second, request, LEASE_TIMEOUT + 1));
    OvertakenSaves(s4, first, outcome);
    LateRunPhases(Initial(0), create1, DraftCall(1, first, request, 0), Tick(LEASE_TIMEOUT + 1),
                  TakeoverCall(2, second, request, LEASE_TIMEOUT + 1), Compute(1, Success([])));
  }

  lemma LateRunPhases(s: System, create: Event, draft: seq<Event>, wait: Event, takeover: seq<Event>, late: Event)
    ensures Run(s, [create] + (draft + ([wait] + (takeover + [late]))))
         == Apply(Run(Apply(Run(Apply(s, create), draft), wait), takeover), late)
  {
    RunConcat(s, [create], draft + ([wait] + (takeover + [late])));
    RunOne(s, create);
    var s1 := Apply(s, create);
    RunConcat(s1, draft, [wait] + (takeover + [late]));
    var s2 := Run(s1, draft);
    RunConcat(s2, [wait], takeover + [late]);
    RunOne(s2, wait);
    var s3 := Apply(s2, wait);
    RunConcat(s3, takeover, [late]);
    RunOne(Run(s3, takeover), late);
  }
}
