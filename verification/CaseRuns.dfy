/** Properties of whole runs: versions, winners, and what can no longer change. */
module CaseRuns {
  import opened Wrappers
  import opened CaseLifecycle
  import opened CaseInvariants

  // ---- Runs in pieces ----

  lemma {:induction false} RunConcat(s: System, a: seq<Event>, b: seq<Event>)
    ensures Run(s, a + b) == Run(Run(s, a), b)
    decreases |a|
  {
    if a == [] {
      assert a + b == b;
    } else {
      assert (a + b)[0] == a[0] && (a + b)[1..] == a[1..] + b;
      RunConcat(Apply(s, a[0]), a[1..], b);
    }
  }

  lemma RunOne(s: System, e: Event)
    ensures Run(s, [e]) == Apply(s, e)
  {
    assert [e][1..] == [];
  }

  lemma RunTwo(s: System, e: Event, f: Event)
    ensures Run(s, [e, f]) == Apply(Apply(s, e), f)
  {
    assert [e, f] == [e] + [f];
    RunConcat(s, [e], [f]);
    RunOne(s, e);
    RunOne(Apply(s, e), f);
  }

  // ---- Versions ----

  function VersionOf(db: Database): nat {
    if db.row.Some? then db.row.value.version else 0
  }

  /** The rows committed during a run, in order. */
  function Committed(s: System, es: seq<Event>): seq<CaseRow>
    decreases |es|
  {
    if es == [] then []
    else
      var t := Apply(s, es[0]);
      (if t.db != s.db && t.db.row.Some? then [t.db.row.value] else []) + Committed(t, es[1..])
  }

  /** Rows numbered from `version + 1` upwards. */
  predicate Consecutive(rows: seq<CaseRow>, version: nat) {
    forall i :: 0 <= i < |rows| ==> rows[i].version == version + 1 + i
  }

  lemma ConsecutivePrepend(row: CaseRow, rows: seq<CaseRow>, version: nat)
    requires row.version == version + 1 && Consecutive(rows, version + 1)
    ensures Consecutive([row] + rows, version)
  {
  }

  /** Committed versions are consecutive: nothing is skipped, repeated or lost. */
  lemma {:induction false} CommittedVersions(s: System, es: seq<Event>)
    requires Inv(s)
    ensures Consecutive(Committed(s, es), VersionOf(s.db))
    ensures VersionOf(Run(s, es).db) == VersionOf(s.db) + |Committed(s, es)|
    decreases |es|
  {
    if es == [] {
    } else {
      var t := Apply(s, es[0]);
      StepCommitsOnce(s, es[0]);
      StepKeepsInv(s, es[0]);
      CommittedVersions(t, es[1..]);
      if t.db != s.db {
        ConsecutivePrepend(t.db.row.value, Committed(t, es[1..]), VersionOf(s.db));
      } else {
        assert Committed(s, es) == Committed(t, es[1..]);
      }
    }
  }

  /** The stored row is the last one committed. */
  lemma {:induction false} LastCommitted(s: System, es: seq<Event>)
    requires Inv(s)
    ensures var rows := Committed(s, es);
            Run(s, es).db.row == if rows == [] then s.db.row else Some(rows[|rows| - 1])
    decreases |es|
  {
    if es == [] {
    } else {
      StepCommitsOnce(s, es[0]);
      StepKeepsInv(s, es[0]);
      var t := Apply(s, es[0]);
      LastCommitted(t, es[1..]);
      var rows, rest := Committed(s, es), Committed(t, es[1..]);
      if t.db != s.db {
        assert rows == [t.db.row.value] + rest;
      } else {
        assert rows == rest;
      }
    }
  }

  /** From an empty database the committed versions are 1, 2, 3, ... */
  lemma VersionsFromOne(clock: int, es: seq<Event>)
    ensures Consecutive(Committed(Initial(clock), es), 0)
    ensures VersionOf(Run(Initial(clock), es).db) == |Committed(Initial(clock), es)|
  {
    CommittedVersions(Initial(clock), es);
  }

  /** The audit log only grows, and the part that was there never changes. */
  lemma {:induction false} AuditsAppendOnly(s: System, es: seq<Event>)
    requires Inv(s)
    ensures s.db.audits <= Run(s, es).db.audits
    decreases |es|
  {
    if es == [] {
    } else {
      StepCommitsOnce(s, es[0]);
      StepKeepsInv(s, es[0]);
      AuditsAppendOnly(Apply(s, es[0]), es[1..]);
    }
  }

  // ---- Single winner ----

  /** The version a compare-and-swap request carries. */
  function Carried(s: System, e: Event): Option<nat> {
    match e
    case Start(w, _) =>
      if w in s.workers && s.workers[w].stage.HasRead? then Some(s.workers[w].stage.item.version) else None
    case Confirm(_, r) => Some(r.version)
    case Close(_, version, _) => Some(version)
    case _ => None
  }

  predicate Wins(s: System, e: Event, version: nat) {
    Carried(s, e) == Some(version) && Apply(s, e).db != s.db
  }

  /** How many requests carrying `version` commit during a run. */
  function Winners(s: System, es: seq<Event>, version: nat): nat
    decreases |es|
  {
    if es == [] then 0 else B2N(Wins(s, es[0], version)) + Winners(Apply(s, es[0]), es[1..], version)
  }

  lemma WinnerMovesOn(s: System, e: Event, version: nat)
    requires Wins(s, e, version)
    ensures s.db.row.Some? && s.db.row.value.version == version
    ensures VersionOf(Apply(s, e).db) == version + 1
  {
  }

  lemma StepVersionMonotone(s: System, e: Event)
    requires Inv(s)
    ensures VersionOf(s.db) <= VersionOf(Apply(s, e).db)
  {
    StepCommitsOnce(s, e);
  }

  lemma {:induction false} NoLateWinner(s: System, es: seq<Event>, version: nat)
    requires Inv(s) && VersionOf(s.db) > version
    ensures Winners(s, es, version) == 0
    decreases |es|
  {
    if es == [] {
    } else {
      if Wins(s, es[0], version) { WinnerMovesOn(s, es[0], version); }
      StepKeepsInv(s, es[0]);
      StepVersionMonotone(s, es[0]);
      NoLateWinner(Apply(s, es[0]), es[1..], version);
    }
  }

  /** However many requests carry the same version, at most one of them commits. */
  lemma {:induction false} SingleWinner(s: System, es: seq<Event>, version: nat)
    requires Inv(s)
    ensures Winners(s, es, version) <= 1
    decreases |es|
  {
    if es == [] {
    } else {
      StepKeepsInv(s, es[0]);
      if Wins(s, es[0], version) {
        WinnerMovesOn(s, es[0], version);
        NoLateWinner(Apply(s, es[0]), es[1..], version);
      } else {
        SingleWinner(Apply(s, es[0]), es[1..], version);
      }
    }
  }

  // ---- Frozen results ----

  predicate Settled(status: CaseStatus) {
    Rank(status) >= 2
  }

  lemma SettledStep(s: System, e: Event)
    requires s.db.row.Some? && Settled(s.db.row.value.caseStatus)
    ensures var t := Apply(s, e).db.row;
            && t.Some?
            && Rank(s.db.row.value.caseStatus) <= Rank(t.value.caseStatus)
            && t.value.differences == s.db.row.value.differences
            && t.value.parameters == s.db.row.value.parameters
            && (s.db.row.value.caseStatus == Closed ==> Apply(s, e).db == s.db)
  {
  }

  /**
   Once an analysis has been stored, no step of any call changes its differences or parameters, and the
   case never moves back.
   */
  lemma {:induction false} ResultsFrozen(s: System, es: seq<Event>)
    requires s.db.row.Some? && Settled(s.db.row.value.caseStatus)
    ensures var t := Run(s, es).db.row;
            && t.Some?
            && Rank(s.db.row.value.caseStatus) <= Rank(t.value.caseStatus)
            && t.value.differences == s.db.row.value.differences
            && t.value.parameters == s.db.row.value.parameters
    decreases |es|
  {
    if es == [] {
    } else {
      SettledStep(s, es[0]);
      ResultsFrozen(Apply(s, es[0]), es[1..]);
    }
  }

  /** A closed case, and its log, never change again. */
  lemma {:induction false} ClosedForever(s: System, es: seq<Event>)
    requires s.db.row.Some? && s.db.row.value.caseStatus == Closed
    ensures Run(s, es).db == s.db
    decreases |es|
  {
    if es == [] {
    } else {
      SettledStep(s, es[0]);
      ClosedForever(Apply(s, es[0]), es[1..]);
    }
  }

  /** The conclusion, the reviewer and the confirmed estimate survive closing. */
  lemma ConfirmedStep(s: System, e: Event)
    requires s.db.row.Some? && Rank(s.db.row.value.caseStatus) >= 3
    ensures var t := Apply(s, e).db.row;
            && t.Some? && Rank(t.value.caseStatus) >= 3
            && t.value.conclusion == s.db.row.value.conclusion
            && t.value.reviewerID == s.db.row.value.reviewerID
            && t.value.estimatedDistanceM == s.db.row.value.estimatedDistanceM
            && t.value.uncertaintyM == s.db.row.value.uncertaintyM
  {
  }

  lemma {:induction false} ConclusionFrozen(s: System, es: seq<Event>)
    requires s.db.row.Some? && Rank(s.db.row.value.caseStatus) >= 3
    ensures var t := Run(s, es).db.row;
            && t.Some? && Rank(t.value.caseStatus) >= 3
            && t.value.conclusion == s.db.row.value.conclusion
            && t.value.reviewerID == s.db.row.value.reviewerID
            && t.value.estimatedDistanceM == s.db.row.value.estimatedDistanceM
            && t.value.uncertaintyM == s.db.row.value.uncertaintyM
    decreases |es|
  {
    if es == [] {
    } else {
      ConfirmedStep(s, es[0]);
      ConclusionFrozen(Apply(s, es[0]), es[1..]);
    }
  }

  /** Pending review, confirmation and closing each happen at most once, and only in that order. */
  lemma EnteredOnce(clock: int, es: seq<Event>)
    ensures var audits := Run(Initial(clock), es).db.audits;
            1 >= Tally(audits, AnalysisCompleted) >= Tally(audits, CaseConfirmed) >= Tally(audits, CaseClosed)
  {
    RunKeepsInv(Initial(clock), es);
    var db := Run(Initial(clock), es).db;
    ReplayConserves(db.audits);
    if db.row.None? { TalliesEmpty(); }
  }
}
