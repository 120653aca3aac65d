/**
 Baseline comparison (`compare.go`): greedy one-to-one matching of baseline events to current
 events, the differences it yields, and the choice of the primary difference.
 */
module Comparison {
  import opened Wrappers
  import opened Numbers

  datatype ComparableEvent = ComparableEvent(id: nat, distanceM: real, insertionLossDB: real, confidence: real)

  /** The three kinds, in the alphabetical order of their names. */
  datatype Kind = Disappeared | LossIncreased | New

  datatype Difference = Difference(
    kind: Kind,
    baselineEventID: Option<nat>,
    currentEventID: Option<nat>,
    distanceM: real,
    lossDeltaDB: real,
    confidence: real)

  // ---- Matching ----

  function Gap(base: ComparableEvent, candidate: ComparableEvent): (gap: real)
    ensures gap >= 0.0
    ensures gap == base.distanceM - candidate.distanceM || gap == candidate.distanceM - base.distanceM
  {
    Abs(base.distanceM - candidate.distanceM)
  }

  /** The first of the closest unused candidates among the first `n` that are within tolerance, or -1. */
  function NearestUpTo(base: ComparableEvent, current: seq<ComparableEvent>, used: set<int>, tolerance: real,
      n: nat): (r: int)
    requires n <= |current|
    ensures -1 <= r < n
  {
    if n == 0 then -1
    else
      var m := NearestUpTo(base, current, used, tolerance, n - 1);
      if n - 1 !in used && Gap(base, current[n - 1]) <= tolerance
         && (m < 0 || Gap(base, current[n - 1]) < Gap(base, current[m]))
      then n - 1
      else m
  }

  function Nearest(base: ComparableEvent, current: seq<ComparableEvent>, used: set<int>, tolerance: real): (r: int)
    ensures -1 <= r < |current|
  {
    NearestUpTo(base, current, used, tolerance, |current|)
  }

  /**
   Among the first `n` candidates, `r` is the first of the unused ones closest to `base` and within tolerance of
   it, or -1 if no unused one is within tolerance.
   */
  predicate IsNearestUpTo(base: ComparableEvent, current: seq<ComparableEvent>, used: set<int>, tolerance: real,
      n: nat, r: int)
    requires n <= |current|
  {
    if r < 0 then
      && r == -1
      && forall i :: 0 <= i < n && i !in used ==>
           base.distanceM - current[i].distanceM > tolerance || base.distanceM - current[i].distanceM < -tolerance
    else
      && r < n && r !in used
      && -tolerance <= base.distanceM - current[r].distanceM <= tolerance
      && (forall i :: 0 <= i < n && i !in used ==>
            Abs(base.distanceM - current[r].distanceM) <= Abs(base.distanceM - current[i].distanceM))
      && (forall i :: 0 <= i < r && i !in used ==>
            Abs(base.distanceM - current[r].distanceM) < Abs(base.distanceM - current[i].distanceM))
  }

  /** The candidate an event gets. */
  predicate IsNearest(base: ComparableEvent, current: seq<ComparableEvent>, used: set<int>, tolerance: real, r: int) {
    IsNearestUpTo(base, current, used, tolerance, |current|, r)
  }

  lemma {:induction false} NearestUpToExact(base: ComparableEvent, current: seq<ComparableEvent>, used: set<int>,
      tolerance: real, n: nat)
    requires n <= |current|
    ensures IsNearestUpTo(base, current, used, tolerance, n, NearestUpTo(base, current, used, tolerance, n))
  {
    if n == 0 {
    } else {
      NearestUpToExact(base, current, used, tolerance, n - 1);
      NearestUpToStep(base, current, used, tolerance, n - 1, NearestUpTo(base, current, used, tolerance, n - 1));
    }
  }

  /** One more candidate is in tolerance and closer than the choice so far, or the choice stays. */
  lemma {:induction false} NearestUpToStep(base: ComparableEvent, current: seq<ComparableEvent>, used: set<int>,
      tolerance: real, n: nat, r: int)
    requires n < |current| && IsNearestUpTo(base, current, used, tolerance, n, r)
    ensures var takes := n !in used && Gap(base, current[n]) <= tolerance
                         && (r < 0 || Gap(base, current[n]) < Gap(base, current[r]));
            IsNearestUpTo(base, current, used, tolerance, n + 1, if takes then n else r)
  {
  }

  lemma NearestExact(base: ComparableEvent, current: seq<ComparableEvent>, used: set<int>, tolerance: real)
    ensures IsNearest(base, current, used, tolerance, Nearest(base, current, used, tolerance))
  {
    NearestUpToExact(base, current, used, tolerance, |current|);
  }

  /** Nothing else meets that description. */
  lemma NearestUnique(base: ComparableEvent, current: seq<ComparableEvent>, used: set<int>, tolerance: real, r: int)
    requires IsNearest(base, current, used, tolerance, r)
    ensures r == Nearest(base, current, used, tolerance)
  {
    NearestExact(base, current, used, tolerance);
  }

  function Used(matches: seq<int>): set<int> {
    set i | 0 <= i < |matches| && matches[i] >= 0 :: matches[i]
  }

  /** The matches of the first `k` baseline events, each taken with the earlier ones already used. */
  function MatchUpTo(baseline: seq<ComparableEvent>, current: seq<ComparableEvent>, tolerance: real,
      k: nat): (m: seq<int>)
    requires k <= |baseline|
    ensures |m| == k
    ensures forall i :: 0 <= i < k ==> -1 <= m[i] < |current|
  {
    if k == 0 then []
    else
      var m := MatchUpTo(baseline, current, tolerance, k - 1);
      m + [Nearest(baseline[k - 1], current, Used(m), tolerance)]
  }

  function Match(baseline: seq<ComparableEvent>, current: seq<ComparableEvent>, tolerance: real): (m: seq<int>)
    ensures |m| == |baseline|
    ensures forall i :: 0 <= i < |m| ==> -1 <= m[i] < |current|
  {
    MatchUpTo(baseline, current, tolerance, |baseline|)
  }

  // ---- Differences ----

  function DisappearedEntry(base: ComparableEvent): Difference {
    Difference(Disappeared, Some(base.id), None, base.distanceM, 0.0, Round3(base.confidence * 0.9))
  }

  function LossEntry(base: ComparableEvent, candidate: ComparableEvent): Difference {
    Difference(LossIncreased, Some(base.id), Some(candidate.id), candidate.distanceM,
               Round3(candidate.insertionLossDB - base.insertionLossDB),
               Round3(MinReal(base.confidence, candidate.confidence)))
  }

  function NewEntry(candidate: ComparableEvent): Difference {
    Difference(New, None, Some(candidate.id), candidate.distanceM, candidate.insertionLossDB,
               Round3(candidate.confidence))
  }

  /** What one baseline event contributes. */
  function BaseEntry(base: ComparableEvent, current: seq<ComparableEvent>, target: int,
      lossIncrease: real): seq<Difference>
    requires -1 <= target < |current|
  {
    if target < 0 then [DisappearedEntry(base)]
    else if current[target].insertionLossDB - base.insertionLossDB >= lossIncrease
    then [LossEntry(base, current[target])]
    else []
  }

  function BaseEntries(baseline: seq<ComparableEvent>, current: seq<ComparableEvent>, matches: seq<int>,
      lossIncrease: real): seq<Difference>
    requires |matches| == |baseline|
    requires forall i :: 0 <= i < |matches| ==> -1 <= matches[i] < |current|
  {
    if baseline == [] then []
    else
      var k := |baseline| - 1;
      BaseEntries(baseline[..k], current, matches[..k], lossIncrease)
      + BaseEntry(baseline[k], current, matches[k], lossIncrease)
  }

  function NewEntries(current: seq<ComparableEvent>, used: set<int>, n: nat): seq<Difference>
    requires n <= |current|
  {
    if n == 0 then []
    else NewEntries(current, used, n - 1) + (if n - 1 in used then [] else [NewEntry(current[n - 1])])
  }

  /** The differences in the order the loops collect them, before sorting. */
  function Collected(baseline: seq<ComparableEvent>, current: seq<ComparableEvent>, tolerance: real,
      lossIncrease: real): seq<Difference> {
    var matches := Match(baseline, current, tolerance);
    BaseEntries(baseline, current, matches, lossIncrease) + NewEntries(current, Used(matches), |current|)
  }

  /** By distance, then by the name of the kind; ties are in no particular order. */
  predicate Precedes(a: Difference, b: Difference) {
    a.distanceM < b.distanceM
    || (a.distanceM == b.distanceM && (a.kind == b.kind || a.kind == Disappeared || b.kind == New))
  }

  /** What orders the names of the kinds, their first letters: `disappeared`, `loss_increased`, `new`. */
  function InitialOf(k: Kind): char {
    match k case Disappeared => 'd' case LossIncreased => 'l' case New => 'n'
  }

  predicate OrderedDifferences(ds: seq<Difference>) {
    forall i, j :: 0 <= i < j < |ds| ==> Precedes(ds[i], ds[j])
  }

  /** A possible result of the comparison: the collected differences in some ordered arrangement. */
  predicate IsComparison(baseline: seq<ComparableEvent>, current: seq<ComparableEvent>, tolerance: real,
      lossIncrease: real, ds: seq<Difference>) {
    OrderedDifferences(ds) && multiset(ds) == multiset(Collected(baseline, current, tolerance, lossIncrease))
  }

  /** `sort.Slice`: an ordered permutation, nothing more. */
  method SortDifferences(ds: seq<Difference>) returns (r: seq<Difference>)
    ensures OrderedDifferences(r) && multiset(r) == multiset(ds)
  {
    r := [];
    for i := 0 to |ds|
      invariant OrderedDifferences(r)
      invariant multiset(r) == multiset(ds[..i])
    {
      assert ds[..i + 1] == ds[..i] + [ds[i]];
      r := InsertDifference(ds[i], r);
    }
    assert ds[..|ds|] == ds;
  }

  lemma PrecedesTransitive(a: Difference, b: Difference, c: Difference)
    ensures Precedes(a, b) || Precedes(b, a)
    ensures Precedes(a, b) && Precedes(b, c) ==> Precedes(a, c)
  {
  }

  lemma BelowSplice(s: seq<Difference>, j: nat, d: Difference)
    requires OrderedDifferences(s) && j <= |s|
    requires j > 0 ==> Precedes(s[j - 1], d)
    ensures forall k :: 0 <= k < j ==> Precedes(s[k], d)
  {
    forall k | 0 <= k < j
      ensures Precedes(s[k], d)
    {
      if k < j - 1 { PrecedesTransitive(s[k], s[j - 1], d); }
    }
  }

  lemma SpliceOrdered(s: seq<Difference>, j: nat, d: Difference)
    requires OrderedDifferences(s) && j <= |s|
    requires forall k :: 0 <= k < j ==> Precedes(s[k], d)
    requires forall k :: j <= k < |s| ==> Precedes(d, s[k])
    ensures OrderedDifferences(s[..j] + [d] + s[j..])
  {
    var r := s[..j] + [d] + s[j..];
    forall i, k | 0 <= i < k < |r|
      ensures Precedes(r[i], r[k])
    {
      if i < j {
        assert r[i] == s[i];
      } else if i > j {
        assert r[i] == s[i - 1];
      }
      if k < j {
        assert r[k] == s[k];
      } else if k > j {
        assert r[k] == s[k - 1];
      }
    }
  }

  lemma {:induction false} SpliceInto(d: Difference, s: seq<Difference>) returns (r: seq<Difference>)
    requires OrderedDifferences(s)
    ensures OrderedDifferences(r) && multiset(r) == multiset(s) + multiset{d}
  {
    var j := |s|;
    while j > 0 && !Precedes(s[j - 1], d)
      invariant 0 <= j <= |s|
      invariant forall k :: j <= k < |s| ==> Precedes(d, s[k])
    {
      PrecedesTransitive(s[j - 1], d, d);
      j := j - 1;
    }
    BelowSplice(s, j, d);
    SpliceOrdered(s, j, d);
    assert s == s[..j] + s[j..];
    r := s[..j] + [d] + s[j..];
  }

  /** Every list of differences has an ordered arrangement. */
  lemma {:induction false} Arrange(ds: seq<Difference>) returns (r: seq<Difference>)
    ensures OrderedDifferences(r) && multiset(r) == multiset(ds)
    decreases |ds|
  {
    if ds == [] {
      r := [];
    } else {
      var s := Arrange(ds[1..]);
      assert ds == [ds[0]] + ds[1..];
      r := SpliceInto(ds[0], s);
    }
  }

  method InsertDifference(d: Difference, s: seq<Difference>) returns (r: seq<Difference>)
    requires OrderedDifferences(s)
    ensures OrderedDifferences(r) && multiset(r) == multiset(s) + multiset{d}
  {
    var j := |s|;
    while j > 0 && !Precedes(s[j - 1], d)
      invariant 0 <= j <= |s|
      invariant forall k :: j <= k < |s| ==> Precedes(d, s[k])
    {
      PrecedesTransitive(s[j - 1], d, d);
      j := j - 1;
    }
    BelowSplice(s, j, d);
    SpliceOrdered(s, j, d);
    assert s == s[..j] + s[j..];
    r := s[..j] + [d] + s[j..];
  }

  /** The inner scan over the candidates. */
  method FindNearest(base: ComparableEvent, current: seq<ComparableEvent>, used: set<int>,
      tolerance: real) returns (found: int)
    ensures found == Nearest(base, current, used, tolerance)
    ensures IsNearest(base, current, used, tolerance, found)
  {
    var best := 0.0;
    found := -1;
    for i := 0 to |current|
      invariant found == NearestUpTo(base, current, used, tolerance, i)
      invariant found >= 0 ==> best == Gap(base, current[found])
    {
      if i !in used {
        var delta := Abs(base.distanceM - current[i].distanceM);
        if delta <= tolerance && (found < 0 || delta < best) {
          found, best := i, delta;
        }
      }
    }
    NearestExact(base, current, used, tolerance);
  }

  /** The first loop: match every baseline event and record what it lost. */
  method CompareBases(baseline: seq<ComparableEvent>, current: seq<ComparableEvent>, tolerance: real,
      lossIncrease: real)
    returns (used: set<int>, differences: seq<Difference>)
    ensures used == Used(Match(baseline, current, tolerance))
    ensures differences == BaseEntries(baseline, current, Match(baseline, current, tolerance), lossIncrease)
  {
    used, differences := {}, [];
    ghost var matches := Match(baseline, current, tolerance);
    for k := 0 to |baseline|
      invariant used == Used(matches[..k])
      invariant differences == BaseEntries(baseline[..k], current, matches[..k], lossIncrease)
    {
      var base := baseline[k];
      MatchStep(baseline, current, tolerance, k);
      BaseEntriesStep(baseline, current, matches, lossIncrease, k);
      UsedStep(matches, k);
      var target := FindNearest(base, current, used, tolerance);
      if target < 0 {
        differences := differences + [DisappearedEntry(base)];
      } else {
        used := used + {target};
        var candidate := current[target];
        var lossDelta := candidate.insertionLossDB - base.insertionLossDB;
        if lossDelta >= lossIncrease {
          differences := differences + [LossEntry(base, candidate)];
        }
      }
    }
    assert matches[..|baseline|] == matches && baseline[..|baseline|] == baseline;
  }

  method CompareBaseline(baseline: seq<ComparableEvent>, current: seq<ComparableEvent>, tolerance: real,
      lossIncrease: real)
    returns (r: Result<seq<Difference>>)
    ensures tolerance <= 0.0 ==> r == Err(BadTolerance)
    ensures tolerance > 0.0 && lossIncrease <= 0.0 ==> r == Err(BadLossThreshold)
    ensures tolerance > 0.0 && lossIncrease > 0.0 ==>
              r.Ok? && IsComparison(baseline, current, tolerance, lossIncrease, r.value)
    ensures r.Ok? ==> forall i, j :: 0 <= i < j < |r.value| ==>
              r.value[i].distanceM < r.value[j].distanceM
              || (r.value[i].distanceM == r.value[j].distanceM
                  && InitialOf(r.value[i].kind) <= InitialOf(r.value[j].kind))
  {
    if tolerance <= 0.0 { return Err(BadTolerance); }
    if lossIncrease <= 0.0 { return Err(BadLossThreshold); }
    var used, differences := CompareBases(baseline, current, tolerance, lossIncrease);
    ghost var entries := differences;
    for i := 0 to |current|
      invariant differences == entries + NewEntries(current, used, i)
    {
      if i !in used {
        differences := differences + [NewEntry(current[i])];
      }
    }
    assert differences == Collected(baseline, current, tolerance, lossIncrease);
    var sorted := SortDifferences(differences);
    r := Ok(sorted);
  }

  lemma {:induction false} MatchPrefixOf(baseline: seq<ComparableEvent>, current: seq<ComparableEvent>,
      tolerance: real, k: nat, n: nat)
    requires k <= n <= |baseline|
    ensures MatchUpTo(baseline, current, tolerance, n)[..k] == MatchUpTo(baseline, current, tolerance, k)
    decreases n
  {
    if k == n {
    } else {
      MatchPrefixOf(baseline, current, tolerance, k, n - 1);
    }
  }

  lemma MatchPrefix(baseline: seq<ComparableEvent>, current: seq<ComparableEvent>, tolerance: real, k: nat)
    requires k <= |baseline|
    ensures Match(baseline, current, tolerance)[..k] == MatchUpTo(baseline, current, tolerance, k)
  {
    MatchPrefixOf(baseline, current, tolerance, k, |baseline|);
  }

  /** Every baseline event is matched against what the earlier ones left over. */
  lemma MatchStep(baseline: seq<ComparableEvent>, current: seq<ComparableEvent>, tolerance: real, k: nat)
    requires k < |baseline|
    ensures var m := Match(baseline, current, tolerance);
            m[k] == Nearest(baseline[k], current, Used(m[..k]), tolerance)
  {
    MatchPrefix(baseline, current, tolerance, k);
    MatchPrefix(baseline, current, tolerance, k + 1);
    var m := Match(baseline, current, tolerance);
    assert m[k] == m[..k + 1][k];
  }

  /** The greedy matching without the loop: every event in turn gets its nearest candidate of those left over. */
  predicate IsGreedy(baseline: seq<ComparableEvent>, current: seq<ComparableEvent>, tolerance: real, m: seq<int>) {
    |m| == |baseline|
    && forall k :: 0 <= k < |m| ==> IsNearest(baseline[k], current, Used(m[..k]), tolerance, m[k])
  }

  lemma {:induction false} GreedyAt(baseline: seq<ComparableEvent>, current: seq<ComparableEvent>, tolerance: real,
      m: seq<int>, k: nat)
    requires IsGreedy(baseline, current, tolerance, m) && k < |m|
    ensures m[k] == Nearest(baseline[k], current, Used(m[..k]), tolerance)
  {
    NearestUnique(baseline[k], current, Used(m[..k]), tolerance, m[k]);
  }

  /** Whatever gives every event its nearest candidate of those left over is the matching. */
  lemma {:induction false} NearestInTurn(baseline: seq<ComparableEvent>, current: seq<ComparableEvent>,
      tolerance: real, m: seq<int>, k: nat)
    requires |m| == |baseline| && k <= |m|
    requires forall i :: 0 <= i < |m| ==> m[i] == Nearest(baseline[i], current, Used(m[..i]), tolerance)
    ensures m[..k] == MatchUpTo(baseline, current, tolerance, k)
    decreases k
  {
    if k == 0 {
    } else {
      NearestInTurn(baseline, current, tolerance, m, k - 1);
      assert m[..k] == m[..k - 1] + [m[k - 1]];
    }
  }

  /** That description has one solution, the matching of the comparison. */
  lemma {:induction false} GreedyExactly(baseline: seq<ComparableEvent>, current: seq<ComparableEvent>,
      tolerance: real, m: seq<int>)
    ensures IsGreedy(baseline, current, tolerance, m) <==> m == Match(baseline, current, tolerance)
  {
    if IsGreedy(baseline, current, tolerance, m) {
      forall i | 0 <= i < |m| ensures m[i] == Nearest(baseline[i], current, Used(m[..i]), tolerance) {
        GreedyAt(baseline, current, tolerance, m, i);
      }
      NearestInTurn(baseline, current, tolerance, m, |m|);
      assert m[..|m|] == m;
    }
    if m == Match(baseline, current, tolerance) {
      forall k | 0 <= k < |m| ensures IsNearest(baseline[k], current, Used(m[..k]), tolerance, m[k]) {
        MatchStep(baseline, current, tolerance, k);
        NearestExact(baseline[k], current, Used(m[..k]), tolerance);
      }
    }
  }

  lemma BaseEntriesStep(baseline: seq<ComparableEvent>, current: seq<ComparableEvent>, matches: seq<int>,
      lossIncrease: real, k: nat)
    requires k < |baseline| == |matches|
    requires forall i :: 0 <= i < |matches| ==> -1 <= matches[i] < |current|
    ensures BaseEntries(baseline[..k + 1], current, matches[..k + 1], lossIncrease)
         == BaseEntries(baseline[..k], current, matches[..k], lossIncrease)
            + BaseEntry(baseline[k], current, matches[k], lossIncrease)
  {
    assert baseline[..k + 1][..k] == baseline[..k] && matches[..k + 1][..k] == matches[..k];
  }

  lemma UsedStep(matches: seq<int>, k: nat)
    requires k < |matches|
    ensures Used(matches[..k + 1]) == if matches[k] >= 0 then Used(matches[..k]) + {matches[k]} else Used(matches[..k])
  {
    var a, b := Used(matches[..k]), Used(matches[..k + 1]);
    forall x | x in a
      ensures x in b
    {
      var i :| 0 <= i < k && matches[..k][i] >= 0 && matches[..k][i] == x;
      assert matches[..k + 1][i] == x;
    }
    forall x | x in b
      ensures x in a || x == matches[k]
    {
      var i :| 0 <= i < k + 1 && matches[..k + 1][i] >= 0 && matches[..k + 1][i] == x;
      if i < k { assert matches[..k][i] == x; }
    }
    if matches[k] >= 0 { assert matches[..k + 1][k] in b; }
  }

  // ---- The primary difference ----

  datatype Estimate = Estimate(distanceM: real, uncertaintyM: real)

  predicate Replaces(d: Difference, best: Difference) {
    d.confidence > best.confidence || (d.kind == LossIncreased && best.kind != LossIncreased)
  }

  /** The choice after looking at the first `n` differences. */
  function PrimaryUpTo(ds: seq<Difference>, n: nat): Difference
    requires 1 <= n <= |ds|
  {
    if n == 1 then ds[0]
    else
      var best := PrimaryUpTo(ds, n - 1);
      if Replaces(ds[n - 1], best) then ds[n - 1] else best
  }

  /** No later difference is surer than the `i`-th, as far as the first `n` go. */
  predicate Stands(ds: seq<Difference>, n: nat, i: nat)
    requires i < n <= |ds|
  {
    forall j :: i < j < n ==> ds[j].confidence <= ds[i].confidence
  }

  /** Some loss increase among the first `n` stands. */
  predicate LossStands(ds: seq<Difference>, n: nat)
    requires n <= |ds|
  {
    exists i :: 0 <= i < n && ds[i].kind == LossIncreased && Stands(ds, n, i)
  }

  /** A loss increase that stands; if there is none, a difference that stands and that no loss increase follows. */
  predicate Eligible(ds: seq<Difference>, n: nat, i: nat)
    requires i < n <= |ds|
  {
    && Stands(ds, n, i)
    && (ds[i].kind == LossIncreased
        || (!LossStands(ds, n) && forall j :: i < j < n ==> ds[j].kind != LossIncreased))
  }

  /** The primary difference, without the fold: the first that is eligible. */
  predicate IsPrimary(ds: seq<Difference>, n: nat, k: nat)
    requires n <= |ds|
  {
    k < n && Eligible(ds, n, k) && forall i :: 0 <= i < k ==> !Eligible(ds, n, i)
  }

  /** What stands among more differences stands among fewer. */
  lemma StandsShorter(ds: seq<Difference>, n: nat, i: nat)
    requires i < n < |ds|
    ensures Stands(ds, n + 1, i) <==> Stands(ds, n, i) && ds[n].confidence <= ds[i].confidence
  {
  }

  lemma {:induction false} EarlierStaysOut(ds: seq<Difference>, n: nat, k: nat, i: nat)
    requires i < k && n < |ds| && IsPrimary(ds, n, k)
    ensures !Eligible(ds, n + 1, i)
  {
    StandsShorter(ds, n, i);
    assert Eligible(ds, n, k) && !Eligible(ds, n, i);
  }

  /** Of the first `n` differences `k` is primary; the next one does not replace it. */
  lemma {:induction false} PrimaryKept(ds: seq<Difference>, n: nat, k: nat)
    requires n < |ds| && IsPrimary(ds, n, k) && !Replaces(ds[n], ds[k])
    ensures IsPrimary(ds, n + 1, k)
  {
    StandsShorter(ds, n, k);
    if LossStands(ds, n + 1) {
      var l :| 0 <= l < n + 1 && ds[l].kind == LossIncreased && Stands(ds, n + 1, l);
      if l < n { StandsShorter(ds, n, l); }
    }
    var m := n + 1;
    assert Eligible(ds, m, k);
    forall i: nat | i < k ensures !Eligible(ds, m, i) {
      EarlierStaysOut(ds, n, k, i);
    }
  }

  /** The next one is surer: then nothing before it stands beside a standing loss increase. */
  lemma {:induction false} SurerReplaces(ds: seq<Difference>, n: nat, k: nat, i: nat)
    requires i < n < |ds| && IsPrimary(ds, n, k) && ds[n].confidence > ds[k].confidence
    ensures !Eligible(ds, n + 1, i)
    ensures ds[i].kind == LossIncreased ==> !Stands(ds, n + 1, i)
  {
    StandsShorter(ds, n, i);
    assert Stands(ds, n, k);
    if Stands(ds, n + 1, i) {
      assert i < k;
      assert !Eligible(ds, n, i);
      if ds[i].kind != LossIncreased && LossStands(ds, n) {
        var l :| 0 <= l < n && ds[l].kind == LossIncreased && Stands(ds, n, l);
        StandsShorter(ds, n, l);
      }
    }
  }

  /** The next one is a loss increase and the choice is not: then no loss increase stands. */
  lemma {:induction false} LossReplaces(ds: seq<Difference>, n: nat, k: nat, i: nat)
    requires i < n < |ds| && IsPrimary(ds, n, k)
    requires ds[n].kind == LossIncreased && ds[k].kind != LossIncreased
    ensures !Eligible(ds, n + 1, i)
  {
    StandsShorter(ds, n, i);
    assert Eligible(ds, n, k);
  }

  /** The next one replaces it. */
  lemma {:induction false} PrimaryReplaced(ds: seq<Difference>, n: nat, k: nat)
    requires n < |ds| && IsPrimary(ds, n, k) && Replaces(ds[n], ds[k])
    ensures IsPrimary(ds, n + 1, n)
  {
    var m := n + 1;
    assert Stands(ds, m, n);
    forall i: nat | i < n
      ensures !Eligible(ds, m, i)
      ensures ds[n].kind != LossIncreased && ds[i].kind == LossIncreased ==> !Stands(ds, m, i)
    {
      if ds[n].confidence > ds[k].confidence { SurerReplaces(ds, n, k, i); } else { LossReplaces(ds, n, k, i); }
    }
    assert Eligible(ds, m, n);
  }

  lemma {:induction false} PrimaryExists(ds: seq<Difference>, n: nat) returns (k: nat)
    requires 1 <= n <= |ds|
    ensures IsPrimary(ds, n, k) && PrimaryUpTo(ds, n) == ds[k]
    decreases n
  {
    if n == 1 {
      k := 0;
    } else {
      k := PrimaryExists(ds, n - 1);
      if Replaces(ds[n - 1], ds[k]) {
        PrimaryReplaced(ds, n - 1, k);
        k := n - 1;
      } else {
        PrimaryKept(ds, n - 1, k);
      }
    }
  }

  /** That description has one solution, the one the fold finds. */
  lemma {:induction false} PrimaryUnique(ds: seq<Difference>, n: nat, k: nat)
    requires 1 <= n <= |ds| && IsPrimary(ds, n, k)
    ensures PrimaryUpTo(ds, n) == ds[k]
  {
    var j := PrimaryExists(ds, n);
    assert Eligible(ds, n, j) && Eligible(ds, n, k);
  }

  /** The estimate drawn from a difference: where it lies, give or take 20 metres per unit of doubt, at least one. */
  predicate Estimates(e: Estimate, d: Difference) {
    && e.distanceM == d.distanceM
    && e.uncertaintyM == (if d.confidence <= 0.95 then 20.0 * (1.0 - d.confidence) else 1.0)
  }

  function Uncertainty(confidence: real): real {
    MaxReal(1.0, 20.0 * (1.0 - confidence))
  }

  function PrimaryOf(ds: seq<Difference>): Option<Estimate> {
    if ds == [] then None
    else
      var best := PrimaryUpTo(ds, |ds|);
      Some(Estimate(best.distanceM, Uncertainty(best.confidence)))
  }

  /** The estimate is that of the primary difference, and exists exactly if there are differences. */
  lemma {:induction false} EstimateExactly(ds: seq<Difference>) returns (k: nat)
    ensures ds == [] <==> PrimaryOf(ds).None?
    ensures ds != [] ==> IsPrimary(ds, |ds|, k) && PrimaryOf(ds).Some? && Estimates(PrimaryOf(ds).value, ds[k])
  {
    k := 0;
    if ds != [] { k := PrimaryExists(ds, |ds|); }
  }

  method PrimaryDifference(ds: seq<Difference>) returns (r: Option<Estimate>)
    ensures r == PrimaryOf(ds)
    ensures ds == [] <==> r.None?
    ensures ds != [] ==> exists k :: 0 <= k < |ds| && IsPrimary(ds, |ds|, k) && Estimates(r.value, ds[k])
  {
    if |ds| == 0 { return None; }
    var best := ds[0];
    for i := 1 to |ds|
      invariant best == PrimaryUpTo(ds, i)
    {
      if ds[i].confidence > best.confidence || (ds[i].kind == LossIncreased && best.kind != LossIncreased) {
        best := ds[i];
      }
    }
    ghost var k := EstimateExactly(ds);
    r := Some(Estimate(best.distanceM, MaxReal(1.0, 20.0 * (1.0 - best.confidence))));
  }
}
