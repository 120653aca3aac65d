/** Laws of the differences a comparison reports and of the primary difference chosen from them. */
module DifferenceLaws {
  import opened Wrappers
  import opened Numbers
  import opened Counting
  import opened Comparison
  import opened MatchingQuality

  // ---- Accounting ----

  function IsKind(k: Kind): Difference -> bool {
    (d: Difference) => d.kind == k
  }

  function ReportsBase(id: nat): Difference -> bool {
    (d: Difference) => d.kind == Disappeared && d.baselineEventID == Some(id)
  }

  function ReportsCandidate(id: nat): Difference -> bool {
    (d: Difference) => d.kind == New && d.currentEventID == Some(id)
  }

  function HasID(id: nat): ComparableEvent -> bool {
    (e: ComparableEvent) => e.id == id
  }

  /** The baseline events that found no candidate. */
  function Unmatched(baseline: seq<ComparableEvent>, matches: seq<int>): seq<ComparableEvent>
    requires |matches| == |baseline|
  {
    if baseline == [] then []
    else
      var k := |baseline| - 1;
      Unmatched(baseline[..k], matches[..k]) + (if matches[k] < 0 then [baseline[k]] else [])
  }

  /** The candidates among the first `n` that nothing was matched with. */
  function Leftover(current: seq<ComparableEvent>, used: set<int>, n: nat): seq<ComparableEvent>
    requires n <= |current|
  {
    if n == 0 then []
    else Leftover(current, used, n - 1) + (if n - 1 in used then [] else [current[n - 1]])
  }

  lemma {:induction false} BaseEntriesCounts(baseline: seq<ComparableEvent>, current: seq<ComparableEvent>,
      matches: seq<int>, lossIncrease: real, id: nat)
    requires |matches| == |baseline|
    requires forall i :: 0 <= i < |matches| ==> -1 <= matches[i] < |current|
    ensures var es := BaseEntries(baseline, current, matches, lossIncrease);
            && Count(es, IsKind(Disappeared)) == |Unmatched(baseline, matches)|
            && |Unmatched(baseline, matches)| + Size(matches) == |baseline|
            && Count(es, IsKind(New)) == 0
            && Count(es, IsKind(LossIncreased)) <= Size(matches)
            && Count(es, ReportsBase(id)) == Count(Unmatched(baseline, matches), HasID(id))
            && Count(es, ReportsCandidate(id)) == 0
  {
    if baseline == [] {
    } else {
      var k := |baseline| - 1;
      BaseEntriesCounts(baseline[..k], current, matches[..k], lossIncrease, id);
      var before := BaseEntries(baseline[..k], current, matches[..k], lossIncrease);
      var entry := BaseEntry(baseline[k], current, matches[k], lossIncrease);
      EntryCounts(baseline[k], current, matches[k], lossIncrease, id);
      CountConcat(before, entry, IsKind(Disappeared));
      CountConcat(before, entry, IsKind(New));
      CountConcat(before, entry, IsKind(LossIncreased));
      CountConcat(before, entry, ReportsBase(id));
      CountConcat(before, entry, ReportsCandidate(id));
      UnmatchedStep(baseline, matches, id);
    }
  }

  lemma UnmatchedStep(baseline: seq<ComparableEvent>, matches: seq<int>, id: nat)
    requires |matches| == |baseline| > 0
    ensures var k := |baseline| - 1;
            var before := Unmatched(baseline[..k], matches[..k]);
            && |Unmatched(baseline, matches)| == |before| + (if matches[k] < 0 then 1 else 0)
            && Count(Unmatched(baseline, matches), HasID(id))
                 == Count(before, HasID(id)) + (if matches[k] < 0 && baseline[k].id == id then 1 else 0)
            && Size(matches) == Size(matches[..k]) + (if matches[k] < 0 then 0 else 1)
  {
    var k := |baseline| - 1;
    var before := Unmatched(baseline[..k], matches[..k]);
    assert before + [] == before;
    CountLast(before, baseline[k], HasID(id));
    assert matches == matches[..k] + [matches[k]];
    CountLast(matches[..k], matches[k], Matched());
  }

  lemma EntryCounts(base: ComparableEvent, current: seq<ComparableEvent>, target: int, lossIncrease: real, id: nat)
    requires -1 <= target < |current|
    ensures var e := BaseEntry(base, current, target, lossIncrease);
            && Count(e, IsKind(Disappeared)) == (if target < 0 then 1 else 0)
            && Count(e, IsKind(New)) == 0
            && Count(e, IsKind(LossIncreased)) <= (if target < 0 then 0 else 1)
            && Count(e, ReportsBase(id)) == (if target < 0 && base.id == id then 1 else 0)
            && Count(e, ReportsCandidate(id)) == 0
  {
    var e := BaseEntry(base, current, target, lossIncrease);
    if e != [] {
      assert e == [e[0]] && e[1..] == [];
    }
  }

  lemma {:induction false} NewEntriesCounts(current: seq<ComparableEvent>, used: set<int>, n: nat, id: nat)
    requires n <= |current|
    ensures var es := NewEntries(current, used, n);
            && Count(es, IsKind(New)) == |es| == |Leftover(current, used, n)|
            && Count(es, IsKind(Disappeared)) == 0 && Count(es, IsKind(LossIncreased)) == 0
            && Count(es, ReportsBase(id)) == 0
            && Count(es, ReportsCandidate(id)) == Count(Leftover(current, used, n), HasID(id))
  {
    if n == 0 {
    } else {
      NewEntriesCounts(current, used, n - 1, id);
      if n - 1 !in used {
        var before, d := NewEntries(current, used, n - 1), NewEntry(current[n - 1]);
        CountLast(before, d, IsKind(New));
        CountLast(before, d, IsKind(Disappeared));
        CountLast(before, d, IsKind(LossIncreased));
        CountLast(before, d, ReportsBase(id));
        CountLast(before, d, ReportsCandidate(id));
        CountLast(Leftover(current, used, n - 1), current[n - 1], HasID(id));
      } else {
        assert NewEntries(current, used, n) == NewEntries(current, used, n - 1);
        assert Leftover(current, used, n) == Leftover(current, used, n - 1);
      }
    }
  }

  lemma {:induction false} LeftoverShrinks(current: seq<ComparableEvent>, used: set<int>, x: int, n: nat)
    requires n <= |current| && x !in used && x >= 0
    ensures |Leftover(current, used + {x}, n)| == |Leftover(current, used, n)| - (if x < n then 1 else 0)
  {
    if n == 0 {
    } else {
      LeftoverShrinks(current, used, x, n - 1);
    }
  }

  lemma {:induction false} LeftoverAll(current: seq<ComparableEvent>, n: nat)
    requires n <= |current|
    ensures |Leftover(current, {}, n)| == n
  {
    if n == 0 {
    } else {
      LeftoverAll(current, n - 1);
    }
  }

  lemma {:induction false} LeftoverSize(current: seq<ComparableEvent>, m: seq<int>, k: nat)
    requires OneToOne(m) && k <= |m|
    requires forall i :: 0 <= i < |m| ==> -1 <= m[i] < |current|
    ensures |Leftover(current, Used(m[..k]), |current|)| + Size(m[..k]) == |current|
  {
    if k > 0 {
      LeftoverSize(current, m, k - 1);
      UsedStep(m, k - 1);
      assert m[..k] == m[..k - 1] + [m[k - 1]];
      CountLast(m[..k - 1], m[k - 1], Matched());
      if m[k - 1] >= 0 {
        FreshTarget(m, k - 1);
        LeftoverShrinks(current, Used(m[..k - 1]), m[k - 1], |current|);
      }
    } else {
      assert Used(m[..0]) == {};
      LeftoverAll(current, |current|);
    }
  }

  /**
   Every event is accounted for once: disappeared and matched events make up the baseline, new and
   matched events the current list, and at most the matched pairs report a loss increase.
   */
  lemma ComparisonAccounts(baseline: seq<ComparableEvent>, current: seq<ComparableEvent>, tolerance: real,
      lossIncrease: real, ds: seq<Difference>)
    requires IsComparison(baseline, current, tolerance, lossIncrease, ds)
    ensures var matched := Size(Match(baseline, current, tolerance));
            && Count(ds, IsKind(Disappeared)) + matched == |baseline|
            && Count(ds, IsKind(New)) + matched == |current|
            && Count(ds, IsKind(LossIncreased)) <= matched
  {
    var m, c := Match(baseline, current, tolerance), Collected(baseline, current, tolerance, lossIncrease);
    MatchValid(baseline, current, tolerance);
    assert m[..|m|] == m;
    LeftoverSize(current, m, |m|);
    CollectedCount(baseline, current, tolerance, lossIncrease, 0);
    CountPermutation(ds, c, IsKind(Disappeared));
    CountPermutation(ds, c, IsKind(New));
    CountPermutation(ds, c, IsKind(LossIncreased));
  }

  /** Event by event: each identifier is reported as often as it belongs to an unpaired event. */
  lemma ComparisonReports(baseline: seq<ComparableEvent>, current: seq<ComparableEvent>, tolerance: real,
      lossIncrease: real, ds: seq<Difference>, id: nat)
    requires IsComparison(baseline, current, tolerance, lossIncrease, ds)
    ensures var m := Match(baseline, current, tolerance);
            && Count(ds, ReportsBase(id)) == Count(Unmatched(baseline, m), HasID(id))
            && Count(ds, ReportsCandidate(id)) == Count(Leftover(current, Used(m), |current|), HasID(id))
  {
    var c := Collected(baseline, current, tolerance, lossIncrease);
    CollectedCount(baseline, current, tolerance, lossIncrease, id);
    CountPermutation(ds, c, ReportsBase(id));
    CountPermutation(ds, c, ReportsCandidate(id));
  }

  lemma CollectedCount(baseline: seq<ComparableEvent>, current: seq<ComparableEvent>, tolerance: real,
      lossIncrease: real, id: nat)
    ensures var c, m := Collected(baseline, current, tolerance, lossIncrease), Match(baseline, current, tolerance);
            && Count(c, IsKind(Disappeared)) + Size(m) == |baseline|
            && Count(c, IsKind(New)) == |Leftover(current, Used(m), |current|)|
            && Count(c, IsKind(LossIncreased)) <= Size(m)
            && Count(c, ReportsBase(id)) == Count(Unmatched(baseline, m), HasID(id))
            && Count(c, ReportsCandidate(id)) == Count(Leftover(current, Used(m), |current|), HasID(id))
  {
    var m := Match(baseline, current, tolerance);
    var a, b := BaseEntries(baseline, current, m, lossIncrease), NewEntries(current, Used(m), |current|);
    BaseEntriesCounts(baseline, current, m, lossIncrease, id);
    NewEntriesCounts(current, Used(m), |current|, id);
    CountConcat(a, b, IsKind(Disappeared));
    CountConcat(a, b, IsKind(New));
    CountConcat(a, b, IsKind(LossIncreased));
    CountConcat(a, b, ReportsBase(id));
    CountConcat(a, b, ReportsCandidate(id));
  }

  /** What a report on one baseline event says, given the candidate it was matched with or -1. */
  predicate BaseReport(d: Difference, base: ComparableEvent, current: seq<ComparableEvent>, target: int,
      lossIncrease: real)
    requires -1 <= target < |current|
  {
    && d.baselineEventID == Some(base.id)
    && if target < 0 then
         && d.kind == Disappeared && d.currentEventID == None
         && d.distanceM == base.distanceM && d.lossDeltaDB == 0.0
         && d.confidence == Round3(base.confidence * 0.9)
       else
         && current[target].insertionLossDB - base.insertionLossDB >= lossIncrease
         && d.kind == LossIncreased && d.currentEventID == Some(current[target].id)
         && d.distanceM == current[target].distanceM
         && d.lossDeltaDB == Round3(current[target].insertionLossDB - base.insertionLossDB)
         && d.confidence == Round3(MinReal(base.confidence, current[target].confidence))
  }

  /** What a report on an unmatched candidate says. */
  predicate NewReport(d: Difference, candidate: ComparableEvent) {
    && d.kind == New && d.baselineEventID == None && d.currentEventID == Some(candidate.id)
    && d.distanceM == candidate.distanceM && d.lossDeltaDB == candidate.insertionLossDB
    && d.confidence == Round3(candidate.confidence)
  }

  predicate ReportsSomeBase(d: Difference, baseline: seq<ComparableEvent>, current: seq<ComparableEvent>,
      matches: seq<int>, lossIncrease: real)
    requires |matches| == |baseline|
    requires forall i :: 0 <= i < |matches| ==> -1 <= matches[i] < |current|
  {
    exists k :: 0 <= k < |baseline| && BaseReport(d, baseline[k], current, matches[k], lossIncrease)
  }

  predicate ReportsSomeNew(d: Difference, current: seq<ComparableEvent>, used: set<int>, n: nat)
    requires n <= |current|
  {
    exists c :: 0 <= c < n && c !in used && NewReport(d, current[c])
  }

  lemma BaseEntryMembers(d: Difference, base: ComparableEvent, current: seq<ComparableEvent>, target: int,
      lossIncrease: real)
    requires -1 <= target < |current|
    ensures d in BaseEntry(base, current, target, lossIncrease) <==> BaseReport(d, base, current, target, lossIncrease)
  {
  }

  lemma SomeBaseStep(d: Difference, baseline: seq<ComparableEvent>, current: seq<ComparableEvent>, matches: seq<int>,
      lossIncrease: real)
    requires |matches| == |baseline| > 0
    requires forall i :: 0 <= i < |matches| ==> -1 <= matches[i] < |current|
    ensures var n := |baseline| - 1;
            ReportsSomeBase(d, baseline, current, matches, lossIncrease)
            <==> ReportsSomeBase(d, baseline[..n], current, matches[..n], lossIncrease)
                 || BaseReport(d, baseline[n], current, matches[n], lossIncrease)
  {
    var n := |baseline| - 1;
    if ReportsSomeBase(d, baseline[..n], current, matches[..n], lossIncrease) {
      var k :| 0 <= k < n && BaseReport(d, baseline[..n][k], current, matches[..n][k], lossIncrease);
      assert BaseReport(d, baseline[k], current, matches[k], lossIncrease);
    }
    if ReportsSomeBase(d, baseline, current, matches, lossIncrease) {
      var k :| 0 <= k < |baseline| && BaseReport(d, baseline[k], current, matches[k], lossIncrease);
      if k < n { assert BaseReport(d, baseline[..n][k], current, matches[..n][k], lossIncrease); }
    }
  }

  lemma {:induction false} BaseEntriesMembers(baseline: seq<ComparableEvent>, current: seq<ComparableEvent>,
      matches: seq<int>, lossIncrease: real, d: Difference)
    requires |matches| == |baseline|
    requires forall i :: 0 <= i < |matches| ==> -1 <= matches[i] < |current|
    ensures d in BaseEntries(baseline, current, matches, lossIncrease)
       <==> ReportsSomeBase(d, baseline, current, matches, lossIncrease)
  {
    if baseline == [] {
    } else {
      var n := |baseline| - 1;
      BaseEntriesMembers(baseline[..n], current, matches[..n], lossIncrease, d);
      BaseEntryMembers(d, baseline[n], current, matches[n], lossIncrease);
      SomeBaseStep(d, baseline, current, matches, lossIncrease);
    }
  }

  lemma {:induction false} NewEntriesMembers(current: seq<ComparableEvent>, used: set<int>, n: nat, d: Difference)
    requires n <= |current|
    ensures d in NewEntries(current, used, n) <==> ReportsSomeNew(d, current, used, n)
  {
    if n == 0 {
    } else {
      NewEntriesMembers(current, used, n - 1, d);
      assert NewReport(d, current[n - 1]) <==> d == NewEntry(current[n - 1]);
    }
  }

  /**
   A difference is reported exactly when it says of some unmatched baseline event that it disappeared, of
   some matched pair that its loss rose by the threshold or more, or of some unmatched candidate that it
   is new.
   */
  lemma ReportedExactly(baseline: seq<ComparableEvent>, current: seq<ComparableEvent>, tolerance: real,
      lossIncrease: real, ds: seq<Difference>, d: Difference)
    requires IsComparison(baseline, current, tolerance, lossIncrease, ds)
    ensures var m := Match(baseline, current, tolerance);
            d in ds <==> ReportsSomeBase(d, baseline, current, m, lossIncrease)
                         || ReportsSomeNew(d, current, Used(m), |current|)
  {
    var m := Match(baseline, current, tolerance);
    BaseEntriesMembers(baseline, current, m, lossIncrease, d);
    NewEntriesMembers(current, Used(m), |current|, d);
    assert d in ds <==> d in multiset(ds);
    assert d in Collected(baseline, current, tolerance, lossIncrease)
      <==> d in multiset(Collected(baseline, current, tolerance, lossIncrease));
  }

  // ---- The loss threshold ----

  lemma {:induction false} BaseEntriesThreshold(baseline: seq<ComparableEvent>, current: seq<ComparableEvent>,
      matches: seq<int>, low: real, high: real)
    requires |matches| == |baseline| && low <= high
    requires forall i :: 0 <= i < |matches| ==> -1 <= matches[i] < |current|
    ensures multiset(BaseEntries(baseline, current, matches, high))
         <= multiset(BaseEntries(baseline, current, matches, low))
  {
    if baseline == [] {
    } else {
      var k := |baseline| - 1;
      BaseEntriesThreshold(baseline[..k], current, matches[..k], low, high);
    }
  }

  /** Raising the loss threshold removes loss increases and changes nothing else. */
  lemma HigherThresholdReportsLess(baseline: seq<ComparableEvent>, current: seq<ComparableEvent>, tolerance: real,
      low: real, high: real, atLow: seq<Difference>, atHigh: seq<Difference>, id: nat)
    requires low <= high
    requires IsComparison(baseline, current, tolerance, low, atLow)
    requires IsComparison(baseline, current, tolerance, high, atHigh)
    ensures multiset(atHigh) <= multiset(atLow)
    ensures Count(atHigh, IsKind(Disappeared)) == Count(atLow, IsKind(Disappeared))
    ensures Count(atHigh, IsKind(New)) == Count(atLow, IsKind(New))
    ensures Count(atHigh, ReportsBase(id)) == Count(atLow, ReportsBase(id))
    ensures Count(atHigh, ReportsCandidate(id)) == Count(atLow, ReportsCandidate(id))
  {
    BaseEntriesThreshold(baseline, current, Match(baseline, current, tolerance), low, high);
    ComparisonAccounts(baseline, current, tolerance, low, atLow);
    ComparisonAccounts(baseline, current, tolerance, high, atHigh);
    ComparisonReports(baseline, current, tolerance, low, atLow, id);
    ComparisonReports(baseline, current, tolerance, high, atHigh, id);
  }

  // ---- The primary difference ----

  /** The position of the last loss increase among the first `n`, or -1. */
  function LastLoss(ds: seq<Difference>, n: nat): (p: int)
    requires n <= |ds|
    ensures -1 <= p < n
    ensures p >= 0 ==> ds[p].kind == LossIncreased
    ensures forall j :: p < j < n ==> ds[j].kind != LossIncreased
  {
    if n == 0 then -1 else if ds[n - 1].kind == LossIncreased then n - 1 else LastLoss(ds, n - 1)
  }

  /**
   The choice is one of the differences; it is at least as confident as the last loss increase and as
   everything after it; and it is another kind only if there is no loss increase or it comes after the
   last one.
   */
  lemma {:induction false} PrimaryChoice(ds: seq<Difference>, n: nat) returns (k: nat)
    requires 1 <= n <= |ds|
    ensures k < n && ds[k] == PrimaryUpTo(ds, n)
    ensures forall j :: 0 <= j < n && LastLoss(ds, n) <= j ==> ds[j].confidence <= ds[k].confidence
    ensures ds[k].kind != LossIncreased ==> k > LastLoss(ds, n)
    decreases n
  {
    if n == 1 {
      k := 0;
    } else {
      k := PrimaryChoice(ds, n - 1);
      if Replaces(ds[n - 1], ds[k]) { k := n - 1; }
    }
  }

  /** The other direction: a loss increase is chosen exactly when no later difference beats the best loss increase. */
  lemma {:induction false} PrimaryIsLoss(ds: seq<Difference>, n: nat)
    requires 1 <= n <= |ds|
    ensures PrimaryUpTo(ds, n).kind == LossIncreased
       <==> LastLoss(ds, n) >= 0
            && forall j :: LastLoss(ds, n) < j < n ==>
                 ds[j].confidence <= PrimaryUpTo(ds, LastLoss(ds, n) + 1).confidence
    decreases n
  {
    if n <= 1 {
    } else {
      PrimaryIsLoss(ds, n - 1);
      var p := LastLoss(ds, n - 1);
      if ds[n - 1].kind == LossIncreased {
        assert LastLoss(ds, n) == n - 1;
      } else {
        assert LastLoss(ds, n) == p;
        if p >= 0 { PrimaryAfterLoss(ds, p + 1); PrimaryGrows(ds, p + 1, n - 1); }
      }
    }
  }

  lemma PrimaryAfterLoss(ds: seq<Difference>, n: nat)
    requires 1 <= n <= |ds| && ds[n - 1].kind == LossIncreased
    ensures PrimaryUpTo(ds, n).kind == LossIncreased
  {
  }

  /** Past the last loss increase, the choice only gains confidence, and changes only by gaining it. */
  lemma {:induction false} PrimaryGrows(ds: seq<Difference>, a: nat, n: nat)
    requires 1 <= a <= n <= |ds|
    requires forall j :: a <= j < n ==> ds[j].kind != LossIncreased
    ensures PrimaryUpTo(ds, a).confidence <= PrimaryUpTo(ds, n).confidence
    ensures PrimaryUpTo(ds, n) == PrimaryUpTo(ds, a)
            || exists j :: a <= j < n && PrimaryUpTo(ds, n) == ds[j] && ds[j].confidence > PrimaryUpTo(ds, a).confidence
    decreases n
  {
    if a == n {
    } else {
      PrimaryGrows(ds, a, n - 1);
    }
  }

  /** With a single kind, the choice is the first difference of maximal confidence. */
  lemma {:induction false} PrimarySingleKind(ds: seq<Difference>, n: nat) returns (k: nat)
    requires 1 <= n <= |ds|
    requires forall i, j :: 0 <= i < n && 0 <= j < n ==> (ds[i].kind == LossIncreased <==> ds[j].kind == LossIncreased)
    ensures k < n && ds[k] == PrimaryUpTo(ds, n)
    ensures forall j :: 0 <= j < n ==> ds[j].confidence <= ds[k].confidence
    ensures forall j :: 0 <= j < k ==> ds[j].confidence < ds[k].confidence
    decreases n
  {
    if n == 1 {
      k := 0;
    } else {
      k := PrimarySingleKind(ds, n - 1);
      if Replaces(ds[n - 1], ds[k]) { k := n - 1; }
    }
  }

  /** Nothing among the first `n` differences is surer. */
  predicate MostConfident(d: Difference, ds: seq<Difference>, n: nat)
    requires n <= |ds|
  {
    forall j :: 0 <= j < n ==> ds[j].confidence <= d.confidence
  }

  /** A loss increase of top confidence, once met, can only be replaced by its equal. */
  lemma {:induction false} TopLossStays(ds: seq<Difference>, k: nat, n: nat)
    requires k < n <= |ds| && ds[k].kind == LossIncreased && MostConfident(ds[k], ds, n)
    ensures PrimaryUpTo(ds, n).kind == LossIncreased && PrimaryUpTo(ds, n).confidence == ds[k].confidence
    decreases n
  {
    if n == 1 {
    } else {
      var j := PrimaryChoice(ds, n - 1);
      if k < n - 1 { TopLossStays(ds, k, n - 1); }
    }
  }

  /** A difference that makes the choice one of top confidence: a loss increase, or one after the last of them. */
  predicate Decides(ds: seq<Difference>, n: nat, k: nat)
    requires k < n <= |ds|
  {
    MostConfident(ds[k], ds, n) && (ds[k].kind == LossIncreased || k > LastLoss(ds, n))
  }

  /**
   The choice is the most confident difference exactly if top confidence is reached by a loss increase or
   after the last loss increase.
   */
  lemma PrimaryMostConfidentExactly(ds: seq<Difference>, n: nat)
    requires 1 <= n <= |ds|
    ensures MostConfident(PrimaryUpTo(ds, n), ds, n) <==> exists k :: 0 <= k < n && Decides(ds, n, k)
  {
    var c := PrimaryChoice(ds, n);
    if MostConfident(PrimaryUpTo(ds, n), ds, n) { assert Decides(ds, n, c); }
    if k :| 0 <= k < n && Decides(ds, n, k) {
      if ds[k].kind == LossIncreased { TopLossStays(ds, k, n); }
    }
  }

  /** It fails as soon as every top-confidence difference is of another kind and lies before a loss increase. */
  lemma PrimaryNotMostConfident(sure: Difference, loss: Difference)
    requires sure.kind != LossIncreased && loss.kind == LossIncreased && loss.confidence < sure.confidence
    ensures !MostConfident(PrimaryUpTo([sure, loss], 2), [sure, loss], 2)
  {
    var ds := [sure, loss];
    assert LastLoss(ds, 2) == 1;
    forall k: nat | k < 2 ensures !Decides(ds, 2, k) {
      assert k == 1 ==> ds[1].confidence < ds[0].confidence;
    }
    PrimaryMostConfidentExactly(ds, 2);
  }

  // ---- Ranges ----

  predicate ConfidentEvents(events: seq<ComparableEvent>) {
    forall i :: 0 <= i < |events| ==> 0.6 <= events[i].confidence <= 0.99
  }

  predicate ConfidentDifferences(ds: seq<Difference>) {
    forall i :: 0 <= i < |ds| ==> 0.54 <= ds[i].confidence <= 0.99
  }

  lemma DisappearedEntryConfident(e: ComparableEvent)
    requires 0.6 <= e.confidence <= 0.99
    ensures 0.54 <= DisappearedEntry(e).confidence <= 0.99
  {
    Round3Within(540, e.confidence * 0.9, 891);
  }

  lemma LossEntryConfident(e: ComparableEvent, f: ComparableEvent)
    requires 0.6 <= e.confidence <= 0.99 && 0.6 <= f.confidence <= 0.99
    ensures 0.54 <= LossEntry(e, f).confidence <= 0.99
  {
    Round3Within(600, MinReal(e.confidence, f.confidence), 990);
  }

  lemma {:induction false} BaseEntriesConfident(baseline: seq<ComparableEvent>, current: seq<ComparableEvent>,
      matches: seq<int>, lossIncrease: real)
    requires |matches| == |baseline|
    requires forall i :: 0 <= i < |matches| ==> -1 <= matches[i] < |current|
    requires ConfidentEvents(baseline) && ConfidentEvents(current)
    ensures ConfidentDifferences(BaseEntries(baseline, current, matches, lossIncrease))
  {
    if baseline == [] {
    } else {
      var k := |baseline| - 1;
      BaseEntriesConfident(baseline[..k], current, matches[..k], lossIncrease);
      DisappearedEntryConfident(baseline[k]);
      if matches[k] >= 0 { LossEntryConfident(baseline[k], current[matches[k]]); }
    }
  }

  lemma NewEntryConfident(e: ComparableEvent)
    requires 0.6 <= e.confidence <= 0.99
    ensures 0.54 <= NewEntry(e).confidence <= 0.99
  {
    Round3Within(600, e.confidence, 990);
  }

  lemma {:induction false} NewEntriesConfident(current: seq<ComparableEvent>, used: set<int>, n: nat)
    requires n <= |current| && ConfidentEvents(current)
    ensures ConfidentDifferences(NewEntries(current, used, n))
  {
    if n == 0 {
    } else {
      NewEntriesConfident(current, used, n - 1);
      NewEntryConfident(current[n - 1]);
    }
  }

  lemma ComparisonConfident(baseline: seq<ComparableEvent>, current: seq<ComparableEvent>, tolerance: real,
      lossIncrease: real, ds: seq<Difference>)
    requires ConfidentEvents(baseline) && ConfidentEvents(current)
    requires IsComparison(baseline, current, tolerance, lossIncrease, ds)
    ensures ConfidentDifferences(ds)
  {
    BaseEntriesConfident(baseline, current, Match(baseline, current, tolerance), lossIncrease);
    NewEntriesConfident(current, Used(Match(baseline, current, tolerance)), |current|);
    var c := Collected(baseline, current, tolerance, lossIncrease);
    forall i | 0 <= i < |ds|
      ensures 0.54 <= ds[i].confidence <= 0.99
    {
      assert ds[i] in multiset(ds);
      var j :| 0 <= j < |c| && c[j] == ds[i];
    }
  }

  /** An estimate drawn from confident differences is never surer than a metre nor vaguer than 9.2 metres. */
  lemma EstimateRange(ds: seq<Difference>)
    requires ConfidentDifferences(ds)
    ensures PrimaryOf(ds).None? <==> ds == []
    ensures PrimaryOf(ds).Some? ==> 1.0 <= PrimaryOf(ds).value.uncertaintyM <= 9.2
    ensures PrimaryOf(ds).Some? ==> exists d :: d in ds && PrimaryOf(ds).value.distanceM == d.distanceM
  {
    if ds != [] {
      var k := PrimaryChoice(ds, |ds|);
    }
  }
}
