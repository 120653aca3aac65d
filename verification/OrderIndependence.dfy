/**
 The database returns events by distance and leaves the order of equal distances open.  When does the
 report of a comparison depend on that order?
 */
module OrderIndependence {
  import opened Numbers
  import opened Counting
  import opened Comparison
  import opened MatchingQuality
  import opened DifferenceLaws
  import opened EstimateDeterminism

  // ---- Events and where they lie ----

  /** The events lie at these distances, in this order. */
  predicate Placed(events: seq<ComparableEvent>, places: seq<real>) {
    |events| == |places| && forall i :: 0 <= i < |events| ==> events[i].distanceM == places[i]
  }

  /** The same events in two orders that a sort by distance cannot tell apart. */
  predicate Rearranged(a: seq<ComparableEvent>, b: seq<ComparableEvent>, places: seq<real>) {
    Placed(a, places) && Placed(b, places) && multiset(a) == multiset(b)
  }

  predicate DistinctIDs(events: seq<ComparableEvent>) {
    forall i, j :: 0 <= i < j < |events| ==> events[i].id != events[j].id
  }

  /** Plain events at given distances, with consecutive identifiers and no loss. */
  function Plain(places: seq<real>, firstID: nat): (events: seq<ComparableEvent>)
    ensures Placed(events, places) && DistinctIDs(events)
    ensures forall i :: 0 <= i < |events| ==> events[i].insertionLossDB == 0.0
  {
    seq(|places|, i requires 0 <= i < |places| => ComparableEvent(firstID + i, places[i], 0.0, 0.9))
  }

  // ---- Matching looks at distances only ----

  lemma {:induction false} NearestFromPlaces(x: ComparableEvent, y: ComparableEvent, a: seq<ComparableEvent>,
      b: seq<ComparableEvent>, places: seq<real>, used: set<int>, tolerance: real, n: nat)
    requires x.distanceM == y.distanceM && Placed(a, places) && Placed(b, places) && n <= |places|
    ensures NearestUpTo(x, a, used, tolerance, n) == NearestUpTo(y, b, used, tolerance, n)
  {
    if n == 0 {
    } else {
      NearestFromPlaces(x, y, a, b, places, used, tolerance, n - 1);
    }
  }

  lemma {:induction false} MatchUpToFromPlaces(a: seq<ComparableEvent>, b: seq<ComparableEvent>, bases: seq<real>,
      c: seq<ComparableEvent>, d: seq<ComparableEvent>, places: seq<real>, tolerance: real, k: nat)
    requires Placed(a, bases) && Placed(b, bases) && Placed(c, places) && Placed(d, places) && k <= |bases|
    ensures MatchUpTo(a, c, tolerance, k) == MatchUpTo(b, d, tolerance, k)
  {
    if k == 0 {
    } else {
      MatchUpToFromPlaces(a, b, bases, c, d, places, tolerance, k - 1);
      var used := Used(MatchUpTo(a, c, tolerance, k - 1));
      NearestFromPlaces(a[k - 1], b[k - 1], c, d, places, used, tolerance, |places|);
    }
  }

  /** The matching of two lists of distances. */
  function MatchOf(bases: seq<real>, places: seq<real>, tolerance: real): (m: seq<int>)
    ensures |m| == |bases|
    ensures forall i :: 0 <= i < |m| ==> -1 <= m[i] < |places|
  {
    Match(Plain(bases, 0), Plain(places, |bases|), tolerance)
  }

  /** Which event is matched with which depends on the two lists of distances and on nothing else. */
  lemma MatchFromPlaces(a: seq<ComparableEvent>, bases: seq<real>, c: seq<ComparableEvent>, places: seq<real>,
      tolerance: real)
    requires Placed(a, bases) && Placed(c, places)
    ensures Match(a, c, tolerance) == MatchOf(bases, places, tolerance)
  {
    MatchUpToFromPlaces(a, Plain(bases, 0), bases, c, Plain(places, |bases|), places, tolerance, |bases|);
  }

  // ---- Splitting a report ----

  /** The baseline events that found a candidate. */
  function Paired(baseline: seq<ComparableEvent>, matches: seq<int>): seq<ComparableEvent>
    requires |matches| == |baseline|
  {
    if baseline == [] then []
    else
      var k := |baseline| - 1;
      Paired(baseline[..k], matches[..k]) + (if matches[k] < 0 then [] else [baseline[k]])
  }

  /** The candidates among the first `n` that were taken. */
  function Taken(current: seq<ComparableEvent>, used: set<int>, n: nat): seq<ComparableEvent>
    requires n <= |current|
  {
    if n == 0 then []
    else Taken(current, used, n - 1) + (if n - 1 in used then [current[n - 1]] else [])
  }

  /** The entries of the matched pairs. */
  function PairEntries(baseline: seq<ComparableEvent>, current: seq<ComparableEvent>, matches: seq<int>,
      lossIncrease: real): seq<Difference>
    requires |matches| == |baseline|
    requires forall i :: 0 <= i < |matches| ==> -1 <= matches[i] < |current|
  {
    if baseline == [] then []
    else
      var k := |baseline| - 1;
      PairEntries(baseline[..k], current, matches[..k], lossIncrease)
      + (if matches[k] < 0 then [] else BaseEntry(baseline[k], current, matches[k], lossIncrease))
  }

  function Disappearing(): ComparableEvent -> Difference {
    (e: ComparableEvent) => DisappearedEntry(e)
  }

  function Appearing(): ComparableEvent -> Difference {
    (e: ComparableEvent) => NewEntry(e)
  }

  lemma {:induction false} BaselineSplits(baseline: seq<ComparableEvent>, matches: seq<int>)
    requires |matches| == |baseline|
    ensures multiset(baseline) == multiset(Unmatched(baseline, matches)) + multiset(Paired(baseline, matches))
  {
    if baseline == [] {
    } else {
      var k := |baseline| - 1;
      BaselineSplits(baseline[..k], matches[..k]);
      assert baseline == baseline[..k] + [baseline[k]];
    }
  }

  lemma {:induction false} CurrentSplits(current: seq<ComparableEvent>, used: set<int>, n: nat)
    requires n <= |current|
    ensures multiset(current[..n]) == multiset(Leftover(current, used, n)) + multiset(Taken(current, used, n))
  {
    if n == 0 {
    } else {
      CurrentSplits(current, used, n - 1);
      assert current[..n] == current[..n - 1] + [current[n - 1]];
    }
  }

  lemma AppendEither(all: seq<Difference>, gone: seq<Difference>, pairs: seq<Difference>, e: seq<Difference>)
    requires multiset(all) == multiset(gone) + multiset(pairs)
    ensures multiset(all + e) == multiset(gone + e) + multiset(pairs)
    ensures multiset(all + e) == multiset(gone) + multiset(pairs + e)
  {
  }

  /** What the last baseline event adds if it found nothing. */
  lemma GoneStep(baseline: seq<ComparableEvent>, current: seq<ComparableEvent>, matches: seq<int>, lossIncrease: real)
    requires |matches| == |baseline| > 0 && matches[|matches| - 1] < 0
    requires forall i :: 0 <= i < |matches| ==> -1 <= matches[i] < |current|
    ensures var k := |baseline| - 1;
            var e := BaseEntry(baseline[k], current, matches[k], lossIncrease);
            && BaseEntries(baseline, current, matches, lossIncrease)
                 == BaseEntries(baseline[..k], current, matches[..k], lossIncrease) + e
            && Mapped(Unmatched(baseline, matches), Disappearing())
                 == Mapped(Unmatched(baseline[..k], matches[..k]), Disappearing()) + e
            && PairEntries(baseline, current, matches, lossIncrease)
                 == PairEntries(baseline[..k], current, matches[..k], lossIncrease)
  {
    var k := |baseline| - 1;
    MappedConcat(Unmatched(baseline[..k], matches[..k]), [baseline[k]], Disappearing());
    MappedAt([baseline[k]], Disappearing(), 0);
    assert Mapped([baseline[k]], Disappearing()) == [DisappearedEntry(baseline[k])];
  }

  /** What it adds if it found a candidate. */
  lemma PairStep(baseline: seq<ComparableEvent>, current: seq<ComparableEvent>, matches: seq<int>, lossIncrease: real)
    requires |matches| == |baseline| > 0 && matches[|matches| - 1] >= 0
    requires forall i :: 0 <= i < |matches| ==> -1 <= matches[i] < |current|
    ensures var k := |baseline| - 1;
            var e := BaseEntry(baseline[k], current, matches[k], lossIncrease);
            && BaseEntries(baseline, current, matches, lossIncrease)
                 == BaseEntries(baseline[..k], current, matches[..k], lossIncrease) + e
            && Unmatched(baseline, matches) == Unmatched(baseline[..k], matches[..k])
            && PairEntries(baseline, current, matches, lossIncrease)
                 == PairEntries(baseline[..k], current, matches[..k], lossIncrease) + e
  {
  }

  lemma {:induction false} BaseEntriesSplit(baseline: seq<ComparableEvent>, current: seq<ComparableEvent>,
      matches: seq<int>, lossIncrease: real)
    requires |matches| == |baseline|
    requires forall i :: 0 <= i < |matches| ==> -1 <= matches[i] < |current|
    ensures multiset(BaseEntries(baseline, current, matches, lossIncrease))
         == multiset(Mapped(Unmatched(baseline, matches), Disappearing()))
            + multiset(PairEntries(baseline, current, matches, lossIncrease))
  {
    if baseline == [] {
    } else {
      var k := |baseline| - 1;
      BaseEntriesSplit(baseline[..k], current, matches[..k], lossIncrease);
      AppendEither(BaseEntries(baseline[..k], current, matches[..k], lossIncrease),
                   Mapped(Unmatched(baseline[..k], matches[..k]), Disappearing()),
                   PairEntries(baseline[..k], current, matches[..k], lossIncrease),
                   BaseEntry(baseline[k], current, matches[k], lossIncrease));
      if matches[k] < 0 {
        GoneStep(baseline, current, matches, lossIncrease);
      } else {
        PairStep(baseline, current, matches, lossIncrease);
      }
    }
  }

  lemma {:induction false} NewEntriesMapped(current: seq<ComparableEvent>, used: set<int>, n: nat)
    requires n <= |current|
    ensures NewEntries(current, used, n) == Mapped(Leftover(current, used, n), Appearing())
  {
    if n == 0 {
    } else {
      NewEntriesMapped(current, used, n - 1);
      MappedConcat(Leftover(current, used, n - 1), if n - 1 in used then [] else [current[n - 1]], Appearing());
    }
  }

  // ---- Events that share their place with no other ----

  predicate Alone(places: seq<real>, k: nat)
    requires k < |places|
  {
    forall j :: 0 <= j < |places| && j != k ==> places[j] != places[k]
  }

  /** An event alone at its place stays where it is. */
  lemma AloneStays(a: seq<ComparableEvent>, b: seq<ComparableEvent>, places: seq<real>, k: nat)
    requires Rearranged(a, b, places) && k < |places| && Alone(places, k)
    ensures a[k] == b[k]
  {
    assert b[k] in multiset(b);
    var i :| 0 <= i < |a| && a[i] == b[k];
    assert places[i] == places[k];
  }

  /** Each event of a matched pair is alone at its place in its own list. */
  predicate MatchedAlone(bases: seq<real>, places: seq<real>, tolerance: real) {
    var m := MatchOf(bases, places, tolerance);
    forall k :: 0 <= k < |m| && m[k] >= 0 ==> Alone(bases, k) && Alone(places, m[k])
  }

  predicate PairsSame(a: seq<ComparableEvent>, b: seq<ComparableEvent>, c: seq<ComparableEvent>,
      d: seq<ComparableEvent>,
      matches: seq<int>)
    requires |matches| == |a| == |b| && |c| == |d|
    requires forall i :: 0 <= i < |matches| ==> -1 <= matches[i] < |c|
  {
    forall k :: 0 <= k < |matches| && matches[k] >= 0 ==> a[k] == b[k] && c[matches[k]] == d[matches[k]]
  }

  lemma {:induction false} PairedSame(a: seq<ComparableEvent>, b: seq<ComparableEvent>, c: seq<ComparableEvent>,
      d: seq<ComparableEvent>, matches: seq<int>, lossIncrease: real)
    requires |matches| == |a| == |b| && |c| == |d|
    requires forall i :: 0 <= i < |matches| ==> -1 <= matches[i] < |c|
    requires PairsSame(a, b, c, d, matches)
    ensures Paired(a, matches) == Paired(b, matches)
    ensures PairEntries(a, c, matches, lossIncrease) == PairEntries(b, d, matches, lossIncrease)
  {
    if a == [] {
    } else {
      var k := |a| - 1;
      PairedSame(a[..k], b[..k], c, d, matches[..k], lossIncrease);
    }
  }

  lemma {:induction false} TakenSame(c: seq<ComparableEvent>, d: seq<ComparableEvent>, used: set<int>, n: nat)
    requires n <= |c| == |d|
    requires forall i :: 0 <= i < |c| && i in used ==> c[i] == d[i]
    ensures Taken(c, used, n) == Taken(d, used, n)
  {
    if n == 0 {
    } else {
      TakenSame(c, d, used, n - 1);
    }
  }

  lemma CancelRight<T>(a: multiset<T>, b: multiset<T>, c: multiset<T>)
    requires a + c == b + c
    ensures a == b
  {
    assert (a + c) - c == a && (b + c) - c == b;
  }

  lemma BaseEntriesSame(a: seq<ComparableEvent>, b: seq<ComparableEvent>, c: seq<ComparableEvent>,
      d: seq<ComparableEvent>,
      matches: seq<int>, lossIncrease: real)
    requires |matches| == |a| == |b| && |c| == |d| && multiset(a) == multiset(b)
    requires forall i :: 0 <= i < |matches| ==> -1 <= matches[i] < |c|
    requires PairsSame(a, b, c, d, matches)
    ensures multiset(BaseEntries(a, c, matches, lossIncrease)) == multiset(BaseEntries(b, d, matches, lossIncrease))
  {
    PairedSame(a, b, c, d, matches, lossIncrease);
    BaselineSplits(a, matches);
    BaselineSplits(b, matches);
    CancelRight(multiset(Unmatched(a, matches)), multiset(Unmatched(b, matches)), multiset(Paired(a, matches)));
    MappedPermutation(Unmatched(a, matches), Unmatched(b, matches), Disappearing());
    BaseEntriesSplit(a, c, matches, lossIncrease);
    BaseEntriesSplit(b, d, matches, lossIncrease);
  }

  lemma NewEntriesSame(c: seq<ComparableEvent>, d: seq<ComparableEvent>, used: set<int>)
    requires |c| == |d| && multiset(c) == multiset(d)
    requires forall i :: 0 <= i < |c| && i in used ==> c[i] == d[i]
    ensures multiset(NewEntries(c, used, |c|)) == multiset(NewEntries(d, used, |d|))
  {
    var n := |c|;
    assert c[..n] == c && d[..n] == d;
    TakenSame(c, d, used, n);
    CurrentSplits(c, used, n);
    CurrentSplits(d, used, n);
    CancelRight(multiset(Leftover(c, used, n)), multiset(Leftover(d, used, n)), multiset(Taken(c, used, n)));
    MappedPermutation(Leftover(c, used, n), Leftover(d, used, n), Appearing());
    NewEntriesMapped(c, used, n);
    NewEntriesMapped(d, used, n);
  }

  /** If all matched events are alone at their places, the report is the same for every order. */
  lemma AloneReportSame(a: seq<ComparableEvent>, b: seq<ComparableEvent>, bases: seq<real>,
      c: seq<ComparableEvent>, d: seq<ComparableEvent>, places: seq<real>, tolerance: real, lossIncrease: real)
    requires Rearranged(a, b, bases) && Rearranged(c, d, places) && MatchedAlone(bases, places, tolerance)
    ensures multiset(Collected(a, c, tolerance, lossIncrease)) == multiset(Collected(b, d, tolerance, lossIncrease))
  {
    var m := MatchOf(bases, places, tolerance);
    MatchFromPlaces(a, bases, c, places, tolerance);
    MatchFromPlaces(b, bases, d, places, tolerance);
    forall k | 0 <= k < |m| && m[k] >= 0
      ensures a[k] == b[k] && c[m[k]] == d[m[k]]
    {
      AloneStays(a, b, bases, k);
      AloneStays(c, d, places, m[k]);
    }
    BaseEntriesSame(a, b, c, d, m, lossIncrease);
    NewEntriesSame(c, d, Used(m));
  }

  // ---- The other direction ----

  /** Two events at one place change seats. */
  function Swapped(events: seq<ComparableEvent>, j: nat, k: nat): (r: seq<ComparableEvent>)
    requires j < |events| && k < |events|
    ensures |r| == |events|
  {
    events[j := events[k]][k := events[j]]
  }

  lemma SwappedRearranged(events: seq<ComparableEvent>, places: seq<real>, j: nat, k: nat)
    requires Placed(events, places) && j < |places| && k < |places| && j != k && places[j] == places[k]
    ensures Rearranged(events, Swapped(events, j, k), places)
  {
  }

  /** Nothing but the event at `p`, if there is one, has a confidence and a loss. */
  predicate OnlyAt(events: seq<ComparableEvent>, p: int, loss: real) {
    forall i :: 0 <= i < |events| ==>
      && events[i].confidence == (if i == p then 0.5 else 0.0)
      && events[i].insertionLossDB == (if i == p then loss else 0.0)
  }

  function Single(places: seq<real>, firstID: nat, p: int, loss: real): (events: seq<ComparableEvent>)
    ensures Placed(events, places) && DistinctIDs(events) && OnlyAt(events, p, loss)
    ensures forall i :: 0 <= i < |events| ==> events[i].id == firstID + i
  {
    seq(|places|, i requires 0 <= i < |places| =>
      ComparableEvent(firstID + i, places[i], if i == p then loss else 0.0, if i == p then 0.5 else 0.0))
  }

  lemma SwappedOnlyAt(events: seq<ComparableEvent>, p: nat, q: nat, loss: real)
    requires OnlyAt(events, p, loss) && p < |events| && q < |events|
    ensures OnlyAt(Swapped(events, q, p), q, loss)
  {
  }

  lemma HalfRounds()
    ensures Round3(0.5) == 0.5 && Round3(0.0) == 0.0 && Round3(0.5 * 0.9) == 0.45 && Round3(0.0 * 0.9) == 0.0
  {
    Round3Fixed(500);
    Round3Fixed(450);
    Round3Fixed(0);
  }

  /** No difference is surer than `bound`. */
  predicate AtMostSure(ds: seq<Difference>, bound: real) {
    forall i :: 0 <= i < |ds| ==> ds[i].confidence <= bound
  }

  /** Then the estimate is at least as vague as that. */
  lemma {:induction false} FaintEstimate(ds: seq<Difference>)
    requires AtMostSure(ds, 0.45)
    ensures PrimaryOf(ds).Some? ==> PrimaryOf(ds).value.uncertaintyM >= 11.0
  {
    if ds != [] {
      var k := PrimaryChoice(ds, |ds|);
    }
  }

  /** A difference of confidence one half that decides the choice gives an uncertainty of ten metres. */
  lemma {:induction false} BrightEstimate(ds: seq<Difference>, d: Difference)
    requires AtMostSure(ds, 0.5) && d in ds && d.confidence == 0.5
    requires d.kind == LossIncreased || forall i :: 0 <= i < |ds| ==> ds[i].kind != LossIncreased
    ensures PrimaryOf(ds).Some? && PrimaryOf(ds).value.uncertaintyM == 10.0
  {
    var n := |ds|;
    var k :| 0 <= k < n && ds[k] == d;
    assert d.kind != LossIncreased ==> LastLoss(ds, n) < 0;
    assert Decides(ds, n, k);
    PrimaryMostConfidentExactly(ds, n);
    var c := PrimaryChoice(ds, n);
  }

  /** What a comparison of nearly silent lists can say about confidence. */
  lemma {:induction false} ReportedConfidence(a: seq<ComparableEvent>, c: seq<ComparableEvent>, k: int, p: int,
      first: real, loss: real,
      tolerance: real, lossIncrease: real, ds: seq<Difference>, d: Difference)
    requires OnlyAt(a, k, first) && OnlyAt(c, p, loss) && IsComparison(a, c, tolerance, lossIncrease, ds) && d in ds
    ensures d.confidence <= 0.5
    ensures d.confidence > 0.45 ==>
              var m := Match(a, c, tolerance);
              || (d.kind == LossIncreased && 0 <= k < |a| && m[k] == p)
              || (d.kind == New && 0 <= p < |c| && p !in Used(m))
  {
    var m := Match(a, c, tolerance);
    HalfRounds();
    ReportedExactly(a, c, tolerance, lossIncrease, ds, d);
    if ReportsSomeBase(d, a, c, m, lossIncrease) {
      var i :| 0 <= i < |a| && BaseReport(d, a[i], c, m[i], lossIncrease);
    } else {
      var i :| 0 <= i < |c| && i !in Used(m) && NewReport(d, c[i]);
    }
  }

  /** If neither the two sure events are a pair nor the sure candidate is new, the estimate is vague. */
  lemma {:induction false} SplitFaint(a: seq<ComparableEvent>, c: seq<ComparableEvent>, k: int, p: int, loss: real,
      tolerance: real, lossIncrease: real, ds: seq<Difference>)
    requires OnlyAt(a, k, 0.0) && OnlyAt(c, p, loss) && IsComparison(a, c, tolerance, lossIncrease, ds)
    requires var m := Match(a, c, tolerance); (0 <= k < |a| ==> m[k] != p) && p in Used(m)
    ensures PrimaryOf(ds).Some? ==> PrimaryOf(ds).value.uncertaintyM >= 11.0
  {
    forall i | 0 <= i < |ds| ensures ds[i].confidence <= 0.45 {
      ReportedConfidence(a, c, k, p, 0.0, loss, tolerance, lossIncrease, ds, ds[i]);
    }
    FaintEstimate(ds);
  }

  /** If the two sure events are a pair whose loss rose, the pair decides. */
  lemma {:induction false} PairBright(a: seq<ComparableEvent>, c: seq<ComparableEvent>, k: nat, p: nat,
      tolerance: real, lossIncrease: real, ds: seq<Difference>)
    requires OnlyAt(a, k, 0.0) && OnlyAt(c, p, lossIncrease) && IsComparison(a, c, tolerance, lossIncrease, ds)
    requires k < |a| && p < |c| && Match(a, c, tolerance)[k] == p
    ensures PrimaryOf(ds).Some? && PrimaryOf(ds).value.uncertaintyM == 10.0
  {
    var d := LossEntry(a[k], c[p]);
    HalfRounds();
    assert BaseReport(d, a[k], c, Match(a, c, tolerance)[k], lossIncrease);
    ReportedExactly(a, c, tolerance, lossIncrease, ds, d);
    forall i | 0 <= i < |ds| ensures ds[i].confidence <= 0.5 {
      ReportedConfidence(a, c, k, p, 0.0, lossIncrease, tolerance, lossIncrease, ds, ds[i]);
    }
    BrightEstimate(ds, d);
  }

  /** If the sure candidate is new and no loss rose, it decides. */
  lemma {:induction false} NewBright(a: seq<ComparableEvent>, c: seq<ComparableEvent>, q: nat,
      tolerance: real, lossIncrease: real, ds: seq<Difference>)
    requires OnlyAt(a, -1, 0.0) && OnlyAt(c, q, 0.0) && IsComparison(a, c, tolerance, lossIncrease, ds)
    requires lossIncrease > 0.0 && q < |c| && q !in Used(Match(a, c, tolerance))
    ensures PrimaryOf(ds).Some? && PrimaryOf(ds).value.uncertaintyM == 10.0
  {
    var m, d := Match(a, c, tolerance), NewEntry(c[q]);
    HalfRounds();
    assert NewReport(d, c[q]);
    ReportedExactly(a, c, tolerance, lossIncrease, ds, d);
    forall i | 0 <= i < |ds| ensures ds[i].confidence <= 0.5 && ds[i].kind != LossIncreased {
      ReportedConfidence(a, c, -1, q, 0.0, 0.0, tolerance, lossIncrease, ds, ds[i]);
      NoLossReported(a, c, q, tolerance, lossIncrease, ds, ds[i]);
    }
    BrightEstimate(ds, d);
  }

  lemma {:induction false} NoLossReported(a: seq<ComparableEvent>, c: seq<ComparableEvent>, q: int,
      tolerance: real, lossIncrease: real, ds: seq<Difference>, d: Difference)
    requires OnlyAt(a, -1, 0.0) && OnlyAt(c, q, 0.0) && IsComparison(a, c, tolerance, lossIncrease, ds)
    requires lossIncrease > 0.0 && d in ds
    ensures d.kind != LossIncreased
  {
    var m := Match(a, c, tolerance);
    ReportedExactly(a, c, tolerance, lossIncrease, ds, d);
    if ReportsSomeBase(d, a, c, m, lossIncrease) {
      var i :| 0 <= i < |a| && BaseReport(d, a[i], c, m[i], lossIncrease);
    }
  }

  // ---- Exactly when the order of ties matters ----

  /** Two rearrangements whose reports are known and whose estimates differ. */
  ghost predicate TwoEstimates(bases: seq<real>, places: seq<real>, tolerance: real, lossIncrease: real,
      a: seq<ComparableEvent>, b: seq<ComparableEvent>, c: seq<ComparableEvent>, d: seq<ComparableEvent>) {
    && Rearranged(a, b, bases) && DistinctIDs(a) && Rearranged(c, d, places) && DistinctIDs(c)
    && exists first, second ::
         && IsComparison(a, c, tolerance, lossIncrease, first)
         && IsComparison(b, d, tolerance, lossIncrease, second)
         && PrimaryOf(first) != PrimaryOf(second)
  }

  lemma {:induction false} MatchesOnce(bases: seq<real>, places: seq<real>, tolerance: real, k: nat, j: nat)
    requires k < |bases| && j < |bases| && j != k && MatchOf(bases, places, tolerance)[k] >= 0
    ensures var m := MatchOf(bases, places, tolerance); m[j] != m[k] && m[k] in Used(m)
  {
    MatchValid(Plain(bases, 0), Plain(places, |bases|), tolerance);
    UsedContains(MatchOf(bases, places, tolerance), |bases|, k);
  }

  /** A matched baseline event that shares its place with another one. */
  lemma {:induction false} TiedBaseEstimates(bases: seq<real>, places: seq<real>, tolerance: real, lossIncrease: real,
      k: nat, j: nat)
    returns (a: seq<ComparableEvent>, b: seq<ComparableEvent>, c: seq<ComparableEvent>)
    requires lossIncrease > 0.0 && k < |bases| && j < |bases| && j != k && bases[j] == bases[k]
    requires MatchOf(bases, places, tolerance)[k] >= 0
    ensures TwoEstimates(bases, places, tolerance, lossIncrease, a, b, c, c)
  {
    var m := MatchOf(bases, places, tolerance);
    var p := m[k];
    a, c := Single(bases, 0, k, 0.0), Single(places, |bases|, p, lossIncrease);
    b := Swapped(a, j, k);
    SwappedRearranged(a, bases, j, k);
    SwappedOnlyAt(a, k, j, 0.0);
    MatchFromPlaces(a, bases, c, places, tolerance);
    MatchFromPlaces(b, bases, c, places, tolerance);
    MatchesOnce(bases, places, tolerance, k, j);
    var first := Arrange(Collected(a, c, tolerance, lossIncrease));
    var second := Arrange(Collected(b, c, tolerance, lossIncrease));
    PairBright(a, c, k, p, tolerance, lossIncrease, first);
    SplitFaint(b, c, j, p, lossIncrease, tolerance, lossIncrease, second);
  }

  /** A taken candidate that shares its place with another taken one. */
  lemma {:induction false} TiedTakenEstimates(bases: seq<real>, places: seq<real>, tolerance: real,
      lossIncrease: real, k: nat, q: nat)
    returns (a: seq<ComparableEvent>, c: seq<ComparableEvent>, d: seq<ComparableEvent>)
    requires lossIncrease > 0.0 && k < |bases| && q < |places|
    requires var m := MatchOf(bases, places, tolerance);
             m[k] >= 0 && q != m[k] && places[q] == places[m[k]] && q in Used(m)
    ensures TwoEstimates(bases, places, tolerance, lossIncrease, a, a, c, d)
  {
    var m := MatchOf(bases, places, tolerance);
    var p := m[k];
    a, c := Single(bases, 0, k, 0.0), Single(places, |bases|, p, lossIncrease);
    d := Swapped(c, q, p);
    SwappedRearranged(c, places, q, p);
    SwappedOnlyAt(c, p, q, lossIncrease);
    MatchFromPlaces(a, bases, c, places, tolerance);
    MatchFromPlaces(a, bases, d, places, tolerance);
    var first := Arrange(Collected(a, c, tolerance, lossIncrease));
    var second := Arrange(Collected(a, d, tolerance, lossIncrease));
    PairBright(a, c, k, p, tolerance, lossIncrease, first);
    SplitFaint(a, d, k, q, lossIncrease, tolerance, lossIncrease, second);
  }

  /** A taken candidate that shares its place with a free one. */
  lemma {:induction false} TiedFreeEstimates(bases: seq<real>, places: seq<real>, tolerance: real, lossIncrease: real,
      k: nat, q: nat)
    returns (a: seq<ComparableEvent>, c: seq<ComparableEvent>, d: seq<ComparableEvent>)
    requires lossIncrease > 0.0 && k < |bases| && q < |places|
    requires var m := MatchOf(bases, places, tolerance);
             m[k] >= 0 && q != m[k] && places[q] == places[m[k]] && q !in Used(m)
    ensures TwoEstimates(bases, places, tolerance, lossIncrease, a, a, c, d)
  {
    var m := MatchOf(bases, places, tolerance);
    var p := m[k];
    a, c := Single(bases, 0, -1, 0.0), Single(places, |bases|, q, 0.0);
    d := Swapped(c, p, q);
    SwappedRearranged(c, places, p, q);
    SwappedOnlyAt(c, q, p, 0.0);
    MatchFromPlaces(a, bases, c, places, tolerance);
    MatchFromPlaces(a, bases, d, places, tolerance);
    UsedContains(m, |m|, k);
    var first := Arrange(Collected(a, c, tolerance, lossIncrease));
    var second := Arrange(Collected(a, d, tolerance, lossIncrease));
    NewBright(a, c, q, tolerance, lossIncrease, first);
    SplitFaint(a, d, -1, p, 0.0, tolerance, lossIncrease, second);
  }

  /** Wherever a matched event shares its place, two orders of ties give two estimates. */
  lemma {:induction false} TiesEstimateTwice(bases: seq<real>, places: seq<real>, tolerance: real, lossIncrease: real)
    returns (a: seq<ComparableEvent>, b: seq<ComparableEvent>, c: seq<ComparableEvent>, d: seq<ComparableEvent>)
    requires lossIncrease > 0.0 && !MatchedAlone(bases, places, tolerance)
    ensures TwoEstimates(bases, places, tolerance, lossIncrease, a, b, c, d)
  {
    var m := MatchOf(bases, places, tolerance);
    var k :| 0 <= k < |m| && m[k] >= 0 && !(Alone(bases, k) && Alone(places, m[k]));
    if !Alone(bases, k) {
      var j :| 0 <= j < |bases| && j != k && bases[j] == bases[k];
      a, b, c := TiedBaseEstimates(bases, places, tolerance, lossIncrease, k, j);
      d := c;
    } else {
      var q :| 0 <= q < |places| && q != m[k] && places[q] == places[m[k]];
      if q in Used(m) {
        a, c, d := TiedTakenEstimates(bases, places, tolerance, lossIncrease, k, q);
      } else {
        a, c, d := TiedFreeEstimates(bases, places, tolerance, lossIncrease, k, q);
      }
      b := a;
    }
  }

  /** Whatever events lie at these distances, and in whatever order equal distances come, the report is one. */
  ghost predicate OneReport(bases: seq<real>, places: seq<real>, tolerance: real, lossIncrease: real) {
    forall a, b, c, d ::
      Rearranged(a, b, bases) && DistinctIDs(a) && Rearranged(c, d, places) && DistinctIDs(c) ==>
      multiset(Collected(a, c, tolerance, lossIncrease)) == multiset(Collected(b, d, tolerance, lossIncrease))
  }

  /** The estimate is one. */
  ghost predicate OneEstimate(bases: seq<real>, places: seq<real>, tolerance: real, lossIncrease: real) {
    forall a, b, c, d :: !TwoEstimates(bases, places, tolerance, lossIncrease, a, b, c, d)
  }

  lemma {:induction false} OneReportOneEstimate(bases: seq<real>, places: seq<real>, tolerance: real,
      lossIncrease: real)
    requires OneReport(bases, places, tolerance, lossIncrease)
    ensures OneEstimate(bases, places, tolerance, lossIncrease)
  {
    forall a, b, c, d
      ensures !TwoEstimates(bases, places, tolerance, lossIncrease, a, b, c, d)
    {
      if TwoEstimates(bases, places, tolerance, lossIncrease, a, b, c, d) {
        var first, second :| && IsComparison(a, c, tolerance, lossIncrease, first)
                             && IsComparison(b, d, tolerance, lossIncrease, second)
                             && PrimaryOf(first) != PrimaryOf(second);
        assert multiset(first) == multiset(second);
        EstimateOfReport(first, second);
      }
    }
  }

  /**
   For given distances neither the report nor the estimate ever depends on the order of ties, whatever the
   identifiers, losses and confidences, exactly if no matched event shares its distance with another event
   of its own list.
   */
  lemma {:induction false} OneReportExactly(bases: seq<real>, places: seq<real>, tolerance: real, lossIncrease: real)
    requires lossIncrease > 0.0
    ensures OneReport(bases, places, tolerance, lossIncrease) <==> MatchedAlone(bases, places, tolerance)
    ensures OneEstimate(bases, places, tolerance, lossIncrease) <==> MatchedAlone(bases, places, tolerance)
  {
    if MatchedAlone(bases, places, tolerance) {
      forall a, b, c, d | Rearranged(a, b, bases) && DistinctIDs(a) && Rearranged(c, d, places) && DistinctIDs(c)
        ensures multiset(Collected(a, c, tolerance, lossIncrease)) == multiset(Collected(b, d, tolerance, lossIncrease))
      {
        AloneReportSame(a, b, bases, c, d, places, tolerance, lossIncrease);
      }
      OneReportOneEstimate(bases, places, tolerance, lossIncrease);
    } else {
      var a, b, c, d := TiesEstimateTwice(bases, places, tolerance, lossIncrease);
      if OneReport(bases, places, tolerance, lossIncrease) {
        OneReportOneEstimate(bases, places, tolerance, lossIncrease);
      }
    }
  }

  predicate AllAlone(places: seq<real>) {
    forall i, j :: 0 <= i < j < |places| ==> places[i] != places[j]
  }

  /** In particular if the distances within each list are pairwise distinct. */
  lemma DistinctPlacesAlone(bases: seq<real>, places: seq<real>, tolerance: real)
    requires AllAlone(bases) && AllAlone(places)
    ensures MatchedAlone(bases, places, tolerance)
  {
  }
}
