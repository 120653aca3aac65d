/** When does the report of a comparison depend on the order of the baseline, whatever that order may be? */
module BaselineOrder {
  import opened Counting
  import opened Comparison
  import opened MatchingQuality
  import opened DifferenceLaws
  import opened OrderIndependence

  /** No two events at these distances have the same nearest candidate in tolerance. */
  predicate NoRivals(bases: seq<real>, places: seq<real>, tolerance: real) {
    NearestDistinct(Plain(bases, 0), Plain(places, |bases|), tolerance)
  }

  lemma {:induction false} NearestAtPlaces(a: seq<ComparableEvent>, bases: seq<real>, c: seq<ComparableEvent>,
      places: seq<real>, tolerance: real, i: nat)
    requires Placed(a, bases) && Placed(c, places) && i < |a|
    ensures Nearest(a[i], c, {}, tolerance) == Nearest(Plain(bases, 0)[i], Plain(places, |bases|), {}, tolerance)
  {
    NearestFromPlaces(a[i], Plain(bases, 0)[i], c, Plain(places, |bases|), places, {}, tolerance, |places|);
  }

  lemma {:induction false} RivalsFromPlaces(a: seq<ComparableEvent>, bases: seq<real>, c: seq<ComparableEvent>,
      places: seq<real>, tolerance: real)
    requires Placed(a, bases) && Placed(c, places)
    ensures NearestDistinct(a, c, tolerance) <==> NoRivals(bases, places, tolerance)
  {
    forall i | 0 <= i < |a|
      ensures Nearest(a[i], c, {}, tolerance) == Nearest(Plain(bases, 0)[i], Plain(places, |bases|), {}, tolerance)
    {
      NearestAtPlaces(a, bases, c, places, tolerance, i);
    }
  }

  /** Event `i` goes to the front. */
  function Fronted(events: seq<ComparableEvent>, i: nat): (r: seq<ComparableEvent>)
    requires i < |events|
    ensures |r| == |events| && r[0] == events[i]
  {
    [events[i]] + (events[..i] + events[i + 1..])
  }

  lemma {:induction false} FrontedPermutes(events: seq<ComparableEvent>, i: nat)
    requires i < |events| && DistinctIDs(events)
    ensures multiset(Fronted(events, i)) == multiset(events)
    ensures forall q :: 0 < q < |Fronted(events, i)| ==> Fronted(events, i)[q].id != events[i].id
  {
    RemoveAt(events, i);
  }

  /** The event at the front gets its nearest candidate. */
  lemma {:induction false} FrontMatch(b: seq<ComparableEvent>, c: seq<ComparableEvent>, tolerance: real)
    requires b != []
    ensures Match(b, c, tolerance)[0] == Nearest(b[0], c, {}, tolerance)
  {
    MatchStep(b, c, tolerance, 0);
    assert Used(Match(b, c, tolerance)[..0]) == {};
  }

  /** In front of its rival, an event is reported with the candidate they share; behind it, it is not. */
  lemma {:induction false} FrontReports(b: seq<ComparableEvent>, c: seq<ComparableEvent>, p: nat, tolerance: real,
      lossIncrease: real, x: ComparableEvent)
    requires lossIncrease > 0.0 && b != [] && p < |c| && Nearest(b[0], c, {}, tolerance) == p
    requires OnlyAt(c, p, lossIncrease) && x.insertionLossDB == 0.0
    requires forall q :: 0 <= q < |b| ==> b[q].insertionLossDB == 0.0
    requires x == b[0] || x.id != b[0].id
    ensures LossEntry(x, c[p]) in Collected(b, c, tolerance, lossIncrease) <==> x == b[0]
  {
    var m, d := Match(b, c, tolerance), LossEntry(x, c[p]);
    FrontMatch(b, c, tolerance);
    MatchValid(b, c, tolerance);
    BaseEntriesMembers(b, c, m, lossIncrease, d);
    NewEntriesMembers(c, Used(m), |c|, d);
    if x == b[0] { assert BaseReport(d, b[0], c, m[0], lossIncrease); }
  }

  /** Two orders of one baseline that have different reports. */
  ghost predicate TwoReports(a: seq<ComparableEvent>, b: seq<ComparableEvent>, bases: seq<real>,
      c: seq<ComparableEvent>, places: seq<real>, tolerance: real, lossIncrease: real) {
    && Placed(a, bases) && DistinctIDs(a) && multiset(a) == multiset(b) && Placed(c, places) && DistinctIDs(c)
    && multiset(Collected(a, c, tolerance, lossIncrease)) != multiset(Collected(b, c, tolerance, lossIncrease))
  }

  /** Rivals are reported differently depending on which of them comes first. */
  lemma {:induction false} BaselineOrderMatters(bases: seq<real>, places: seq<real>, tolerance: real,
      lossIncrease: real)
    returns (a: seq<ComparableEvent>, b: seq<ComparableEvent>, c: seq<ComparableEvent>)
    requires lossIncrease > 0.0 && !NoRivals(bases, places, tolerance)
    ensures TwoReports(a, b, bases, c, places, tolerance, lossIncrease)
  {
    var plain, candidates := Plain(bases, 0), Plain(places, |bases|);
    var i, j :| 0 <= i < j < |bases| && Nearest(plain[i], candidates, {}, tolerance) >= 0
                && Nearest(plain[i], candidates, {}, tolerance) == Nearest(plain[j], candidates, {}, tolerance);
    var p := Nearest(plain[i], candidates, {}, tolerance);
    a, c := Single(bases, 0, -1, 0.0), Single(places, |bases|, p, lossIncrease);
    NearestAtPlaces(a, bases, c, places, tolerance, i);
    NearestAtPlaces(a, bases, c, places, tolerance, j);
    var first, second := Fronted(a, i), Fronted(a, j);
    FrontedPermutes(a, i);
    FrontedPermutes(a, j);
    SilentPermutes(a, first);
    SilentPermutes(a, second);
    var d := LossEntry(a[i], c[p]);
    FrontReports(first, c, p, tolerance, lossIncrease, a[i]);
    FrontReports(second, c, p, tolerance, lossIncrease, a[i]);
    assert d in multiset(Collected(first, c, tolerance, lossIncrease));
    assert d !in multiset(Collected(second, c, tolerance, lossIncrease));
    b := if d in multiset(Collected(a, c, tolerance, lossIncrease)) then second else first;
  }

  lemma {:induction false} SilentPermutes(a: seq<ComparableEvent>, b: seq<ComparableEvent>)
    requires OnlyAt(a, -1, 0.0) && multiset(a) == multiset(b)
    ensures forall q :: 0 <= q < |b| ==> b[q].insertionLossDB == 0.0
  {
    forall q | 0 <= q < |b| ensures b[q].insertionLossDB == 0.0 {
      assert b[q] in multiset(b);
      var k :| 0 <= k < |a| && a[k] == b[q];
    }
  }

  /** Whatever events lie at these distances, every order of the baseline has the same report. */
  ghost predicate OneReportAnyOrder(bases: seq<real>, places: seq<real>, tolerance: real, lossIncrease: real) {
    forall a, b, c :: !TwoReports(a, b, bases, c, places, tolerance, lossIncrease)
  }

  /**
   For given distances the report never depends on the order of the baseline, whatever the identifiers,
   losses and confidences, exactly if no two baseline events have the same nearest candidate in tolerance.
   */
  lemma {:induction false} OrderFreeExactly(bases: seq<real>, places: seq<real>, tolerance: real, lossIncrease: real)
    requires lossIncrease > 0.0
    ensures OneReportAnyOrder(bases, places, tolerance, lossIncrease) <==> NoRivals(bases, places, tolerance)
  {
    if NoRivals(bases, places, tolerance) {
      forall a, b, c
        ensures !TwoReports(a, b, bases, c, places, tolerance, lossIncrease)
      {
        if Placed(a, bases) && multiset(a) == multiset(b) && Placed(c, places) {
          RivalsFromPlaces(a, bases, c, places, tolerance);
          DistinctOrderIndependent(a, b, c, tolerance, lossIncrease);
        }
      }
    } else {
      var a, b, c := BaselineOrderMatters(bases, places, tolerance, lossIncrease);
    }
  }
}
