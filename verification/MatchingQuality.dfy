/** What the greedy matching of `CompareBaseline` guarantees, and where its limits lie. */
module MatchingQuality {
  import opened Numbers
  import opened Counting
  import opened Comparison

  // ---- Matchings ----

  predicate OneToOne(m: seq<int>) {
    forall i, j :: 0 <= i < j < |m| && m[i] >= 0 ==> m[i] != m[j]
  }

  predicate InTolerance(baseline: seq<ComparableEvent>, current: seq<ComparableEvent>, tolerance: real, m: seq<int>) {
    |m| == |baseline|
    && forall i :: 0 <= i < |m| && m[i] >= 0 ==>
         m[i] < |current| && -tolerance <= baseline[i].distanceM - current[m[i]].distanceM <= tolerance
  }

  /** Any pairing of baseline events with current events that the comparison could be asked to find. */
  predicate ValidMatching(baseline: seq<ComparableEvent>, current: seq<ComparableEvent>, tolerance: real, m: seq<int>) {
    OneToOne(m) && InTolerance(baseline, current, tolerance, m)
  }

  function Matched(): int -> bool {
    v => v >= 0
  }

  /** The number of pairs in a matching. */
  function Size(m: seq<int>): nat {
    Count(m, Matched())
  }

  lemma MatchAt(baseline: seq<ComparableEvent>, current: seq<ComparableEvent>, tolerance: real, k: nat)
    requires k < |baseline|
    ensures var m := Match(baseline, current, tolerance);
            && m[k] == Nearest(baseline[k], current, Used(m[..k]), tolerance)
            && (m[k] >= 0 ==>
                  m[k] !in Used(m[..k]) && -tolerance <= baseline[k].distanceM - current[m[k]].distanceM <= tolerance)
  {
    MatchStep(baseline, current, tolerance, k);
    NearestExact(baseline[k], current, Used(Match(baseline, current, tolerance)[..k]), tolerance);
  }

  lemma UsedContains(m: seq<int>, k: nat, i: nat)
    requires i < k <= |m| && m[i] >= 0
    ensures m[i] in Used(m[..k]) && m[i] in Used(m)
  {
    assert m[..k][i] == m[i];
  }

  /** The matching pairs every event at most once, always within tolerance. */
  lemma MatchValid(baseline: seq<ComparableEvent>, current: seq<ComparableEvent>, tolerance: real)
    ensures ValidMatching(baseline, current, tolerance, Match(baseline, current, tolerance))
  {
    var m := Match(baseline, current, tolerance);
    forall i, j | 0 <= i < j < |m| && m[i] >= 0
      ensures m[i] != m[j]
    {
      MatchAt(baseline, current, tolerance, j);
      UsedContains(m, j, i);
    }
    forall i | 0 <= i < |m| && m[i] >= 0
      ensures -tolerance <= baseline[i].distanceM - current[m[i]].distanceM <= tolerance
    {
      MatchAt(baseline, current, tolerance, i);
    }
  }

  /**
   No regret: whichever candidate an event got, every candidate that earlier events had not taken is
   at least as far away; and an event is unmatched only if all of those are out of tolerance.
   */
  lemma MatchNearest(baseline: seq<ComparableEvent>, current: seq<ComparableEvent>, tolerance: real, k: nat, c: nat)
    requires k < |baseline| && c < |current|
    requires var m := Match(baseline, current, tolerance); forall i :: 0 <= i < k ==> m[i] != c
    ensures var m := Match(baseline, current, tolerance);
            if m[k] >= 0 then
              Abs(baseline[k].distanceM - current[m[k]].distanceM) <= Abs(baseline[k].distanceM - current[c].distanceM)
            else
              baseline[k].distanceM - current[c].distanceM > tolerance
              || baseline[k].distanceM - current[c].distanceM < -tolerance
  {
    var m := Match(baseline, current, tolerance);
    MatchStep(baseline, current, tolerance, k);
    NearestExact(baseline[k], current, Used(m[..k]), tolerance);
    assert c !in Used(m[..k]);
  }

  /**
   "Nearest" means nearest among what is left: an event gets its overall nearest candidate in tolerance
   exactly if no earlier event has taken that candidate.
   */
  lemma NearestUnlessTaken(baseline: seq<ComparableEvent>, current: seq<ComparableEvent>, tolerance: real, k: nat)
    requires k < |baseline|
    ensures var m, nearest := Match(baseline, current, tolerance), Nearest(baseline[k], current, {}, tolerance);
            m[k] == nearest <==> nearest !in Used(m[..k])
  {
    var m := Match(baseline, current, tolerance);
    MatchStep(baseline, current, tolerance, k);
    NearestExact(baseline[k], current, Used(m[..k]), tolerance);
    NearestExact(baseline[k], current, {}, tolerance);
  }

  /** No two events of the baseline have the same overall nearest candidate. */
  predicate NearestDistinct(baseline: seq<ComparableEvent>, current: seq<ComparableEvent>, tolerance: real) {
    forall i, j :: 0 <= i < j < |baseline| && Nearest(baseline[i], current, {}, tolerance) >= 0 ==>
      Nearest(baseline[i], current, {}, tolerance) != Nearest(baseline[j], current, {}, tolerance)
  }

  predicate NearestUpToHere(baseline: seq<ComparableEvent>, current: seq<ComparableEvent>, tolerance: real, k: nat)
    requires k <= |baseline|
  {
    forall i :: 0 <= i < k ==>
      Match(baseline, current, tolerance)[i] == Nearest(baseline[i], current, {}, tolerance)
  }

  lemma {:induction false} DistinctMatchNearest(baseline: seq<ComparableEvent>, current: seq<ComparableEvent>,
      tolerance: real, k: nat)
    requires NearestDistinct(baseline, current, tolerance) && k <= |baseline|
    ensures NearestUpToHere(baseline, current, tolerance, k)
    decreases k
  {
    if k == 0 {
    } else {
      var m, c := Match(baseline, current, tolerance), Nearest(baseline[k - 1], current, {}, tolerance);
      DistinctMatchNearest(baseline, current, tolerance, k - 1);
      NearestUnlessTaken(baseline, current, tolerance, k - 1);
      assert c !in Used(m[..k - 1]);
    }
  }

  /**
   Every event gets its overall nearest candidate exactly if no two events have the same nearest
   candidate in tolerance.
   */
  lemma AllNearestExactly(baseline: seq<ComparableEvent>, current: seq<ComparableEvent>, tolerance: real)
    ensures NearestUpToHere(baseline, current, tolerance, |baseline|)
       <==> NearestDistinct(baseline, current, tolerance)
  {
    MatchValid(baseline, current, tolerance);
    if NearestDistinct(baseline, current, tolerance) {
      DistinctMatchNearest(baseline, current, tolerance, |baseline|);
    }
  }

  /** Nothing left over: no disappeared event and new event are within tolerance of each other. */
  lemma MatchMaximal(baseline: seq<ComparableEvent>, current: seq<ComparableEvent>, tolerance: real, k: nat, c: nat)
    requires k < |baseline| && c < |current|
    requires Match(baseline, current, tolerance)[k] < 0
    requires c !in Used(Match(baseline, current, tolerance))
    ensures baseline[k].distanceM - current[c].distanceM > tolerance
            || baseline[k].distanceM - current[c].distanceM < -tolerance
  {
    var m := Match(baseline, current, tolerance);
    forall i | 0 <= i < k
      ensures m[i] != c
    {
      if m[i] >= 0 { UsedContains(m, |m|, i); }
    }
    MatchNearest(baseline, current, tolerance, k, c);
  }

  // ---- Sizes ----

  /** A one-to-one matching takes as many candidates as it has pairs. */
  lemma {:induction false} UsedSize(m: seq<int>, k: nat)
    requires OneToOne(m) && k <= |m|
    ensures |Used(m[..k])| == Size(m[..k])
  {
    if k > 0 {
      UsedSize(m, k - 1);
      UsedStep(m, k - 1);
      assert m[..k] == m[..k - 1] + [m[k - 1]];
      CountLast(m[..k - 1], m[k - 1], Matched());
      if m[k - 1] >= 0 { FreshTarget(m, k - 1); }
    } else {
      assert Used(m[..0]) == {};
    }
  }

  lemma FreshTarget(m: seq<int>, k: nat)
    requires OneToOne(m) && k < |m| && m[k] >= 0
    ensures m[k] !in Used(m[..k])
  {
  }

  /** The pairs of `other` whose baseline event is unmatched in `m`. */
  function Lost(other: seq<int>, m: seq<int>): (r: seq<int>)
    requires |other| == |m|
    ensures |r| == |m|
  {
    seq(|m|, i requires 0 <= i < |m| => if m[i] < 0 then other[i] else -1)
  }

  lemma {:induction false} SizeSplit(other: seq<int>, m: seq<int>, k: nat)
    requires k <= |other| == |m|
    ensures Size(other[..k]) <= Size(m[..k]) + Size(Lost(other, m)[..k])
  {
    if k == 0 {
    } else {
      SizeSplit(other, m, k - 1);
      var lost := Lost(other, m);
      assert other[..k] == other[..k - 1] + [other[k - 1]];
      assert m[..k] == m[..k - 1] + [m[k - 1]];
      assert lost[..k] == lost[..k - 1] + [lost[k - 1]];
      CountLast(other[..k - 1], other[k - 1], Matched());
      CountLast(m[..k - 1], m[k - 1], Matched());
      CountLast(lost[..k - 1], lost[k - 1], Matched());
    }
  }

  lemma UsedSubset(a: set<int>, b: set<int>)
    requires a <= b
    ensures |a| <= |b|
  {
    assert b == a + (b - a);
  }

  /** What greedy left unmatched could only have been paired with candidates that greedy used. */
  lemma LostTargets(baseline: seq<ComparableEvent>, current: seq<ComparableEvent>, tolerance: real, other: seq<int>)
    requires ValidMatching(baseline, current, tolerance, other)
    ensures Used(Lost(other, Match(baseline, current, tolerance))) <= Used(Match(baseline, current, tolerance))
  {
    var m := Match(baseline, current, tolerance);
    var lost := Lost(other, m);
    forall c | c in Used(lost)
      ensures c in Used(m)
    {
      var i :| 0 <= i < |lost| && lost[i] >= 0 && lost[i] == c;
      if c !in Used(m) { MatchMaximal(baseline, current, tolerance, i, c); }
    }
  }

  /** Greedy is within a factor of two of every valid matching. */
  lemma MatchHalfOptimal(baseline: seq<ComparableEvent>, current: seq<ComparableEvent>, tolerance: real,
      other: seq<int>)
    requires ValidMatching(baseline, current, tolerance, other)
    ensures Size(other) <= 2 * Size(Match(baseline, current, tolerance))
  {
    var m, n := Match(baseline, current, tolerance), |baseline|;
    var lost := Lost(other, m);
    assert other[..n] == other && m[..n] == m && lost[..n] == lost;
    MatchValid(baseline, current, tolerance);
    UsedSize(m, n);
    UsedSize(lost, n);
    SizeSplit(other, m, n);
    LostTargets(baseline, current, tolerance, other);
    UsedSubset(Used(lost), Used(m));
  }

  /** The nearest candidate of the first event is the only one the second event could have had. */
  lemma GreedyTakesTheOther(b0: ComparableEvent, b1: ComparableEvent, c0: ComparableEvent, c1: ComparableEvent,
      tolerance: real)
    requires Gap(b0, c1) < Gap(b0, c0) <= tolerance && Gap(b1, c0) > tolerance && Gap(b1, c1) <= tolerance
    ensures Match([b0, b1], [c0, c1], tolerance) == [1, -1]
  {
    var baseline, current := [b0, b1], [c0, c1];
    assert NearestUpTo(b0, current, {}, tolerance, 1) == 0;
    assert Nearest(b0, current, {}, tolerance) == 1;
    assert MatchUpTo(baseline, current, tolerance, 0) == [] && Used([]) == {};
    assert MatchUpTo(baseline, current, tolerance, 1) == [1];
    assert Used([1]) == {1} by { assert [1][0] in Used([1]); }
    assert NearestUpTo(b1, current, {1}, tolerance, 1) == -1;
    assert Nearest(b1, current, {1}, tolerance) == -1;
  }

  /** The factor two is attained, already on lists sorted by distance. */
  lemma MatchHalfOptimalTight() returns (baseline: seq<ComparableEvent>, current: seq<ComparableEvent>, other: seq<int>)
    ensures ValidMatching(baseline, current, 10.0, other)
    ensures Size(other) == 2 && Size(Match(baseline, current, 10.0)) == 1
    ensures |baseline| == 2 && baseline[0].distanceM < baseline[1].distanceM
    ensures |current| == 2 && current[0].distanceM < current[1].distanceM
  {
    var b0, b1 := ComparableEvent(1, 10.0, 0.2, 0.9), ComparableEvent(2, 20.0, 0.2, 0.9);
    var c0, c1 := ComparableEvent(3, 2.0, 0.2, 0.9), ComparableEvent(4, 11.0, 0.2, 0.9);
    baseline, current, other := [b0, b1], [c0, c1], [0, 1];
    GreedyTakesTheOther(b0, b1, c0, c1, 10.0);
    assert Size([1, -1]) == 1 && Size(other) == 2;
  }

  // ---- Events that do not compete ----

  /** Baseline events pairwise more than twice the tolerance apart. */
  predicate SpreadOut(baseline: seq<ComparableEvent>, tolerance: real) {
    forall i, j :: 0 <= i < j < |baseline| ==>
      baseline[i].distanceM - baseline[j].distanceM > 2.0 * tolerance
      || baseline[j].distanceM - baseline[i].distanceM > 2.0 * tolerance
  }

  /** Then no candidate is near two of them. */
  lemma SpreadDistinct(baseline: seq<ComparableEvent>, current: seq<ComparableEvent>, tolerance: real)
    requires SpreadOut(baseline, tolerance)
    ensures NearestDistinct(baseline, current, tolerance)
  {
    forall i, j | 0 <= i < j < |baseline| && Nearest(baseline[i], current, {}, tolerance) >= 0
      ensures Nearest(baseline[i], current, {}, tolerance) != Nearest(baseline[j], current, {}, tolerance)
    {
      NearestExact(baseline[i], current, {}, tolerance);
      NearestExact(baseline[j], current, {}, tolerance);
    }
  }

  /** So every event gets its overall nearest candidate. */
  lemma SpreadMatchLocal(baseline: seq<ComparableEvent>, current: seq<ComparableEvent>, tolerance: real, k: nat)
    requires SpreadOut(baseline, tolerance) && k < |baseline|
    ensures Match(baseline, current, tolerance)[k] == Nearest(baseline[k], current, {}, tolerance)
  {
    SpreadDistinct(baseline, current, tolerance);
    AllNearestExactly(baseline, current, tolerance);
  }

  lemma {:induction false} SizeMonotone(a: seq<int>, b: seq<int>)
    requires |a| == |b|
    requires forall i :: 0 <= i < |a| && a[i] >= 0 ==> b[i] >= 0
    ensures Size(a) <= Size(b)
  {
    if a == [] {
    } else {
      SizeMonotone(a[1..], b[1..]);
    }
  }

  /** If no two events have the same nearest candidate, greedy finds a matching of maximum size. */
  lemma DistinctMatchMaximum(baseline: seq<ComparableEvent>, current: seq<ComparableEvent>, tolerance: real,
      other: seq<int>)
    requires NearestDistinct(baseline, current, tolerance)
    requires ValidMatching(baseline, current, tolerance, other)
    ensures Size(other) <= Size(Match(baseline, current, tolerance))
  {
    var m := Match(baseline, current, tolerance);
    AllNearestExactly(baseline, current, tolerance);
    forall b | 0 <= b < |other| && other[b] >= 0
      ensures m[b] >= 0
    {
      NearestExact(baseline[b], current, {}, tolerance);
      assert -tolerance <= baseline[b].distanceM - current[other[b]].distanceM <= tolerance;
    }
    SizeMonotone(other, m);
  }

  /** In particular if the baseline events are spread out. */
  lemma SpreadMatchMaximum(baseline: seq<ComparableEvent>, current: seq<ComparableEvent>, tolerance: real,
      other: seq<int>)
    requires SpreadOut(baseline, tolerance)
    requires ValidMatching(baseline, current, tolerance, other)
    ensures Size(other) <= Size(Match(baseline, current, tolerance))
  {
    SpreadDistinct(baseline, current, tolerance);
    DistinctMatchMaximum(baseline, current, tolerance, other);
  }

  /** And also if the current events are: then greedy uses every candidate that any matching uses. */
  lemma SpreadCurrentMaximum(baseline: seq<ComparableEvent>, current: seq<ComparableEvent>, tolerance: real,
      other: seq<int>)
    requires SpreadOut(current, tolerance)
    requires ValidMatching(baseline, current, tolerance, other)
    ensures Size(other) <= Size(Match(baseline, current, tolerance))
  {
    var m, n := Match(baseline, current, tolerance), |baseline|;
    MatchValid(baseline, current, tolerance);
    forall c | c in Used(other)
      ensures c in Used(m)
    {
      var b :| 0 <= b < |other| && other[b] >= 0 && other[b] == c;
      if m[b] < 0 {
        if c !in Used(m) { MatchMaximal(baseline, current, tolerance, b, c); }
      } else {
        OnlyCandidate(baseline[b], current, tolerance, m[b], c);
        UsedContains(m, n, b);
      }
    }
    assert other[..n] == other && m[..n] == m;
    UsedSize(other, n);
    UsedSize(m, n);
    UsedSubset(Used(other), Used(m));
  }

  /** Among candidates that are spread out, at most one is within tolerance. */
  lemma OnlyCandidate(base: ComparableEvent, current: seq<ComparableEvent>, tolerance: real, c: nat, d: nat)
    requires SpreadOut(current, tolerance) && c < |current| && d < |current|
    requires -tolerance <= base.distanceM - current[c].distanceM <= tolerance
    requires -tolerance <= base.distanceM - current[d].distanceM <= tolerance
    ensures c == d
  {
  }

  /** The contribution of one event when no candidate is contested. */
  function LocalEntry(base: ComparableEvent, current: seq<ComparableEvent>, tolerance: real,
      lossIncrease: real): seq<Difference> {
    BaseEntry(base, current, Nearest(base, current, {}, tolerance), lossIncrease)
  }

  function LocalEntries(baseline: seq<ComparableEvent>, current: seq<ComparableEvent>, tolerance: real,
      lossIncrease: real): seq<Difference> {
    if baseline == [] then []
    else LocalEntry(baseline[0], current, tolerance, lossIncrease)
         + LocalEntries(baseline[1..], current, tolerance, lossIncrease)
  }

  lemma {:induction false} LocalEntriesConcat(a: seq<ComparableEvent>, b: seq<ComparableEvent>,
      current: seq<ComparableEvent>, tolerance: real, lossIncrease: real)
    ensures LocalEntries(a + b, current, tolerance, lossIncrease)
         == LocalEntries(a, current, tolerance, lossIncrease) + LocalEntries(b, current, tolerance, lossIncrease)
  {
    if a == [] {
      assert a + b == b;
    } else {
      assert (a + b)[1..] == a[1..] + b;
      LocalEntriesConcat(a[1..], b, current, tolerance, lossIncrease);
    }
  }

  lemma LocalEntriesRemoveAt(b: seq<ComparableEvent>, j: nat, current: seq<ComparableEvent>, tolerance: real,
      lossIncrease: real)
    requires j < |b|
    ensures multiset(LocalEntries(b, current, tolerance, lossIncrease))
         == multiset(LocalEntry(b[j], current, tolerance, lossIncrease))
            + multiset(LocalEntries(b[..j] + b[j + 1..], current, tolerance, lossIncrease))
  {
    var before, after := b[..j], b[j..];
    assert b == before + after;
    assert after[1..] == b[j + 1..];
    LocalEntriesConcat(before, after, current, tolerance, lossIncrease);
    LocalEntriesConcat(before, b[j + 1..], current, tolerance, lossIncrease);
  }

  lemma {:induction false} LocalEntriesPermutation(a: seq<ComparableEvent>, b: seq<ComparableEvent>,
      current: seq<ComparableEvent>, tolerance: real, lossIncrease: real)
    requires multiset(a) == multiset(b)
    ensures multiset(LocalEntries(a, current, tolerance, lossIncrease))
         == multiset(LocalEntries(b, current, tolerance, lossIncrease))
    decreases |a|
  {
    if a == [] {
      assert |multiset(b)| == 0;
    } else {
      var j := PermutationHead(a, b);
      LocalEntriesPermutation(a[1..], b[..j] + b[j + 1..], current, tolerance, lossIncrease);
      LocalEntriesRemoveAt(b, j, current, tolerance, lossIncrease);
    }
  }

  lemma {:induction false} LocalBaseEntries(baseline: seq<ComparableEvent>, current: seq<ComparableEvent>,
      matches: seq<int>, tolerance: real, lossIncrease: real)
    requires |matches| == |baseline|
    requires forall i :: 0 <= i < |matches| ==> -1 <= matches[i] < |current|
    requires forall i :: 0 <= i < |baseline| ==> matches[i] == Nearest(baseline[i], current, {}, tolerance)
    ensures BaseEntries(baseline, current, matches, lossIncrease)
         == LocalEntries(baseline, current, tolerance, lossIncrease)
  {
    if baseline == [] {
    } else {
      var k := |baseline| - 1;
      LocalBaseEntries(baseline[..k], current, matches[..k], tolerance, lossIncrease);
      assert baseline == baseline[..k] + [baseline[k]];
      LocalEntriesConcat(baseline[..k], [baseline[k]], current, tolerance, lossIncrease);
      assert [baseline[k]][1..] == [];
    }
  }

  /** The candidates taken when no candidate is contested. */
  lemma DistinctUsed(baseline: seq<ComparableEvent>, current: seq<ComparableEvent>, tolerance: real, c: int)
    requires NearestDistinct(baseline, current, tolerance)
    ensures c in Used(Match(baseline, current, tolerance))
       <==> c >= 0 && exists b :: b in multiset(baseline) && Nearest(b, current, {}, tolerance) == c
  {
    var m := Match(baseline, current, tolerance);
    AllNearestExactly(baseline, current, tolerance);
    if c in Used(m) {
      var i :| 0 <= i < |m| && m[i] >= 0 && m[i] == c;
      assert baseline[i] in multiset(baseline);
    }
    if c >= 0 && exists b :: b in multiset(baseline) && Nearest(b, current, {}, tolerance) == c {
      var b :| b in multiset(baseline) && Nearest(b, current, {}, tolerance) == c;
      var i :| 0 <= i < |baseline| && baseline[i] == b;
      assert m[i] == c;
    }
  }

  lemma TwoOccurrences(s: seq<ComparableEvent>, i: nat, j: nat)
    requires i < j < |s| && s[i] == s[j]
    ensures multiset(s)[s[i]] >= 2
  {
    assert s == s[..j] + [s[j]] + s[j + 1..];
    assert s[..j][i] in multiset(s[..j]);
  }

  lemma {:induction false} TwoIndices(s: seq<ComparableEvent>, x: ComparableEvent) returns (i: nat, j: nat)
    requires multiset(s)[x] >= 2
    ensures i < j < |s| && s[i] == x == s[j]
  {
    assert s == [s[0]] + s[1..];
    if s[0] == x {
      assert multiset(s[1..])[x] >= 1;
      i := 0;
      var k :| 0 <= k < |s[1..]| && s[1..][k] == x;
      j := k + 1;
    } else {
      i, j := TwoIndices(s[1..], x);
      i, j := i + 1, j + 1;
    }
  }

  /** Whether two events compete for a candidate does not depend on their order. */
  lemma DistinctPermutation(a: seq<ComparableEvent>, b: seq<ComparableEvent>, current: seq<ComparableEvent>,
      tolerance: real)
    requires multiset(a) == multiset(b) && NearestDistinct(a, current, tolerance)
    ensures NearestDistinct(b, current, tolerance)
  {
    forall i, j | 0 <= i < j < |b| && Nearest(b[i], current, {}, tolerance) >= 0
      ensures Nearest(b[i], current, {}, tolerance) != Nearest(b[j], current, {}, tolerance)
    {
      if b[i] == b[j] {
        TwoOccurrences(b, i, j);
        var p, q := TwoIndices(a, b[i]);
      } else {
        assert b[i] in multiset(b) && b[j] in multiset(b);
        var p :| 0 <= p < |a| && a[p] == b[i];
        var q :| 0 <= q < |a| && a[q] == b[j];
      }
    }
  }

  lemma DistinctCollected(baseline: seq<ComparableEvent>, current: seq<ComparableEvent>, tolerance: real,
      lossIncrease: real)
    requires NearestDistinct(baseline, current, tolerance)
    ensures Collected(baseline, current, tolerance, lossIncrease)
         == LocalEntries(baseline, current, tolerance, lossIncrease)
            + NewEntries(current, Used(Match(baseline, current, tolerance)), |current|)
  {
    AllNearestExactly(baseline, current, tolerance);
    LocalBaseEntries(baseline, current, Match(baseline, current, tolerance), tolerance, lossIncrease);
  }

  lemma DistinctUsedSame(a: seq<ComparableEvent>, b: seq<ComparableEvent>, current: seq<ComparableEvent>,
      tolerance: real)
    requires multiset(a) == multiset(b)
    requires NearestDistinct(a, current, tolerance) && NearestDistinct(b, current, tolerance)
    ensures Used(Match(a, current, tolerance)) == Used(Match(b, current, tolerance))
  {
    forall c
      ensures c in Used(Match(a, current, tolerance)) <==> c in Used(Match(b, current, tolerance))
    {
      DistinctUsed(a, current, tolerance, c);
      DistinctUsed(b, current, tolerance, c);
    }
  }

  /** If no two events compete, the differences, as a multiset, do not depend on the order of the baseline. */
  lemma DistinctOrderIndependent(a: seq<ComparableEvent>, b: seq<ComparableEvent>, current: seq<ComparableEvent>,
      tolerance: real, lossIncrease: real)
    requires multiset(a) == multiset(b) && NearestDistinct(a, current, tolerance)
    ensures multiset(Collected(a, current, tolerance, lossIncrease))
         == multiset(Collected(b, current, tolerance, lossIncrease))
  {
    DistinctPermutation(a, b, current, tolerance);
    DistinctCollected(a, current, tolerance, lossIncrease);
    DistinctCollected(b, current, tolerance, lossIncrease);
    LocalEntriesPermutation(a, b, current, tolerance, lossIncrease);
    DistinctUsedSame(a, b, current, tolerance);
  }

  /** In particular if the baseline events are spread out. */
  lemma SpreadOrderIndependent(a: seq<ComparableEvent>, b: seq<ComparableEvent>, current: seq<ComparableEvent>,
      tolerance: real, lossIncrease: real, fromA: seq<Difference>, fromB: seq<Difference>)
    requires multiset(a) == multiset(b) && SpreadOut(a, tolerance)
    requires IsComparison(a, current, tolerance, lossIncrease, fromA)
    requires IsComparison(b, current, tolerance, lossIncrease, fromB)
    ensures multiset(fromA) == multiset(fromB)
  {
    SpreadDistinct(a, current, tolerance);
    DistinctOrderIndependent(a, b, current, tolerance, lossIncrease);
  }

  lemma OneForTwoMatch(b: ComparableEvent, x: ComparableEvent, y: ComparableEvent, tolerance: real)
    requires tolerance >= 0.0 && b.distanceM == x.distanceM == y.distanceM
    ensures Match([b], [x, y], tolerance) == [0]
  {
    assert NearestUpTo(b, [x, y], {}, tolerance, 0) == -1;
    assert NearestUpTo(b, [x, y], {}, tolerance, 1) == 0;
    assert Nearest(b, [x, y], {}, tolerance) == 0;
    assert MatchUpTo([b], [x, y], tolerance, 0) == [] && Used([]) == {};
  }

  /** One baseline event and two candidates at its place: the second candidate is reported as new. */
  lemma OneForTwo(b: ComparableEvent, x: ComparableEvent, y: ComparableEvent, tolerance: real, lossIncrease: real)
    requires tolerance >= 0.0 && lossIncrease > 0.0
    requires b.distanceM == x.distanceM == y.distanceM && b.insertionLossDB == x.insertionLossDB
    ensures Collected([b], [x, y], tolerance, lossIncrease) == [NewEntry(y)]
  {
    OneForTwoMatch(b, x, y, tolerance);
    var m := [0];
    assert Used(m) == {0} by { assert m[0] in Used(m); }
    assert [b][..0] == [] && m[..0] == [];
    assert BaseEntries([b], [x, y], m, lossIncrease) == [];
    NoNewEntries([x, y], Used(m), 1);
    assert NewEntries([x, y], Used(m), 2) == [NewEntry(y)];
  }

  lemma SingletonsDiffer(d: Difference, e: Difference)
    requires d != e
    ensures multiset([d]) != multiset([e])
  {
    assert d in multiset([d]) && d !in multiset([e]);
  }

  // ---- Comparing a trace with itself ----

  lemma {:induction false} SelfNearest(events: seq<ComparableEvent>, used: set<int>, tolerance: real, k: nat, n: nat)
    requires k < |events| && n <= |events| && tolerance >= 0.0
    requires forall i :: 0 <= i < |events| ==> (i in used <==> i < k)
    ensures NearestUpTo(events[k], events, used, tolerance, n) == if n <= k then -1 else k
  {
    if n == 0 {
    } else {
      SelfNearest(events, used, tolerance, k, n - 1);
    }
  }

  /** Every event is matched with itself, repeated distances included. */
  lemma {:induction false} SelfMatch(events: seq<ComparableEvent>, tolerance: real, k: nat)
    requires k <= |events| && tolerance >= 0.0
    ensures MatchUpTo(events, events, tolerance, k) == seq(k, i => i)
  {
    if k == 0 {
    } else {
      SelfMatch(events, tolerance, k - 1);
      var m := MatchUpTo(events, events, tolerance, k - 1);
      forall i | 0 <= i < |events|
        ensures i in Used(m) <==> i < k - 1
      {
        if i < k - 1 { assert m[i] == i; }
      }
      SelfNearest(events, Used(m), tolerance, k - 1, |events|);
    }
  }

  lemma {:induction false} SelfEntries(events: seq<ComparableEvent>, matches: seq<int>, current: seq<ComparableEvent>,
      lossIncrease: real)
    requires lossIncrease > 0.0 && |matches| == |events| <= |current|
    requires forall i :: 0 <= i < |events| ==> matches[i] == i && events[i] == current[i]
    ensures BaseEntries(events, current, matches, lossIncrease) == []
  {
    if events == [] {
    } else {
      var k := |events| - 1;
      SelfEntries(events[..k], matches[..k], current, lossIncrease);
    }
  }

  lemma {:induction false} NoNewEntries(current: seq<ComparableEvent>, used: set<int>, n: nat)
    requires n <= |current| && forall i :: 0 <= i < n ==> i in used
    ensures NewEntries(current, used, n) == []
  {
    if n == 0 {
    } else {
      NoNewEntries(current, used, n - 1);
    }
  }

  /** Comparing a list of events with itself reports nothing. */
  lemma SelfComparisonEmpty(events: seq<ComparableEvent>, tolerance: real, lossIncrease: real, ds: seq<Difference>)
    requires tolerance > 0.0 && lossIncrease > 0.0
    requires IsComparison(events, events, tolerance, lossIncrease, ds)
    ensures ds == []
  {
    SelfMatch(events, tolerance, |events|);
    var m := Match(events, events, tolerance);
    SelfEntries(events, m, events, lossIncrease);
    forall i | 0 <= i < |events|
      ensures i in Used(m)
    {
      assert m[i] == i;
    }
    NoNewEntries(events, Used(m), |events|);
    assert |multiset(ds)| == 0;
  }
}
