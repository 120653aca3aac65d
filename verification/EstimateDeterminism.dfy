/**
 The differences are sorted by an unstable sort, so equal (distance, kind) pairs may come out in any
 order.  The estimate drawn from them does not depend on it.
 */
module EstimateDeterminism {
  import opened Wrappers
  import opened Counting
  import opened Comparison

  /** Equal in what the sort compares. */
  predicate Tied(a: Difference, b: Difference) {
    a.distanceM == b.distanceM && a.kind == b.kind
  }

  /** Equal in what the choice and the estimate look at. */
  predicate SameChoice(a: Option<Difference>, b: Option<Difference>) {
    match (a, b)
    case (None, None) => true
    case (Some(x), Some(y)) => Tied(x, y) && x.confidence == y.confidence
    case _ => false
  }

  lemma SameChoiceTransitive(a: Option<Difference>, b: Option<Difference>, c: Option<Difference>)
    requires SameChoice(a, b) && SameChoice(c, b)
    ensures SameChoice(a, c)
  {
  }

  function Choose(best: Option<Difference>, d: Difference): Option<Difference> {
    if best.None? || Replaces(d, best.value) then Some(d) else best
  }

  /** The fold of `PrimaryDifference`, from the left. */
  function Chosen(best: Option<Difference>, ds: seq<Difference>): Option<Difference>
    decreases |ds|
  {
    if ds == [] then best else Chosen(Choose(best, ds[0]), ds[1..])
  }

  lemma {:induction false} ChosenLast(best: Option<Difference>, ds: seq<Difference>)
    requires ds != []
    ensures Chosen(best, ds) == Choose(Chosen(best, ds[..|ds| - 1]), ds[|ds| - 1])
    decreases |ds|
  {
    if |ds| == 1 {
    } else {
      ChosenLast(Choose(best, ds[0]), ds[1..]);
      assert ds[1..][..|ds| - 2] == ds[..|ds| - 1][1..];
    }
  }

  lemma {:induction false} ChosenIsPrimary(ds: seq<Difference>, n: nat)
    requires 1 <= n <= |ds|
    ensures Chosen(None, ds[..n]) == Some(PrimaryUpTo(ds, n))
    decreases n
  {
    ChosenLast(None, ds[..n]);
    assert ds[..n][..n - 1] == ds[..n - 1];
    if n > 1 { ChosenIsPrimary(ds, n - 1); }
  }

  lemma {:induction false} ChosenCongruent(a: Option<Difference>, b: Option<Difference>, ds: seq<Difference>)
    requires SameChoice(a, b)
    ensures SameChoice(Chosen(a, ds), Chosen(b, ds))
    decreases |ds|
  {
    if ds == [] {
    } else {
      ChosenCongruent(Choose(a, ds[0]), Choose(b, ds[0]), ds[1..]);
    }
  }

  /** Two tied differences may be looked at in either order. */
  lemma TiesCommute(best: Option<Difference>, x: Difference, y: Difference)
    requires Tied(x, y)
    ensures SameChoice(Choose(Choose(best, x), y), Choose(Choose(best, y), x))
  {
  }

  /** A difference may be looked at before the tied ones that precede it. */
  lemma {:induction false} TiedMovesUp(best: Option<Difference>, before: seq<Difference>, x: Difference,
      after: seq<Difference>)
    requires forall i :: 0 <= i < |before| ==> Tied(before[i], x)
    ensures SameChoice(Chosen(best, before + ([x] + after)), Chosen(Choose(best, x), before + after))
    decreases |before|
  {
    if before == [] {
      assert before + ([x] + after) == [x] + after && before + after == after;
      assert ([x] + after)[1..] == after;
      ChosenCongruent(Choose(best, x), Choose(best, x), after);
    } else {
      var y, rest := before[0], before[1..];
      assert (before + ([x] + after))[1..] == rest + ([x] + after);
      assert (before + after)[1..] == rest + after;
      TiedMovesUp(Choose(best, y), rest, x, after);
      TiesCommute(best, y, x);
      ChosenCongruent(Choose(Choose(best, y), x), Choose(Choose(best, x), y), rest + after);
    }
  }

  lemma RestOrdered(b: seq<Difference>, j: nat)
    requires OrderedDifferences(b) && j < |b|
    ensures OrderedDifferences(b[..j] + b[j + 1..])
  {
    var c := b[..j] + b[j + 1..];
    forall i, k | 0 <= i < k < |c|
      ensures Precedes(c[i], c[k])
    {
      assert c[i] == b[if i < j then i else i + 1] && c[k] == b[if k < j then k else k + 1];
    }
  }

  /** Where the head of one ordered arrangement sits in another: behind tied differences only. */
  lemma HeadAmongTies(a: seq<Difference>, b: seq<Difference>) returns (j: nat)
    requires a != [] && multiset(a) == multiset(b) && OrderedDifferences(a) && OrderedDifferences(b)
    ensures j < |b| && b[j] == a[0]
    ensures multiset(a[1..]) == multiset(b[..j] + b[j + 1..])
    ensures OrderedDifferences(a[1..]) && OrderedDifferences(b[..j] + b[j + 1..])
    ensures forall i :: 0 <= i <= j ==> Tied(b[i], a[0])
  {
    j := PermutationHead(a, b);
    RestOrdered(b, j);
    forall i | 0 <= i < j
      ensures Tied(b[i], a[0])
    {
      assert b[i] in multiset(b);
      var m :| 0 <= m < |a| && a[m] == b[i];
      assert m > 0 ==> Precedes(a[0], a[m]);
      assert Precedes(b[i], b[j]);
    }
  }

  lemma {:induction false} ChosenDeterministic(best: Option<Difference>, a: seq<Difference>, b: seq<Difference>)
    requires multiset(a) == multiset(b) && OrderedDifferences(a) && OrderedDifferences(b)
    ensures SameChoice(Chosen(best, a), Chosen(best, b))
    decreases |a|
  {
    if a == [] {
      assert |multiset(b)| == 0;
      ChosenCongruent(best, best, []);
    } else {
      var j := HeadAmongTies(a, b);
      var before, after := b[..j], b[j + 1..];
      assert b == before + ([a[0]] + after);
      TiedMovesUp(best, before, a[0], after);
      var next := Choose(best, a[0]);
      ChosenDeterministic(next, a[1..], before + after);
      assert Chosen(best, a) == Chosen(next, a[1..]);
      SameChoiceTransitive(Chosen(best, a), Chosen(next, before + after), Chosen(best, b));
    }
  }

  /** One report has one estimate, however its ties are arranged. */
  lemma EstimateOfReport(a: seq<Difference>, b: seq<Difference>)
    requires multiset(a) == multiset(b) && OrderedDifferences(a) && OrderedDifferences(b)
    ensures PrimaryOf(a) == PrimaryOf(b)
  {
    assert |multiset(a)| == |multiset(b)|;
    if a != [] {
      ChosenDeterministic(None, a, b);
      ChosenIsPrimary(a, |a|);
      ChosenIsPrimary(b, |b|);
      assert a[..|a|] == a && b[..|b|] == b;
    }
  }

  /**
   Whatever the sort does with ties, a comparison yields one estimate: all its possible outputs have the
   same primary distance and uncertainty.
   */
  lemma EstimateDeterministic(baseline: seq<ComparableEvent>, current: seq<ComparableEvent>, tolerance: real,
      lossIncrease: real, a: seq<Difference>, b: seq<Difference>)
    requires IsComparison(baseline, current, tolerance, lossIncrease, a)
    requires IsComparison(baseline, current, tolerance, lossIncrease, b)
    ensures PrimaryOf(a) == PrimaryOf(b)
  {
    EstimateOfReport(a, b);
  }

  /** All possible outputs show the same distance and kind at every position. */
  lemma {:induction false} OutputsTied(a: seq<Difference>, b: seq<Difference>, k: nat)
    requires multiset(a) == multiset(b) && OrderedDifferences(a) && OrderedDifferences(b) && k < |a|
    ensures k < |b| && Tied(a[k], b[k])
    decreases |a|
  {
    assert |multiset(a)| == |multiset(b)|;
    var j := HeadAmongTies(a, b);
    if k > 0 { OutputsTied(a[1..], b[..j] + b[j + 1..], k - 1); }
  }
}
