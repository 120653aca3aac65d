/**
 Order statistics.  `sort.Float64s` is the library sort: only its contract, an ordered permutation,
 is used, and for real numbers that contract has exactly one solution.
 */
module Sorting {
  import opened Counting

  predicate Ordered(s: seq<real>) {
    forall i, j :: 0 <= i < j < |s| ==> s[i] <= s[j]
  }

  function Insert(x: real, s: seq<real>): (r: seq<real>)
    ensures |r| == |s| + 1
    ensures r[0] == x || (s != [] && r[0] == s[0])
    ensures Ordered(s) ==> Ordered(r)
  {
    if s == [] || x <= s[0] then
      [x] + s
    else
      var rest := Insert(x, s[1..]);
      [s[0]] + rest
  }

  lemma {:induction false} InsertPermutation(x: real, s: seq<real>)
    ensures multiset(Insert(x, s)) == multiset(s) + multiset{x}
  {
    if s == [] || x <= s[0] {
    } else {
      assert s == [s[0]] + s[1..];
      InsertPermutation(x, s[1..]);
    }
  }

  function Sorted(s: seq<real>): (r: seq<real>)
    ensures Ordered(r)
    ensures multiset(r) == multiset(s)
    ensures |r| == |s|
  {
    if s == [] then [] else
      assert s == [s[0]] + s[1..];
      InsertPermutation(s[0], Sorted(s[1..]));
      Insert(s[0], Sorted(s[1..]))
  }

  function AtMost(x: real): real -> bool {
    v => v <= x
  }

  function Below(x: real): real -> bool {
    v => v < x
  }

  /** Position `k` of an ordered sequence is at most `x` exactly when more than `k` elements are. */
  lemma {:induction false} OrderStatistic(s: seq<real>, k: nat, x: real)
    requires Ordered(s) && k < |s|
    ensures s[k] <= x <==> Count(s, AtMost(x)) > k
    ensures s[k] < x <==> Count(s, Below(x)) > k
  {
    if k > 0 {
      OrderStatistic(s[1..], k - 1, x);
    } else {
      if s[0] > x { CountNone(s, AtMost(x)); }
      if s[0] >= x { CountNone(s, Below(x)); }
    }
  }

  /** An ordered permutation of real numbers is unique, so sorting is a function of the multiset. */
  lemma SortedAt(s: seq<real>, t: seq<real>, k: nat)
    requires Ordered(t) && multiset(t) == multiset(s) && k < |t|
    ensures k < |s| && t[k] == Sorted(s)[k]
  {
    var u := Sorted(s);
    assert |multiset(t)| == |multiset(u)|;
    CountPermutation(t, u, AtMost(u[k]));
    OrderStatistic(u, k, u[k]);
    OrderStatistic(t, k, u[k]);
    CountPermutation(t, u, AtMost(t[k]));
    OrderStatistic(u, k, t[k]);
    OrderStatistic(t, k, t[k]);
  }

  lemma SortedUnique(s: seq<real>, t: seq<real>)
    requires Ordered(t) && multiset(t) == multiset(s)
    ensures t == Sorted(s)
  {
    assert |multiset(t)| == |multiset(Sorted(s))|;
    forall k | 0 <= k < |t|
      ensures t[k] == Sorted(s)[k]
    {
      SortedAt(s, t, k);
    }
  }

  lemma {:induction false} CountPointwise(p: seq<real>, q: seq<real>, x: real)
    requires |p| == |q|
    requires forall i :: 0 <= i < |p| ==> p[i] <= q[i]
    ensures Count(p, AtMost(x)) >= Count(q, AtMost(x))
  {
    if p == [] {
    } else {
      CountPointwise(p[1..], q[1..], x);
    }
  }

  /** Sorting is monotone position by position. */
  lemma SortedMonotone(p: seq<real>, q: seq<real>, k: nat)
    requires |p| == |q| && k < |p|
    requires forall i :: 0 <= i < |p| ==> p[i] <= q[i]
    ensures Sorted(p)[k] <= Sorted(q)[k]
  {
    var x := Sorted(q)[k];
    CountPermutation(p, Sorted(p), AtMost(x));
    CountPermutation(q, Sorted(q), AtMost(x));
    CountPointwise(p, q, x);
    OrderStatistic(Sorted(q), k, x);
    OrderStatistic(Sorted(p), k, x);
  }

  /** Every sample raised by `c`. */
  function Shift(s: seq<real>, c: real): (r: seq<real>)
    ensures |r| == |s|
  {
    seq(|s|, i requires 0 <= i < |s| => s[i] + c)
  }

  lemma {:induction false} ShiftMultiplicity(s: seq<real>, c: real, v: real)
    ensures multiset(Shift(s, c))[v] == multiset(s)[v - c]
  {
    if s == [] {
    } else {
      assert s == [s[0]] + s[1..];
      assert Shift(s, c) == [s[0] + c] + Shift(s[1..], c);
      ShiftMultiplicity(s[1..], c, v);
    }
  }

  lemma SortedShift(s: seq<real>, c: real)
    ensures Sorted(Shift(s, c)) == Shift(Sorted(s), c)
  {
    var t := Shift(Sorted(s), c);
    forall v
      ensures multiset(t)[v] == multiset(Shift(s, c))[v]
    {
      ShiftMultiplicity(s, c, v);
      ShiftMultiplicity(Sorted(s), c, v);
    }
    SortedUnique(Shift(s, c), t);
  }

  method Swap(a: array<real>, j: nat)
    requires 0 < j < a.Length
    modifies a
    ensures a[..] == old(a[..][j := a[j - 1]][j - 1 := a[j]])
    ensures multiset(a[..]) == old(multiset(a[..]))
  {
    a[j], a[j - 1] := a[j - 1], a[j];
  }

  predicate OrderedExcept(s: seq<real>, n: int, j: int)
    requires 0 <= n < |s|
  {
    forall i, k :: 0 <= i < k <= n && k != j ==> s[i] <= s[k]
  }

  lemma SwapKeepsOrder(s: seq<real>, n: int, j: int)
    requires 0 < j <= n < |s| && OrderedExcept(s, n, j) && s[j] < s[j - 1]
    ensures OrderedExcept(s[j := s[j - 1]][j - 1 := s[j]], n, j - 1)
  {
  }

  /** Moves `a[n]` down to its place among the ordered elements before it. */
  method SiftDown(a: array<real>, n: int)
    requires 0 <= n < a.Length
    requires Ordered(a[..n])
    modifies a
    ensures Ordered(a[..n + 1])
    ensures multiset(a[..]) == old(multiset(a[..]))
  {
    var j := n;
    assert forall i :: 0 <= i < n ==> a[..n][i] == a[i];
    while j > 0 && a[j] < a[j - 1]
      invariant 0 <= j <= n
      invariant OrderedExcept(a[..], n, j)
      invariant multiset(a[..]) == old(multiset(a[..]))
    {
      SwapKeepsOrder(a[..], n, j);
      Swap(a, j);
      j := j - 1;
    }
    SiftedIsOrdered(a[..], n, j);
  }

  lemma SiftedIsOrdered(s: seq<real>, n: int, j: int)
    requires 0 <= j <= n < |s| && OrderedExcept(s, n, j) && (j > 0 ==> s[j - 1] <= s[j])
    ensures Ordered(s[..n + 1])
  {
  }

  /** `sort.Float64s`, in place. */
  method SortFloats(a: array<real>)
    modifies a
    ensures Ordered(a[..])
    ensures multiset(a[..]) == old(multiset(a[..]))
  {
    for n := 0 to a.Length
      invariant Ordered(a[..n])
      invariant multiset(a[..]) == old(multiset(a[..]))
    {
      SiftDown(a, n);
    }
    assert a[..a.Length] == a[..];
  }
}
