/** Counting the elements of a sequence that satisfy a predicate, and mapping a function over it. */
module Counting {

  function Count<T>(s: seq<T>, p: T -> bool): nat {
    if s == [] then 0 else (if p(s[0]) then 1 else 0) + Count(s[1..], p)
  }

  lemma {:induction false} CountConcat<T>(a: seq<T>, b: seq<T>, p: T -> bool)
    ensures Count(a + b, p) == Count(a, p) + Count(b, p)
  {
    if a == [] {
      assert a + b == b;
    } else {
      assert (a + b)[1..] == a[1..] + b;
      CountConcat(a[1..], b, p);
    }
  }

  lemma {:induction false} CountLast<T>(s: seq<T>, x: T, p: T -> bool)
    ensures Count(s + [x], p) == Count(s, p) + (if p(x) then 1 else 0)
  {
    CountConcat(s, [x], p);
  }

  lemma {:induction false} CountBound<T>(s: seq<T>, p: T -> bool)
    ensures Count(s, p) <= |s|
  {
    if s == [] {
    } else {
      CountBound(s[1..], p);
    }
  }

  lemma {:induction false} CountAll<T>(s: seq<T>, p: T -> bool)
    requires forall i :: 0 <= i < |s| ==> p(s[i])
    ensures Count(s, p) == |s|
  {
    if s == [] {
    } else {
      CountAll(s[1..], p);
    }
  }

  lemma {:induction false} CountNone<T>(s: seq<T>, p: T -> bool)
    requires forall i :: 0 <= i < |s| ==> !p(s[i])
    ensures Count(s, p) == 0
  {
    if s == [] {
    } else {
      CountNone(s[1..], p);
    }
  }

  lemma {:induction false} CountImplies<T>(s: seq<T>, p: T -> bool, q: T -> bool)
    requires forall i :: 0 <= i < |s| && p(s[i]) ==> q(s[i])
    ensures Count(s, p) <= Count(s, q)
  {
    if s == [] {
    } else {
      CountImplies(s[1..], p, q);
    }
  }

  /** The positions from `start` up to `end` at which `p` holds. */
  function PositionsOf<T>(s: seq<T>, start: int, end: int, p: T -> bool): set<int>
    requires 0 <= start <= end <= |s|
  {
    set j | start <= j < end && p(s[j])
  }

  /** They are as many as the elements for which it holds. */
  lemma {:induction false} CountPositions<T>(s: seq<T>, start: int, end: int, p: T -> bool)
    requires 0 <= start <= end <= |s|
    ensures |PositionsOf(s, start, end, p)| == Count(s[start..end], p)
    decreases end - start
  {
    if start < end {
      var last := end - 1;
      CountPositions(s, start, last, p);
      assert s[start..end] == s[start..last] + [s[last]];
      CountLast(s[start..last], s[last], p);
      var before := PositionsOf(s, start, last, p);
      assert PositionsOf(s, start, end, p) == if p(s[last]) then before + {last} else before;
    } else {
      assert PositionsOf(s, start, end, p) == {};
    }
  }

  /** Removing one occurrence of `x` removes exactly one element. */
  lemma RemoveAt<T>(s: seq<T>, j: nat)
    requires j < |s|
    ensures s == s[..j] + [s[j]] + s[j + 1..]
    ensures multiset(s) == multiset(s[..j] + s[j + 1..]) + multiset{s[j]}
  {
    assert s == s[..j] + [s[j]] + s[j + 1..];
  }

  lemma {:induction false} CountRemoveAt<T>(s: seq<T>, j: nat, p: T -> bool)
    requires j < |s|
    ensures Count(s, p) == Count(s[..j] + s[j + 1..], p) + (if p(s[j]) then 1 else 0)
  {
    var before, x, after := s[..j], s[j], s[j + 1..];
    assert s == (before + [x]) + after;
    CountConcat(before, after, p);
    CountConcat(before + [x], after, p);
    CountLast(before, x, p);
  }

  /** An element of the permuted sequence can be removed from both. */
  lemma PermutationHead<T>(a: seq<T>, b: seq<T>) returns (j: nat)
    requires a != [] && multiset(a) == multiset(b)
    ensures j < |b| && b[j] == a[0]
    ensures multiset(a[1..]) == multiset(b[..j] + b[j + 1..])
  {
    assert a[0] in multiset(b);
    j :| 0 <= j < |b| && b[j] == a[0];
    RemoveAt(b, j);
    assert a == [a[0]] + a[1..];
    assert multiset(a[1..]) == multiset(a) - multiset{a[0]};
  }

  /** Counts do not depend on the order of the elements. */
  lemma {:induction false} CountPermutation<T>(a: seq<T>, b: seq<T>, p: T -> bool)
    requires multiset(a) == multiset(b)
    ensures Count(a, p) == Count(b, p)
    decreases |a|
  {
    if a == [] {
      assert |multiset(b)| == 0;
    } else {
      var j := PermutationHead(a, b);
      CountPermutation(a[1..], b[..j] + b[j + 1..], p);
      CountRemoveAt(b, j, p);
    }
  }

  function Mapped<A, B>(s: seq<A>, f: A -> B): (r: seq<B>)
    ensures |r| == |s|
  {
    if s == [] then [] else [f(s[0])] + Mapped(s[1..], f)
  }

  lemma {:induction false} MappedConcat<A, B>(a: seq<A>, b: seq<A>, f: A -> B)
    ensures Mapped(a + b, f) == Mapped(a, f) + Mapped(b, f)
  {
    if a == [] {
      assert a + b == b;
    } else {
      assert (a + b)[1..] == a[1..] + b;
      MappedConcat(a[1..], b, f);
    }
  }

  lemma {:induction false} MappedAt<A, B>(s: seq<A>, f: A -> B, i: nat)
    requires i < |s|
    ensures Mapped(s, f)[i] == f(s[i])
  {
    if i == 0 {
    } else {
      MappedAt(s[1..], f, i - 1);
    }
  }

  lemma {:induction false} MappedRemoveAt<A, B>(s: seq<A>, j: nat, f: A -> B)
    requires j < |s|
    ensures multiset(Mapped(s, f)) == multiset(Mapped(s[..j] + s[j + 1..], f)) + multiset{f(s[j])}
  {
    var before, after := s[..j], s[j..];
    assert s == before + after && after[1..] == s[j + 1..];
    MappedConcat(before, after, f);
    MappedConcat(before, s[j + 1..], f);
  }

  /** Rearranging a sequence rearranges its image. */
  lemma {:induction false} MappedPermutation<A, B>(a: seq<A>, b: seq<A>, f: A -> B)
    requires multiset(a) == multiset(b)
    ensures multiset(Mapped(a, f)) == multiset(Mapped(b, f))
    decreases |a|
  {
    if a == [] {
      assert |multiset(b)| == 0;
    } else {
      var j := PermutationHead(a, b);
      MappedPermutation(a[1..], b[..j] + b[j + 1..], f);
      MappedRemoveAt(b, j, f);
    }
  }
}
