/** The truncated-window median filter of `denoise.go`. */
module Denoise {
  import opened Wrappers
  import opened Counting
  import opened Sorting

  const MAX_WINDOW: int := 31

  // ---- Specification ----

  /** The middle of a sorted bucket; an even bucket averages its two middle samples. */
  function Middle(t: seq<real>): real
    requires |t| > 0
  {
    var middle := |t| / 2;
    if |t| % 2 == 0 then (t[middle - 1] + t[middle]) / 2.0 else t[middle]
  }

  function Median(s: seq<real>): real
    requires |s| > 0
  {
    Middle(Sorted(s))
  }

  /** Even windows are widened by one, so the bucket is centred. */
  function HalfWidth(window: int): int
    requires window >= 1
  {
    (if window % 2 == 0 then window + 1 else window) / 2
  }

  function BucketStart(i: int, half: int): int {
    if i - half < 0 then 0 else i - half
  }

  function BucketEnd(i: int, half: int, n: int): int {
    if i + half + 1 > n then n else i + half + 1
  }

  /** The samples the filter looks at for position `i`, truncated at both ends of the trace. */
  function Bucket(points: seq<real>, half: int, i: int): (b: seq<real>)
    requires 0 <= i < |points| && half >= 0
    ensures |b| >= 1
  {
    points[BucketStart(i, half)..BucketEnd(i, half, |points|)]
  }

  function FilteredAt(points: seq<real>, half: int, i: int): real
    requires 0 <= i < |points| && half >= 0
  {
    Median(Bucket(points, half, i))
  }

  function Filtered(points: seq<real>, window: int): (r: seq<real>)
    requires window >= 1
    ensures |r| == |points|
  {
    seq(|points|, i requires 0 <= i < |points| => FilteredAt(points, HalfWidth(window), i))
  }

  function MovingMedianResult(points: seq<real>, window: int): Result<seq<real>> {
    if |points| < 3 then Err(TooFewSamples)
    else if window < 1 || window > MAX_WINDOW then Err(BadWindow)
    else Ok(Filtered(points, window))
  }

  // ---- Implementation ----

  /** The sort-and-take-the-middle step, which the filter and the noise estimate both perform. */
  method MedianInPlace(bucket: array<real>) returns (m: real)
    requires bucket.Length > 0
    modifies bucket
    ensures m == old(Median(bucket[..]))
  {
    ghost var samples := bucket[..];
    SortFloats(bucket);
    SortedUnique(samples, bucket[..]);
    var middle := bucket.Length / 2;
    if bucket.Length % 2 == 0 {
      m := (bucket[middle - 1] + bucket[middle]) / 2.0;
    } else {
      m := bucket[middle];
    }
  }

  /** One turn of the loop: copy the truncated window, sort the copy, take its middle. */
  method WindowMedian(points: seq<real>, half: int, i: int) returns (m: real)
    requires 0 <= i < |points| && half >= 0
    ensures m == FilteredAt(points, half, i)
  {
    var start, end := i - half, i + half + 1;
    if start < 0 { start := 0; }
    if end > |points| { end := |points|; }
    var bucket := CopyOf(points[start..end]);
    assert bucket[..] == Bucket(points, half, i);
    m := MedianInPlace(bucket);
  }

  method MovingMedian(points: seq<real>, window: int) returns (r: Result<seq<real>>)
    ensures r == MovingMedianResult(points, window)
    ensures r.Ok? <==> |points| >= 3 && 1 <= window <= 31
    ensures r.Ok? ==> r.value == Filtered(points, window)
    ensures r.Err? ==> r.error == if |points| < 3 then TooFewSamples else BadWindow
  {
    if |points| < 3 { return Err(TooFewSamples); }
    if window < 1 || window > MAX_WINDOW { return Err(BadWindow); }
    var width := window;
    if width % 2 == 0 { width := width + 1; }
    var half := width / 2;
    assert half == HalfWidth(window);
    var filtered := FilterLoop(points, half);
    FilteredWhole(filtered[..], points, window);
    r := Ok(filtered[..]);
  }

  predicate FilteredUpTo(filtered: seq<real>, points: seq<real>, half: int, n: int)
    requires |filtered| == |points| && half >= 0 && 0 <= n <= |points|
  {
    forall k :: 0 <= k < n ==> filtered[k] == FilteredAt(points, half, k)
  }

  lemma FilteredWhole(filtered: seq<real>, points: seq<real>, window: int)
    requires |filtered| == |points| && window >= 1
    requires FilteredUpTo(filtered, points, HalfWidth(window), |points|)
    ensures filtered == Filtered(points, window)
  {
  }

  method FilterLoop(points: seq<real>, half: int) returns (filtered: array<real>)
    requires half >= 0
    ensures fresh(filtered) && filtered.Length == |points| && FilteredUpTo(filtered[..], points, half, |points|)
  {
    filtered := new real[|points|];
    for i := 0 to |points|
      invariant FilteredUpTo(filtered[..], points, half, i)
    {
      var m := WindowMedian(points, half, i);
      filtered[i] := m;
    }
  }

  method CopyOf(s: seq<real>) returns (a: array<real>)
    ensures fresh(a) && a[..] == s
  {
    a := new real[|s|](k requires 0 <= k < |s| => s[k]);
  }

  // ---- Breakdown point ----

  function Outside(lo: real, hi: real): real -> bool {
    v => v < lo || hi < v
  }

  lemma {:induction false} OutsideSplit(s: seq<real>, lo: real, hi: real)
    requires lo <= hi
    ensures Count(s, Outside(lo, hi)) == Count(s, Below(lo)) + |s| - Count(s, AtMost(hi))
  {
    if s == [] {
    } else {
      OutsideSplit(s[1..], lo, hi);
    }
  }

  /** What a median is: the average of the two middle samples, which coincide if the number of samples is odd. */
  lemma {:induction false} MedianExactly(s: seq<real>) returns (a: real, b: real)
    requires |s| > 0
    ensures Median(s) == (a + b) / 2.0
    ensures Count(s, Below(a)) <= (|s| - 1) / 2 < Count(s, AtMost(a))
    ensures Count(s, Below(b)) <= |s| / 2 < Count(s, AtMost(b))
  {
    var low, high := (|s| - 1) / 2, |s| / 2;
    a, b := Sorted(s)[low], Sorted(s)[high];
    MiddleAverages(Sorted(s), low, high);
    RankOf(s, low);
    RankOf(s, high);
  }

  lemma {:induction false} MiddleAverages(t: seq<real>, low: nat, high: nat)
    requires |t| > 0 && low == (|t| - 1) / 2 && high == |t| / 2
    ensures low <= high < |t| && Middle(t) == (t[low] + t[high]) / 2.0
  {
  }

  lemma RankOf(s: seq<real>, k: nat)
    requires k < |s|
    ensures Count(s, Below(Sorted(s)[k])) <= k < Count(s, AtMost(Sorted(s)[k]))
  {
    var t := Sorted(s);
    CountPermutation(s, t, Below(t[k]));
    CountPermutation(s, t, AtMost(t[k]));
    OrderStatistic(t, k, t[k]);
  }

  /** Fewer than half the samples outside an interval cannot move the median out of it. */
  lemma {:induction false} MedianRobust(s: seq<real>, lo: real, hi: real)
    requires |s| > 0 && lo <= hi
    requires 2 * Count(s, Outside(lo, hi)) < |s|
    ensures lo <= Median(s) <= hi
  {
    OutsideSplit(s, lo, hi);
    CountBound(s, AtMost(hi));
    SortedWithin(s, |s| / 2, lo, hi);
    if |s| % 2 == 0 {
      SortedWithin(s, |s| / 2 - 1, lo, hi);
    }
  }

  lemma SortedWithin(s: seq<real>, k: nat, lo: real, hi: real)
    requires k < |s|
    requires Count(s, Below(lo)) <= k < Count(s, AtMost(hi))
    ensures lo <= Sorted(s)[k] <= hi
  {
    var t := Sorted(s);
    CountPermutation(s, t, Below(lo));
    CountPermutation(s, t, AtMost(hi));
    OrderStatistic(t, k, hi);
    OrderStatistic(t, k, lo);
  }

  /**
   The breakdown bound is sharp: half of the samples at or above any level `spike` already drag the
   median half way to it, however high the level.
   */
  lemma {:induction false} MedianBreaksDownAtHalf(s: seq<real>, lo: real, spike: real)
    requires |s| > 0 && lo <= spike
    requires Count(s, Below(lo)) == 0
    requires 2 * Count(s, Below(spike)) <= |s|
    ensures Median(s) >= (lo + spike) / 2.0
  {
    AtLeast(s, |s| / 2, spike);
    AtLeast(s, |s| / 2, lo);
    if |s| % 2 == 0 { AtLeast(s, |s| / 2 - 1, lo); }
  }

  lemma AtLeast(s: seq<real>, k: nat, x: real)
    requires k < |s| && Count(s, Below(x)) <= k
    ensures Sorted(s)[k] >= x
  {
    CountPermutation(s, Sorted(s), Below(x));
    OrderStatistic(Sorted(s), k, x);
  }

  lemma {:induction false} MedianMonotone(p: seq<real>, q: seq<real>)
    requires |p| == |q| > 0
    requires forall i :: 0 <= i < |p| ==> p[i] <= q[i]
    ensures Median(p) <= Median(q)
  {
    SortedMonotone(p, q, |p| / 2);
    if |p| % 2 == 0 {
      SortedMonotone(p, q, |p| / 2 - 1);
    }
  }

  /** The median depends only on which samples are in the bucket. */
  lemma MedianPermutation(p: seq<real>, q: seq<real>)
    requires multiset(p) == multiset(q) && |p| > 0
    ensures |q| == |p| && Median(p) == Median(q)
  {
    assert |multiset(p)| == |multiset(q)|;
    SortedUnique(p, Sorted(q));
  }

  lemma MiddleShift(t: seq<real>, c: real)
    requires |t| > 0
    ensures Middle(Shift(t, c)) == Middle(t) + c
  {
  }

  lemma {:induction false} MedianShift(s: seq<real>, c: real)
    requires |s| > 0
    ensures Median(Shift(s, c)) == Median(s) + c
  {
    SortedShift(s, c);
    MiddleShift(Sorted(s), c);
  }

  /** Samples inside `[lo, hi]` have a median inside `[lo, hi]`. */
  lemma MedianWithin(s: seq<real>, lo: real, hi: real)
    requires |s| > 0
    requires forall i :: 0 <= i < |s| ==> lo <= s[i] <= hi
    ensures lo <= Median(s) <= hi
  {
    assert lo <= s[0] <= hi;
    CountNone(s, Outside(lo, hi));
    MedianRobust(s, lo, hi);
  }

  // ---- The filter ----

  /** At how many positions no further than `half` from position `i`, as far as the trace reaches, `p` holds. */
  function CountNear(points: seq<real>, half: int, i: int, p: real -> bool): nat {
    |set j | 0 <= j < |points| && i - half <= j <= i + half && p(points[j])|
  }

  /** Those are the positions of the bucket. */
  lemma {:induction false} NearBucket(points: seq<real>, half: int, i: int, p: real -> bool)
    requires half >= 0 && 0 <= i < |points|
    ensures CountNear(points, half, i, p) == Count(Bucket(points, half, i), p)
  {
    var start, end := BucketStart(i, half), BucketEnd(i, half, |points|);
    CountPositions(points, start, end, p);
    var near := set j | 0 <= j < |points| && i - half <= j <= i + half && p(points[j]);
    assert near == PositionsOf(points, start, end, p);
  }

  function Any(): real -> bool {
    v => true
  }

  lemma {:induction false} NearSize(points: seq<real>, half: int, i: int)
    requires half >= 0 && 0 <= i < |points|
    ensures CountNear(points, half, i, Any()) == |Bucket(points, half, i)|
  {
    NearBucket(points, half, i, Any());
    CountAll(Bucket(points, half, i), Any());
  }

  lemma HalfOf(window: int, half: int)
    requires window >= 1 && (window == 2 * half || window == 2 * half + 1)
    ensures half >= 0 && HalfWidth(window) == half
  {
  }

  /**
   Which samples are looked at, and what becomes of them.  Of the samples no further than half a window from
   position `i`, as far as the trace reaches, `a` and `b` are the two in the middle, or twice the one in the
   middle; the filter yields their average.
   */
  lemma {:induction false} FilteredExactly(points: seq<real>, window: int, half: int, i: int)
    returns (a: real, b: real)
    requires window >= 1 && (window == 2 * half || window == 2 * half + 1) && 0 <= i < |points|
    ensures Filtered(points, window)[i] == (a + b) / 2.0
    ensures var n := CountNear(points, half, i, Any());
            && CountNear(points, half, i, Below(a)) <= (n - 1) / 2 < CountNear(points, half, i, AtMost(a))
            && CountNear(points, half, i, Below(b)) <= n / 2 < CountNear(points, half, i, AtMost(b))
  {
    HalfOf(window, half);
    a, b := MedianExactly(Bucket(points, half, i));
    NearSize(points, half, i);
    NearBucket(points, half, i, Below(a));
    NearBucket(points, half, i, AtMost(a));
    NearBucket(points, half, i, Below(b));
    NearBucket(points, half, i, AtMost(b));
  }

  /**
   Breakdown at every position, truncated edges and even buckets included: outliers at fewer than half of the
   positions no further than half a window away cannot move the filtered sample out of `[lo, hi]`.
   */
  lemma {:induction false} FilterRobust(points: seq<real>, window: int, half: int, i: int, lo: real, hi: real)
    requires window >= 1 && (window == 2 * half || window == 2 * half + 1) && 0 <= i < |points| && lo <= hi
    requires 2 * CountNear(points, half, i, Outside(lo, hi)) < CountNear(points, half, i, Any())
    ensures lo <= Filtered(points, window)[i] <= hi
  {
    HalfOf(window, half);
    NearBucket(points, half, i, Outside(lo, hi));
    NearSize(points, half, i);
    MedianRobust(Bucket(points, half, i), lo, hi);
  }

  /** Samples further away than half a window do not matter. */
  lemma {:induction false} FilterLocal(p: seq<real>, q: seq<real>, window: int, half: int, i: int)
    requires window >= 1 && (window == 2 * half || window == 2 * half + 1) && |p| == |q| && 0 <= i < |p|
    requires forall j :: 0 <= j < |p| && i - half <= j <= i + half ==> p[j] == q[j]
    ensures Filtered(p, window)[i] == Filtered(q, window)[i]
  {
    HalfOf(window, half);
    assert Bucket(p, half, i) == Bucket(q, half, i);
  }

  /** The one trace seen from its other end. */
  predicate Mirrored(p: seq<real>, q: seq<real>) {
    |p| == |q| && forall i, k :: 0 <= i < |q| && 0 <= k < |p| && i + k == |p| - 1 ==> q[i] == p[k]
  }

  lemma {:induction false} MirroredPermutes(p: seq<real>, q: seq<real>)
    requires Mirrored(p, q)
    ensures multiset(p) == multiset(q)
    decreases |p|
  {
    if p == [] {
    } else {
      var n := |p| - 1;
      assert Mirrored(p[1..], q[..n]);
      MirroredPermutes(p[1..], q[..n]);
      assert p == [p[0]] + p[1..] && q == q[..n] + [q[n]];
    }
  }

  lemma {:induction false} BucketMirrored(p: seq<real>, q: seq<real>, half: int, i: int, k: int)
    requires Mirrored(p, q) && half >= 0 && 0 <= i < |q| && 0 <= k < |p| && i + k == |p| - 1
    ensures Mirrored(Bucket(p, half, k), Bucket(q, half, i))
  {
    assert BucketStart(i, half) + BucketEnd(k, half, |p|) == |p|;
    assert BucketStart(k, half) + BucketEnd(i, half, |p|) == |p|;
  }

  lemma {:induction false} FilteredAtMirrored(p: seq<real>, q: seq<real>, half: int, i: int, k: int)
    requires Mirrored(p, q) && half >= 0 && 0 <= i < |q| && 0 <= k < |p| && i + k == |p| - 1
    ensures FilteredAt(p, half, k) == FilteredAt(q, half, i)
  {
    BucketMirrored(p, q, half, i, k);
    MirroredPermutes(Bucket(p, half, k), Bucket(q, half, i));
    MedianPermutation(Bucket(p, half, k), Bucket(q, half, i));
  }

  /** The window is centred, also where the ends of the trace cut it: both directions filter alike. */
  lemma {:induction false} FilterMirrored(p: seq<real>, q: seq<real>, window: int)
    requires window >= 1 && Mirrored(p, q)
    ensures Mirrored(Filtered(p, window), Filtered(q, window))
  {
    forall i, k | 0 <= i < |q| && 0 <= k < |p| && i + k == |p| - 1
      ensures Filtered(q, window)[i] == Filtered(p, window)[k]
    {
      FilteredAtMirrored(p, q, HalfWidth(window), i, k);
    }
  }

  lemma FilterMonotone(p: seq<real>, q: seq<real>, window: int)
    requires window >= 1 && |p| == |q|
    requires forall i :: 0 <= i < |p| ==> p[i] <= q[i]
    ensures forall i :: 0 <= i < |p| ==> Filtered(p, window)[i] <= Filtered(q, window)[i]
  {
    forall i | 0 <= i < |p|
      ensures Filtered(p, window)[i] <= Filtered(q, window)[i]
    {
      MedianMonotone(Bucket(p, HalfWidth(window), i), Bucket(q, HalfWidth(window), i));
    }
  }

  lemma FilterWithin(points: seq<real>, window: int, lo: real, hi: real)
    requires window >= 1
    requires forall i :: 0 <= i < |points| ==> lo <= points[i] <= hi
    ensures forall i :: 0 <= i < |points| ==> lo <= Filtered(points, window)[i] <= hi
  {
    forall i | 0 <= i < |points|
      ensures lo <= Filtered(points, window)[i] <= hi
    {
      MedianWithin(Bucket(points, HalfWidth(window), i), lo, hi);
    }
  }

  lemma SingleMedian(x: real)
    ensures Median([x]) == x
  {
    MedianWithin([x], x, x);
  }

  lemma FilteredAtHalfZero(points: seq<real>, i: int)
    requires 0 <= i < |points|
    ensures FilteredAt(points, 0, i) == points[i]
  {
    assert Bucket(points, 0, i) == [points[i]];
    SingleMedian(points[i]);
  }

  lemma FilterWindowOneAt(points: seq<real>, i: int)
    requires 0 <= i < |points|
    ensures Filtered(points, 1)[i] == points[i]
  {
    FilteredAtHalfZero(points, i);
  }

  lemma {:induction false} FilterWindowOne(points: seq<real>)
    ensures Filtered(points, 1) == points
  {
    var f := Filtered(points, 1);
    forall i | 0 <= i < |points|
      ensures f[i] == points[i]
    {
      FilterWindowOneAt(points, i);
    }
  }

  /** An even window is the next odd one. */
  lemma EvenWindowWidened(points: seq<real>, window: int)
    requires 1 <= window < MAX_WINDOW && window % 2 == 0
    ensures Filtered(points, window) == Filtered(points, window + 1)
    ensures MovingMedianResult(points, window) == MovingMedianResult(points, window + 1)
  {
    assert HalfWidth(window) == HalfWidth(window + 1);
  }

  lemma FilteredAtShift(points: seq<real>, half: int, i: int, c: real)
    requires half >= 0 && 0 <= i < |points|
    ensures FilteredAt(Shift(points, c), half, i) == FilteredAt(points, half, i) + c
  {
    assert Bucket(Shift(points, c), half, i) == Shift(Bucket(points, half, i), c);
    MedianShift(Bucket(points, half, i), c);
  }

  /** Raising every sample by `c` raises every filtered sample by `c`. */
  lemma FilterShift(points: seq<real>, window: int, c: real)
    requires window >= 1
    ensures Filtered(Shift(points, c), window) == Shift(Filtered(points, window), c)
  {
    var f, g := Filtered(Shift(points, c), window), Shift(Filtered(points, window), c);
    forall i | 0 <= i < |points|
      ensures f[i] == g[i]
    {
      FilteredAtShift(points, HalfWidth(window), i, c);
    }
  }

  /** Monotone steps survive: a non-decreasing trace stays non-decreasing under the filter. */
  lemma FilterKeepsOrder(points: seq<real>, window: int)
    requires window >= 1 && Ordered(points)
    ensures Ordered(Filtered(points, window))
  {
    forall i, j | 0 <= i < j < |points|
      ensures Filtered(points, window)[i] <= Filtered(points, window)[j]
    {
      OrderedMedians(points, window, i, j);
    }
  }

  lemma OrderedMedians(points: seq<real>, window: int, i: int, j: int)
    requires window >= 1 && Ordered(points) && 0 <= i < j < |points|
    ensures Filtered(points, window)[i] <= Filtered(points, window)[j]
  {
    var half, n := HalfWidth(window), |points|;
    var a, b := OrderedMedian(points, BucketStart(i, half), BucketEnd(i, half, n));
    var c, d := OrderedMedian(points, BucketStart(j, half), BucketEnd(j, half, n));
    assert BucketStart(i, half) <= BucketStart(j, half) && BucketEnd(i, half, n) <= BucketEnd(j, half, n);
    AverageOrdered(points, a, b, c, d);
  }

  lemma AverageOrdered(points: seq<real>, a: int, b: int, c: int, d: int)
    requires Ordered(points) && 0 <= a <= b < |points| && 0 <= c <= d < |points|
    requires b <= a + 1 && d <= c + 1 && a + b <= c + d
    ensures (points[a] + points[b]) / 2.0 <= (points[c] + points[d]) / 2.0
  {
  }

  /** In an ordered trace the median of a stretch averages the two samples `lo` and `hi` around its centre. */
  lemma OrderedMedian(points: seq<real>, start: int, end: int) returns (lo: int, hi: int)
    requires Ordered(points) && 0 <= start < end <= |points|
    ensures start <= lo <= hi < end
    ensures lo + hi == start + end - 1 && hi <= lo + 1
    ensures Median(points[start..end]) == (points[lo] + points[hi]) / 2.0
  {
    var b := points[start..end];
    var h := |b| / 2;
    var l := |b| - 1 - h;
    hi := start + h;
    lo := start + l;
    assert b[h] == points[hi] && b[l] == points[lo];
    MedianOfOrdered(b, l, h);
  }

  lemma MedianOfOrdered(b: seq<real>, l: nat, h: nat)
    requires Ordered(b) && l + h == |b| - 1 && l <= h <= l + 1
    ensures Median(b) == (b[l] + b[h]) / 2.0
  {
    SortedAt(b, b, h);
    SortedAt(b, b, l);
    var t := Sorted(b);
    assert |b| % 2 == 0 ==> l == |b| / 2 - 1 && h == |b| / 2;
    assert |b| % 2 != 0 ==> l == |b| / 2 == h;
  }
}
