/** Noise estimation, derivative peaks, peak merging and event detection (`detect.go`). */
module Detection {
  import opened Wrappers
  import opened Numbers
  import opened Counting
  import opened Sorting
  import opened Denoise
  import opened Distance

  datatype Peak = Peak(index: int, magnitude: real, direction: real)

  datatype EventType = Connector | Splice | Bend | Break | End | Unknown

  datatype DetectedEvent = DetectedEvent(
    index: int,
    distanceM: real,
    eventType: EventType,
    insertionLossDB: real,
    reflectanceDB: real,
    confidence: real)

  /** The accepted events, in trace order, and how many merged peaks lay outside the route. */
  datatype Detected = Detected(events: seq<DetectedEvent>, rejected: nat)

  const MIN_NOISE_SAMPLES: int := 16

  // ---- Noise floor ----

  /** The last fifth of the trace. */
  function Tail(points: seq<real>): (t: seq<real>)
    requires |points| > 0
    ensures |t| > 0
  {
    points[|points| * 4 / 5..]
  }

  function NoiseFloorResult(points: seq<real>): Result<real> {
    if |points| < MIN_NOISE_SAMPLES then Err(TooFewForNoise) else Ok(Median(Tail(points)))
  }

  method EstimateNoiseFloor(points: seq<real>) returns (r: Result<real>)
    ensures r == NoiseFloorResult(points)
    ensures r.Ok? <==> |points| >= 16
  {
    if |points| < MIN_NOISE_SAMPLES { return Err(TooFewForNoise); }
    var start := |points| * 4 / 5;
    var tail := CopyOf(points[start..]);
    var m := MedianInPlace(tail);
    r := Ok(m);
  }

  /** The tail is the last fifth of the trace, from position 4n/5 on. */
  lemma {:induction false} TailPositions(points: seq<real>, p: real -> bool)
    requires |points| > 0
    ensures |PositionsOf(points, |points| * 4 / 5, |points|, p)| == Count(Tail(points), p)
  {
    CountPositions(points, |points| * 4 / 5, |points|, p);
    assert points[|points| * 4 / 5..|points|] == Tail(points);
  }

  /**
   The noise floor averages the two middle samples of the last fifth of the trace, which coincide if their
   number is odd.
   */
  lemma {:induction false} NoiseFloorExactly(points: seq<real>) returns (a: real, b: real)
    requires |points| >= 16
    ensures NoiseFloorResult(points) == Ok((a + b) / 2.0)
    ensures var start, n := |points| * 4 / 5, |points| - |points| * 4 / 5;
            && |PositionsOf(points, start, |points|, Below(a))| <= (n - 1) / 2
                 < |PositionsOf(points, start, |points|, AtMost(a))|
            && |PositionsOf(points, start, |points|, Below(b))| <= n / 2
                 < |PositionsOf(points, start, |points|, AtMost(b))|
  {
    a, b := MedianExactly(Tail(points));
    TailPositions(points, Below(a));
    TailPositions(points, AtMost(a));
    TailPositions(points, Below(b));
    TailPositions(points, AtMost(b));
  }

  /** Outliers at fewer than half of those positions cannot move the noise floor out of `[lo, hi]`. */
  lemma {:induction false} NoiseFloorRobust(points: seq<real>, lo: real, hi: real)
    requires |points| >= 16 && lo <= hi
    requires 2 * |PositionsOf(points, |points| * 4 / 5, |points|, Outside(lo, hi))| < |points| - |points| * 4 / 5
    ensures NoiseFloorResult(points).Ok? && lo <= NoiseFloorResult(points).value <= hi
  {
    TailPositions(points, Outside(lo, hi));
    MedianRobust(Tail(points), lo, hi);
  }

  lemma NoiseFloorWithin(points: seq<real>, lo: real, hi: real)
    requires |points| >= MIN_NOISE_SAMPLES
    requires forall i :: 0 <= i < |points| ==> lo <= points[i] <= hi
    ensures NoiseFloorResult(points).Ok? && lo <= NoiseFloorResult(points).value <= hi
  {
    MedianWithin(Tail(points), lo, hi);
  }

  // ---- Derivative peaks ----

  function Delta(points: seq<real>, i: int): real
    requires 1 <= i < |points|
  {
    points[i] - points[i - 1]
  }

  function PeakAt(points: seq<real>, i: int): Peak
    requires 1 <= i < |points|
  {
    var delta := Delta(points, i);
    Peak(i, Abs(delta), if delta < 0.0 then -1.0 else 1.0)
  }

  function PeaksUpTo(points: seq<real>, threshold: real, n: nat): seq<Peak>
    requires n <= |points|
  {
    if n <= 1 then []
    else
      PeaksUpTo(points, threshold, n - 1)
      + (if Abs(Delta(points, n - 1)) >= threshold then [PeakAt(points, n - 1)] else [])
  }

  function Peaks(points: seq<real>, threshold: real): seq<Peak> {
    PeaksUpTo(points, threshold, |points|)
  }

  /** `p` describes the step between two neighbouring samples that differ by the threshold or more. */
  predicate IsPeak(p: Peak, points: seq<real>, threshold: real) {
    && 1 <= p.index < |points|
    && var step := points[p.index] - points[p.index - 1];
       && (step >= threshold || step <= -threshold)
       && p.magnitude == (if step < 0.0 then -step else step)
       && p.direction == (if step < 0.0 then -1.0 else 1.0)
  }

  method DerivativePeaks(points: seq<real>, threshold: real) returns (r: Result<seq<Peak>>)
    ensures r.Ok? <==> |points| >= 3 && threshold > 0.0
    ensures r.Ok? ==> forall p :: p in r.value <==> IsPeak(p, points, threshold)
    ensures r == if |points| < 3 then Err(TooFewSamples)
                 else if threshold <= 0.0 then Err(BadThreshold)
                 else Ok(Peaks(points, threshold))
  {
    if |points| < 3 { return Err(TooFewSamples); }
    if threshold <= 0.0 { return Err(BadThreshold); }
    var peaks: seq<Peak> := [];
    for i := 1 to |points|
      invariant peaks == PeaksUpTo(points, threshold, i)
    {
      var delta := points[i] - points[i - 1];
      if Abs(delta) >= threshold {
        peaks := peaks + [Peak(i, Abs(delta), if delta < 0.0 then -1.0 else 1.0)];
      }
    }
    PeaksExact(points, threshold);
    r := Ok(peaks);
  }

  predicate Increasing(peaks: seq<Peak>) {
    forall i, j :: 0 <= i < j < |peaks| ==> peaks[i].index < peaks[j].index
  }

  /** Peaks of the first `n` samples, each describing the step at its own index. */
  predicate Faithful(peaks: seq<Peak>, points: seq<real>, threshold: real, n: nat)
    requires n <= |points|
  {
    forall k :: 0 <= k < |peaks| ==>
      1 <= peaks[k].index < n && peaks[k] == PeakAt(points, peaks[k].index) && peaks[k].magnitude >= threshold
  }

  /** A single peak describes the step at its own index. */
  lemma {:induction false} PeakFaithful(points: seq<real>, threshold: real, n: nat, i: nat)
    requires n <= |points| && i < |PeaksUpTo(points, threshold, n)|
    ensures var p := PeaksUpTo(points, threshold, n)[i];
            1 <= p.index < n && p == PeakAt(points, p.index) && p.magnitude >= threshold
  {
    if n <= 1 {
    } else {
      var before := PeaksUpTo(points, threshold, n - 1);
      if i < |before| {
        PeakFaithful(points, threshold, n - 1, i);
        assert PeaksUpTo(points, threshold, n)[i] == before[i];
      }
    }
  }

  lemma {:induction false} PeaksOrdered(points: seq<real>, threshold: real, n: nat, i: nat, j: nat)
    requires n <= |points| && i < j < |PeaksUpTo(points, threshold, n)|
    ensures PeaksUpTo(points, threshold, n)[i].index < PeaksUpTo(points, threshold, n)[j].index
  {
    if n <= 1 {
    } else {
      var before := PeaksUpTo(points, threshold, n - 1);
      if j < |before| {
        PeaksOrdered(points, threshold, n - 1, i, j);
        assert PeaksUpTo(points, threshold, n)[j] == before[j];
      } else {
        PeakFaithful(points, threshold, n - 1, i);
      }
      assert PeaksUpTo(points, threshold, n)[i] == before[i];
    }
  }

  lemma {:induction false} PeaksUpToSound(points: seq<real>, threshold: real, n: nat)
    requires n <= |points|
    ensures Increasing(PeaksUpTo(points, threshold, n))
    ensures Faithful(PeaksUpTo(points, threshold, n), points, threshold, n)
  {
    var peaks := PeaksUpTo(points, threshold, n);
    forall i, j | 0 <= i < j < |peaks| ensures peaks[i].index < peaks[j].index {
      PeaksOrdered(points, threshold, n, i, j);
    }
    forall k | 0 <= k < |peaks|
      ensures 1 <= peaks[k].index < n && peaks[k] == PeakAt(points, peaks[k].index) && peaks[k].magnitude >= threshold
    {
      PeakFaithful(points, threshold, n, k);
    }
  }

  lemma {:induction false} PeaksUpToComplete(points: seq<real>, threshold: real, n: nat, i: nat)
    requires 1 <= i < n <= |points| && Abs(Delta(points, i)) >= threshold
    ensures PeakAt(points, i) in PeaksUpTo(points, threshold, n)
  {
    if i == n - 1 {
    } else {
      PeaksUpToComplete(points, threshold, n - 1, i);
    }
  }

  /** The peaks are exactly the positions whose first difference reaches the threshold, in trace order. */
  lemma PeaksExact(points: seq<real>, threshold: real)
    ensures Increasing(Peaks(points, threshold))
    ensures forall p :: p in Peaks(points, threshold) <==> IsPeak(p, points, threshold)
  {
    PeaksUpToSound(points, threshold, |points|);
    forall p | p in Peaks(points, threshold)
      ensures IsPeak(p, points, threshold)
    {
      var k :| 0 <= k < |Peaks(points, threshold)| && Peaks(points, threshold)[k] == p;
    }
    forall p | IsPeak(p, points, threshold)
      ensures p in Peaks(points, threshold)
    {
      PeaksUpToComplete(points, threshold, |points|, p.index);
      assert p == PeakAt(points, p.index);
    }
  }

  // ---- Merging ----

  function MergeFrom(current: Peak, rest: seq<Peak>, window: int): (r: seq<Peak>)
    ensures |r| > 0
    decreases |rest|
  {
    if rest == [] then [current]
    else if rest[0].index - current.index <= window then
      MergeFrom(if rest[0].magnitude > current.magnitude then rest[0] else current, rest[1..], window)
    else [current] + MergeFrom(rest[0], rest[1..], window)
  }

  function Merged(peaks: seq<Peak>, window: int): seq<Peak> {
    if peaks == [] then [] else MergeFrom(peaks[0], peaks[1..], window)
  }

  method MergePeaks(peaks: seq<Peak>, window: int) returns (r: Result<seq<Peak>>)
    ensures r == if window < 1 then Err(BadMergeWindow) else Ok(Merged(peaks, window))
  {
    if window < 1 { return Err(BadMergeWindow); }
    if |peaks| == 0 { return Ok([]); }
    var merged: seq<Peak> := [];
    var current := peaks[0];
    ghost var expected := Merged(peaks, window);
    for i := 1 to |peaks|
      invariant expected == merged + MergeFrom(current, peaks[i..], window)
    {
      var peak := peaks[i];
      MergeFromStep(current, peaks, i, window);
      if peak.index - current.index <= window {
        if peak.magnitude > current.magnitude {
          current := peak;
        }
      } else {
        merged := merged + [current];
        current := peak;
      }
    }
    r := Ok(merged + [current]);
  }

  lemma MergeFromStep(current: Peak, peaks: seq<Peak>, i: nat, window: int)
    requires i < |peaks|
    ensures MergeFrom(current, peaks[i..], window)
         == if peaks[i].index - current.index <= window
            then MergeFrom(if peaks[i].magnitude > current.magnitude then peaks[i] else current, peaks[i + 1..], window)
            else [current] + MergeFrom(peaks[i], peaks[i + 1..], window)
  {
    assert peaks[i..][1..] == peaks[i + 1..];
  }

  /** The strongest peak of a group, the earliest of equals. */
  function Strongest(group: seq<Peak>): Peak
    requires |group| > 0
  {
    if |group| == 1 then group[0]
    else
      var best, last := Strongest(group[..|group| - 1]), group[|group| - 1];
      if last.magnitude > best.magnitude then last else best
  }

  predicate IsFirstMaximum(p: Peak, group: seq<Peak>) {
    exists k :: 0 <= k < |group| && group[k] == p
      && (forall j :: 0 <= j < |group| ==> group[j].magnitude <= p.magnitude)
      && (forall j :: 0 <= j < k ==> group[j].magnitude < p.magnitude)
  }

  lemma {:induction false} StrongestIsFirstMaximum(group: seq<Peak>)
    requires |group| > 0
    ensures IsFirstMaximum(Strongest(group), group)
  {
    if |group| > 1 {
      var init := group[..|group| - 1];
      StrongestIsFirstMaximum(init);
      var k :| 0 <= k < |init| && init[k] == Strongest(init)
        && (forall j :: 0 <= j < |init| ==> init[j].magnitude <= Strongest(init).magnitude)
        && (forall j :: 0 <= j < k ==> init[j].magnitude < Strongest(init).magnitude);
      assert forall j :: 0 <= j < |init| ==> group[j] == init[j];
      if group[|group| - 1].magnitude > Strongest(init).magnitude {
        assert group[|group| - 1] == Strongest(group);
      } else {
        assert group[k] == Strongest(group);
      }
    } else {
      assert group[0] == Strongest(group);
    }
  }

  function Flatten(groups: seq<seq<Peak>>): seq<Peak> {
    if groups == [] then [] else groups[0] + Flatten(groups[1..])
  }

  /** Each later member of a group lies within the window of the strongest member before it. */
  predicate Cohesive(group: seq<Peak>, window: int) {
    |group| > 0 && forall j :: 1 <= j < |group| ==> group[j].index - Strongest(group[..j]).index <= window
  }

  /**
   The reference description of merging: `groups` cuts `peaks` into contiguous cohesive groups, each
   group starts more than `window` beyond the strongest peak of the group before it, and `merged`
   holds the strongest peak of every group.
   */
  predicate Grouping(peaks: seq<Peak>, window: int, groups: seq<seq<Peak>>, merged: seq<Peak>) {
    && Flatten(groups) == peaks
    && |groups| == |merged|
    && GroupsCohesive(groups, window, merged)
    && GroupsApart(groups, window, merged)
  }

  predicate GroupsCohesive(groups: seq<seq<Peak>>, window: int, merged: seq<Peak>)
    requires |groups| == |merged|
  {
    forall g :: 0 <= g < |groups| ==> Cohesive(groups[g], window) && merged[g] == Strongest(groups[g])
  }

  predicate GroupsApart(groups: seq<seq<Peak>>, window: int, merged: seq<Peak>)
    requires |groups| == |merged| && GroupsCohesive(groups, window, merged)
  {
    forall g :: 0 < g < |groups| ==> groups[g][0].index - merged[g - 1].index > window
  }

  lemma CohesiveExtends(group: seq<Peak>, p: Peak, window: int)
    requires Cohesive(group, window) && p.index - Strongest(group).index <= window
    ensures Cohesive(group + [p], window)
    ensures Strongest(group + [p]) == if p.magnitude > Strongest(group).magnitude then p else Strongest(group)
  {
    var wider := group + [p];
    assert wider[..|group|] == group;
    forall j | 1 <= j < |group|
      ensures wider[j].index - Strongest(wider[..j]).index <= window
    {
      assert wider[..j] == group[..j];
    }
  }

  lemma {:induction false} CohesivePrepend(group: seq<Peak>, window: int, later: seq<seq<Peak>>, merged: seq<Peak>)
    requires Cohesive(group, window) && |later| == |merged| && GroupsCohesive(later, window, merged)
    ensures GroupsCohesive([group] + later, window, [Strongest(group)] + merged)
  {
    var groups: seq<seq<Peak>>, all: seq<Peak> := [group] + later, [Strongest(group)] + merged;
    forall g | 0 <= g < |groups|
      ensures Cohesive(groups[g], window) && all[g] == Strongest(groups[g])
    {
      if g > 0 { assert groups[g] == later[g - 1] && all[g] == merged[g - 1]; }
    }
  }

  lemma {:induction false} ApartPrepend(group: seq<Peak>, window: int, later: seq<seq<Peak>>, merged: seq<Peak>)
    requires Cohesive(group, window) && |later| == |merged| && GroupsCohesive(later, window, merged)
    requires GroupsApart(later, window, merged)
    requires later != [] ==> later[0][0].index - Strongest(group).index > window
    ensures GroupsCohesive([group] + later, window, [Strongest(group)] + merged)
    ensures GroupsApart([group] + later, window, [Strongest(group)] + merged)
  {
    CohesivePrepend(group, window, later, merged);
    var groups: seq<seq<Peak>>, all: seq<Peak> := [group] + later, [Strongest(group)] + merged;
    forall g | 0 < g < |groups|
      ensures groups[g][0].index - all[g - 1].index > window
    {
      assert groups[g] == later[g - 1];
      if g > 1 { assert all[g - 1] == merged[g - 2]; }
    }
  }

  lemma {:induction false} GroupingPrepend(group: seq<Peak>, rest: seq<Peak>, window: int, later: seq<seq<Peak>>,
      merged: seq<Peak>)
    requires Cohesive(group, window) && Grouping(rest, window, later, merged)
    requires later != [] && later[0][0].index - Strongest(group).index > window
    ensures Grouping(group + rest, window, [group] + later, [Strongest(group)] + merged)
  {
    var groups := [group] + later;
    assert groups[1..] == later;
    ApartPrepend(group, window, later, merged);
  }

  lemma {:induction false} MergeFromGroups(group: seq<Peak>, rest: seq<Peak>, window: int)
    returns (groups: seq<seq<Peak>>)
    requires Cohesive(group, window)
    ensures Grouping(group + rest, window, groups, MergeFrom(Strongest(group), rest, window))
    ensures groups != [] && groups[0][0] == group[0]
    decreases |rest|
  {
    var current := Strongest(group);
    if rest == [] {
      groups := [group];
      assert Flatten(groups) == group + Flatten([]) == group + rest;
    } else {
      assert rest == [rest[0]] + rest[1..];
      if rest[0].index - current.index <= window {
        CohesiveExtends(group, rest[0], window);
        assert (group + [rest[0]]) + rest[1..] == group + rest;
        groups := MergeFromGroups(group + [rest[0]], rest[1..], window);
      } else {
        var later := MergeFromGroups([rest[0]], rest[1..], window);
        GroupingPrepend(group, rest, window, later, MergeFrom(rest[0], rest[1..], window));
        groups := [group] + later;
      }
    }
  }

  /** Merging meets its reference description on every input. */
  lemma MergedGroups(peaks: seq<Peak>, window: int) returns (groups: seq<seq<Peak>>)
    requires window >= 1
    ensures Grouping(peaks, window, groups, Merged(peaks, window))
    ensures forall g :: 0 <= g < |groups| ==> IsFirstMaximum(Merged(peaks, window)[g], groups[g])
  {
    if peaks == [] {
      groups := [];
    } else {
      assert peaks == [peaks[0]] + peaks[1..];
      groups := MergeFromGroups([peaks[0]], peaks[1..], window);
      forall g | 0 <= g < |groups|
        ensures IsFirstMaximum(Merged(peaks, window)[g], groups[g])
      {
        StrongestIsFirstMaximum(groups[g]);
      }
    }
  }

  /** A description of the peaks starts with its first group and describes the rest. */
  lemma GroupingSplits(peaks: seq<Peak>, window: int, groups: seq<seq<Peak>>,
      merged: seq<Peak>) returns (rest: seq<Peak>)
    requires Grouping(peaks, window, groups, merged) && groups != []
    ensures peaks == groups[0] + rest && peaks[0] == groups[0][0] && peaks[1..] == groups[0][1..] + rest
    ensures Grouping(rest, window, groups[1..], merged[1..])
    ensures if |groups| == 1 then rest == []
            else rest != [] && rest[0] == groups[1][0] && rest[0].index - merged[0].index > window
  {
    rest := Flatten(groups[1..]);
    if |groups| > 1 {
      assert rest == groups[1] + Flatten(groups[1..][1..]);
    }
  }

  /** The reference description has one solution, so it determines the merged peaks. */
  lemma {:induction false} GroupingUnique(peaks: seq<Peak>, window: int, groups: seq<seq<Peak>>, merged: seq<Peak>)
    requires Grouping(peaks, window, groups, merged)
    ensures merged == Merged(peaks, window)
    decreases |groups|
  {
    if groups == [] {
    } else {
      var rest := GroupingSplits(peaks, window, groups, merged);
      GroupingUnique(rest, window, groups[1..], merged[1..]);
      MergeThroughGroup(groups[0], 1, rest, window);
      assert groups[0][..1] == [groups[0][0]];
      assert merged == [merged[0]] + merged[1..];
    }
  }

  lemma CohesiveStep(g: seq<Peak>, j: nat, window: int)
    requires Cohesive(g, window) && 1 <= j < |g|
    ensures g[j].index - Strongest(g[..j]).index <= window
    ensures Strongest(g[..j + 1]) == if g[j].magnitude > Strongest(g[..j]).magnitude then g[j] else Strongest(g[..j])
  {
    assert g[..j + 1][..j] == g[..j];
  }

  /** Scanning the members of a cohesive group never closes it. */
  lemma {:induction false} MergeThroughGroup(g: seq<Peak>, j: nat, rest: seq<Peak>, window: int)
    requires Cohesive(g, window) && 1 <= j <= |g|
    ensures MergeFrom(Strongest(g[..j]), g[j..] + rest, window) == MergeFrom(Strongest(g), rest, window)
    decreases |g| - j
  {
    if j == |g| {
      assert g[..j] == g && g[j..] + rest == rest;
    } else {
      var tail, current := g[j..] + rest, Strongest(g[..j]);
      assert tail[0] == g[j] && tail[1..] == g[j + 1..] + rest;
      CohesiveStep(g, j, window);
      assert MergeFrom(current, tail, window) == MergeFrom(Strongest(g[..j + 1]), tail[1..], window);
      MergeThroughGroup(g, j + 1, rest, window);
    }
  }

  /** Neighbouring peaks are more than `window` apart. */
  predicate Separated(peaks: seq<Peak>, window: int) {
    forall i :: 0 < i < |peaks| ==> peaks[i].index - peaks[i - 1].index > window
  }

  lemma {:induction false} MergeFromMembers(current: Peak, rest: seq<Peak>, window: int)
    ensures forall p :: p in MergeFrom(current, rest, window) ==> p == current || p in rest
    decreases |rest|
  {
    if rest == [] {
    } else {
      if rest[0].index - current.index <= window {
        MergeFromMembers(if rest[0].magnitude > current.magnitude then rest[0] else current, rest[1..], window);
      } else {
        MergeFromMembers(rest[0], rest[1..], window);
      }
    }
  }

  lemma {:induction false} MergeFromSeparated(current: Peak, rest: seq<Peak>, window: int)
    requires window >= 1
    requires Increasing(rest)
    requires rest != [] ==> current.index < rest[0].index
    ensures Separated(MergeFrom(current, rest, window), window)
    ensures MergeFrom(current, rest, window)[0].index >= current.index
    decreases |rest|
  {
    if rest == [] {
    } else {
      if rest[0].index - current.index <= window {
        MergeFromSeparated(if rest[0].magnitude > current.magnitude then rest[0] else current, rest[1..], window);
      } else {
        MergeFromSeparated(rest[0], rest[1..], window);
      }
    }
  }

  /** Merged peaks of a trace are separated, come from the input and keep the trace order. */
  lemma MergedSeparated(peaks: seq<Peak>, window: int)
    requires window >= 1 && Increasing(peaks)
    ensures Separated(Merged(peaks, window), window)
    ensures forall p :: p in Merged(peaks, window) ==> p in peaks
    ensures Increasing(Merged(peaks, window))
  {
    if peaks != [] {
      MergeFromSeparated(peaks[0], peaks[1..], window);
      MergeFromMembers(peaks[0], peaks[1..], window);
      SeparatedSpan(Merged(peaks, window), window);
    }
  }

  /** Separated peaks spread: `i` steps cover at least `i * (window + 1)` samples. */
  lemma {:induction false} SeparatedGap(peaks: seq<Peak>, window: int, i: nat, j: nat)
    requires window >= 0 && Separated(peaks, window) && i <= j < |peaks|
    ensures peaks[j].index - peaks[i].index >= (j - i) * (window + 1)
    decreases j
  {
    if i == j {
    } else {
      SeparatedGap(peaks, window, i, j - 1);
      assert (j - i) * (window + 1) == (j - 1 - i) * (window + 1) + window + 1;
    }
  }

  lemma ProductPositive(x: int, y: int)
    requires x >= 1 && y >= 1
    ensures x * y >= 1
  {
  }

  lemma SeparatedSpan(peaks: seq<Peak>, window: int)
    requires window >= 0 && Separated(peaks, window)
    ensures Increasing(peaks)
  {
    forall i, j | 0 <= i < j < |peaks|
      ensures peaks[i].index < peaks[j].index
    {
      SeparatedGap(peaks, window, i, j);
      ProductPositive(j - i, window + 1);
    }
  }

  lemma {:induction false} MergeFromFixed(current: Peak, rest: seq<Peak>, window: int)
    requires Separated([current] + rest, window)
    ensures MergeFrom(current, rest, window) == [current] + rest
    decreases |rest|
  {
    if rest == [] {
    } else {
      var all := [current] + rest;
      assert all[1].index - all[0].index > window;
      forall i | 0 < i < |rest|
        ensures rest[i].index - rest[i - 1].index > window
      {
        assert all[i + 1] == rest[i] && all[i] == rest[i - 1];
      }
      assert rest == [rest[0]] + rest[1..];
      MergeFromFixed(rest[0], rest[1..], window);
    }
  }

  /** Merging twice is merging once. */
  lemma MergedIdempotent(peaks: seq<Peak>, window: int)
    requires window >= 1 && Increasing(peaks)
    ensures Merged(Merged(peaks, window), window) == Merged(peaks, window)
  {
    var m := Merged(peaks, window);
    MergedSeparated(peaks, window);
    if m != [] {
      assert m == [m[0]] + m[1..];
      MergeFromFixed(m[0], m[1..], window);
    }
  }

  /** A trace of `n` samples yields at most `(n - 2) / (window + 1) + 1` merged peaks. */
  lemma MergedCount(points: seq<real>, threshold: real, window: int)
    requires window >= 1
    ensures var k := |Merged(Peaks(points, threshold), window)|;
            k > 0 ==> (k - 1) * (window + 1) <= |points| - 2
  {
    PeaksExact(points, threshold);
    MergedSeparated(Peaks(points, threshold), window);
    var m := Merged(Peaks(points, threshold), window);
    if |m| > 0 {
      SeparatedGap(m, window, 0, |m| - 1);
      assert m[0] in m && m[|m| - 1] in m;
    }
  }

  // ---- Classification ----

  function ClassifyType(peak: Peak, n: int, threshold: real): EventType {
    if peak.index >= n - 3 then End
    else if peak.direction < 0.0 && peak.magnitude < threshold * 1.5 then Bend
    else if peak.direction < 0.0 && peak.magnitude >= threshold * 2.5 then Break
    else if peak.direction > 0.0 && peak.magnitude >= threshold * 1.5 then Connector
    else Splice
  }

  function Confidence(peak: Peak, threshold: real): real
    requires threshold > 0.0
  {
    Round3(MinReal(0.99, 0.5 + peak.magnitude / (threshold * 10.0)))
  }

  function Classified(peak: Peak, points: seq<real>, noiseFloor: real, threshold: real, distance: real): DetectedEvent
    requires 1 <= peak.index < |points| && threshold > 0.0
  {
    var before, after := points[peak.index - 1], points[peak.index];
    DetectedEvent(
      peak.index,
      distance,
      ClassifyType(peak, |points|, threshold),
      Round3(MaxReal(0.0, before - after)),
      Round3(MinReal(before, after) - noiseFloor),
      Confidence(peak, threshold))
  }

  /** The source overwrites the type guard by guard; the last guard that holds wins. */
  method ClassifyPeak(peak: Peak, points: seq<real>, noiseFloor: real, threshold: real)
    returns (eventType: EventType, loss: real, reflectance: real, confidence: real)
    requires 1 <= peak.index < |points| && threshold > 0.0
    ensures forall d :: DetectedEvent(peak.index, d, eventType, loss, reflectance, confidence)
                     == Classified(peak, points, noiseFloor, threshold, d)
  {
    var before, after := points[peak.index - 1], points[peak.index];
    loss := Round3(MaxReal(0.0, before - after));
    reflectance := Round3(MinReal(before, after) - noiseFloor);
    eventType := Splice;
    if peak.direction > 0.0 && peak.magnitude >= threshold * 1.5 { eventType := Connector; }
    if peak.direction < 0.0 && peak.magnitude >= threshold * 2.5 { eventType := Break; }
    if peak.direction < 0.0 && peak.magnitude < threshold * 1.5 { eventType := Bend; }
    if peak.index >= |points| - 3 { eventType := End; }
    confidence := Round3(MinReal(0.99, 0.5 + peak.magnitude / (threshold * 10.0)));
  }

  /**
   What a detected event means, in terms of the step from one sample to the next: the loss is the drop of a
   falling step and nothing for a rising one; the reflectance is the height of the lower sample over the noise
   floor; the confidence is a half and a tenth of the step in units of the threshold, at most 0.99; and the type
   depends on the signed step in those units, except within the last three samples.
   */
  predicate Describes(e: DetectedEvent, points: seq<real>, noiseFloor: real, threshold: real)
    requires threshold > 0.0
  {
    && 1 <= e.index < |points|
    && var i, step := e.index, points[e.index] - points[e.index - 1];
       var size := if step < 0.0 then -step else step;
       && e.insertionLossDB == Round3(if step < 0.0 then -step else 0.0)
       && e.reflectanceDB == Round3((if step < 0.0 then points[i] else points[i - 1]) - noiseFloor)
       && e.confidence == Round3(if size >= threshold * 4.9 then 0.99 else 0.5 + size / (threshold * 10.0))
       && (e.eventType == End <==> i >= |points| - 3)
       && (e.eventType == Break <==> i < |points| - 3 && step <= -(threshold * 2.5))
       && (e.eventType == Bend <==> i < |points| - 3 && -(threshold * 1.5) < step < 0.0)
       && (e.eventType == Connector <==> i < |points| - 3 && step >= threshold * 1.5)
       && (e.eventType == Splice
           <==> && i < |points| - 3
                && (-(threshold * 2.5) < step <= -(threshold * 1.5) || 0.0 < step < threshold * 1.5))
  }

  lemma RatioReaches(size: real, threshold: real)
    requires threshold > 0.0
    ensures size / (threshold * 10.0) >= 0.49 <==> size >= threshold * 4.9
  {
    var q := size / (threshold * 10.0);
    assert q * (threshold * 10.0) == size;
    assert (q - 0.49) * (threshold * 10.0) == size - threshold * 4.9;
    if q > 0.49 { assert (q - 0.49) * (threshold * 10.0) > 0.0; }
    if q < 0.49 { assert (0.49 - q) * (threshold * 10.0) > 0.0; }
  }

  lemma {:induction false} ClassifiedMeaning(p: Peak, points: seq<real>, noiseFloor: real, threshold: real,
      distance: real)
    requires threshold > 0.0 && IsPeak(p, points, threshold)
    ensures Describes(Classified(p, points, noiseFloor, threshold, distance), points, noiseFloor, threshold)
  {
    RatioReaches(p.magnitude, threshold);
  }

  lemma ConfidenceBounds(peak: Peak, threshold: real)
    requires 0.0 < threshold <= peak.magnitude
    ensures 0.6 <= Confidence(peak, threshold) <= 0.99
  {
    RatioAtLeastTenth(peak.magnitude, threshold);
    Round3Within(600, MinReal(0.99, 0.5 + peak.magnitude / (threshold * 10.0)), 990);
  }

  /** The numeric range of everything a detected event stores. */
  predicate EventInRange(insertionLossDB: real, reflectanceDB: real, confidence: real) {
    && 0.0 <= insertionLossDB <= 300.0
    && -300.0 <= reflectanceDB <= 300.0
    && 0.6 <= confidence <= 0.99
  }

  /** Samples as `Import` admits them. */
  predicate InSampleRange(points: seq<real>) {
    forall i :: 0 <= i < |points| ==> -200.0 <= points[i] <= 100.0
  }

  lemma ClassifiedInRange(peak: Peak, points: seq<real>, noiseFloor: real, threshold: real, distance: real)
    requires 1 <= peak.index < |points| && 0.0 < threshold <= peak.magnitude
    requires InSampleRange(points) && -200.0 <= noiseFloor <= 100.0
    ensures var e := Classified(peak, points, noiseFloor, threshold, distance);
            EventInRange(e.insertionLossDB, e.reflectanceDB, e.confidence)
  {
    var before, after := points[peak.index - 1], points[peak.index];
    ConfidenceBounds(peak, threshold);
    Round3Within(0, MaxReal(0.0, before - after), 300000);
    Round3Within(-300000, MinReal(before, after) - noiseFloor, 300000);
  }

  // ---- Detection ----

  /** Everything `Detect` needs besides the samples. */
  datatype Setting = Setting(threshold: real, mergeWindow: int, intervalNS: real, refractive: real, routeLength: real)

  /** Peaks that `Detect` can hand to the classifier. */
  predicate Classifiable(peaks: seq<Peak>, points: seq<real>) {
    forall i :: 0 <= i < |peaks| ==> 1 <= peaks[i].index < |points|
  }

  predicate Convertible(s: Setting) {
    s.threshold > 0.0 && ConvertibleSampling(s.intervalNS, s.refractive)
  }

  function EventFor(peak: Peak, points: seq<real>, noise: real, s: Setting): DetectedEvent
    requires 1 <= peak.index < |points| && Convertible(s)
  {
    Classified(peak, points, noise, s.threshold, SampleDistance(peak.index, s.intervalNS, s.refractive).value)
  }

  /** The event of every peak, before the route is looked at. */
  function Candidates(peaks: seq<Peak>, points: seq<real>, noise: real, s: Setting): (c: seq<DetectedEvent>)
    requires Classifiable(peaks, points) && Convertible(s)
    ensures |c| == |peaks|
  {
    seq(|peaks|, i requires 0 <= i < |peaks| => EventFor(peaks[i], points, noise, s))
  }

  /** Keeps the candidates that lie on the route and counts the others. */
  function Accepted(candidates: seq<DetectedEvent>, routeLength: real): Detected {
    if candidates == [] then Detected([], 0)
    else
      var last := candidates[|candidates| - 1];
      var d := Accepted(candidates[..|candidates| - 1], routeLength);
      if ValidRouteDistance(last.distanceM, routeLength)
      then Detected(d.events + [last], d.rejected)
      else Detected(d.events, d.rejected + 1)
  }

  function MergedPeaks(points: seq<real>, s: Setting): seq<Peak> {
    Merged(Peaks(points, s.threshold), s.mergeWindow)
  }

  lemma MergedPeaksExact(points: seq<real>, s: Setting)
    requires s.mergeWindow >= 1
    ensures Classifiable(MergedPeaks(points, s), points)
    ensures Increasing(MergedPeaks(points, s))
    ensures forall i :: 0 <= i < |MergedPeaks(points, s)| ==> MergedPeaks(points, s)[i].magnitude >= s.threshold
  {
    PeaksExact(points, s.threshold);
    MergedSeparated(Peaks(points, s.threshold), s.mergeWindow);
    var m := MergedPeaks(points, s);
    forall i | 0 <= i < |m|
      ensures 1 <= m[i].index < |points| && m[i].magnitude >= s.threshold
    {
      assert m[i] in m;
    }
  }

  /** The last stage of `Detect`: the sampling parameters are looked at only if there is a peak to place. */
  function PlacedResult(peaks: seq<Peak>, points: seq<real>, noise: real, s: Setting): Result<Detected>
    requires Classifiable(peaks, points) && s.threshold > 0.0
  {
    if peaks == [] then Ok(Detected([], 0))
    else if s.intervalNS <= 0.0 then Err(BadInterval)
    else if s.refractive < 1.3 || s.refractive > 1.7 then Err(BadRefractiveIndex)
    else Ok(Accepted(Candidates(peaks, points, noise, s), s.routeLength))
  }

  /** What `Detect` returns, errors included, as a function of its arguments. */
  function DetectResult(points: seq<real>, s: Setting): Result<Detected> {
    if |points| < MIN_NOISE_SAMPLES then Err(TooFewForNoise)
    else if s.threshold <= 0.0 then Err(BadThreshold)
    else if s.mergeWindow < 1 then Err(BadMergeWindow)
    else
      MergedPeaksExact(points, s);
      PlacedResult(MergedPeaks(points, s), points, Median(Tail(points)), s)
  }

  /** One more candidate is kept or counted. */
  lemma AcceptedStep(candidates: seq<DetectedEvent>, routeLength: real, i: nat)
    requires i < |candidates|
    ensures var d := Accepted(candidates[..i], routeLength);
            Accepted(candidates[..i + 1], routeLength)
              == if ValidRouteDistance(candidates[i].distanceM, routeLength)
                 then Detected(d.events + [candidates[i]], d.rejected) else Detected(d.events, d.rejected + 1)
  {
    assert candidates[..i + 1][..i] == candidates[..i];
  }

  /** The event of a peak at a known distance. */
  method MakeEvent(peak: Peak, points: seq<real>, noise: real, s: Setting,
      distance: real) returns (event: DetectedEvent)
    requires 1 <= peak.index < |points| && Convertible(s)
    requires SampleDistance(peak.index, s.intervalNS, s.refractive) == Ok(distance)
    ensures event == EventFor(peak, points, noise, s)
  {
    var eventType, loss, reflectance, confidence := ClassifyPeak(peak, points, noise, s.threshold);
    event := DetectedEvent(peak.index, distance, eventType, loss, reflectance, confidence);
  }

  /** The placing loop of `Detect`. */
  method PlacePeaks(peaks: seq<Peak>, points: seq<real>, noise: real, s: Setting) returns (r: Result<Detected>)
    requires Classifiable(peaks, points) && s.threshold > 0.0
    ensures r == PlacedResult(peaks, points, noise, s)
  {
    ghost var candidates := if Convertible(s) then Candidates(peaks, points, noise, s) else [];
    var events: seq<DetectedEvent>, rejected: nat := [], 0;
    for i := 0 to |peaks|
      invariant i > 0 ==> Convertible(s)
      invariant i <= |candidates| ==> Accepted(candidates[..i], s.routeLength) == Detected(events, rejected)
      invariant i == 0 ==> events == [] && rejected == 0
    {
      var distance := SampleDistance(peaks[i].index, s.intervalNS, s.refractive);
      if distance.Err? { return Err(distance.error); }
      assert candidates[i] == EventFor(peaks[i], points, noise, s);
      AcceptedStep(candidates, s.routeLength, i);
      if !ValidRouteDistance(distance.value, s.routeLength) {
        rejected := rejected + 1;
      } else {
        var event := MakeEvent(peaks[i], points, noise, s, distance.value);
        events := events + [event];
      }
    }
    if peaks != [] { assert candidates[..|peaks|] == candidates; }
    r := Ok(Detected(events, rejected));
  }

  method Detect(points: seq<real>, s: Setting) returns (r: Result<Detected>)
    ensures r == DetectResult(points, s)
  {
    var noise := EstimateNoiseFloor(points);
    if noise.Err? { return Err(noise.error); }
    var derivative := DerivativePeaks(points, s.threshold);
    if derivative.Err? { return Err(derivative.error); }
    var peaks := MergePeaks(derivative.value, s.mergeWindow);
    if peaks.Err? { return Err(peaks.error); }
    MergedPeaksExact(points, s);
    r := PlacePeaks(peaks.value, points, noise.value, s);
  }

  /** Detection fails exactly on the inputs its guards name; the sampling is looked at only if there are peaks. */
  lemma DetectSucceedsExactly(points: seq<real>, s: Setting)
    ensures DetectResult(points, s).Ok?
       <==> && |points| >= 16 && s.threshold > 0.0 && s.mergeWindow >= 1
            && ((exists p :: IsPeak(p, points, s.threshold)) ==> s.intervalNS > 0.0 && 1.3 <= s.refractive <= 1.7)
    ensures DetectResult(points, s).Err? ==>
              DetectResult(points, s).error == if |points| < 16 then TooFewForNoise
                                               else if s.threshold <= 0.0 then BadThreshold
                                               else if s.mergeWindow < 1 then BadMergeWindow
                                               else if s.intervalNS <= 0.0 then BadInterval else BadRefractiveIndex
  {
    PeaksExact(points, s.threshold);
    var peaks := Peaks(points, s.threshold);
    if peaks != [] {
      assert peaks[0] in peaks;
    }
    if p :| IsPeak(p, points, s.threshold) {
      assert p in peaks;
    }
  }

  /** Candidates in the order of their distance along the fibre. */
  predicate Outbound(candidates: seq<DetectedEvent>) {
    && (forall i :: 0 <= i < |candidates| ==> 0.0 <= candidates[i].distanceM)
    && (forall i, j :: 0 <= i < j < |candidates| ==> candidates[i].distanceM <= candidates[j].distanceM)
  }

  lemma CandidatesOutbound(peaks: seq<Peak>, points: seq<real>, noise: real, s: Setting)
    requires Classifiable(peaks, points) && Increasing(peaks) && Convertible(s)
    ensures Outbound(Candidates(peaks, points, noise, s))
  {
    var c := Candidates(peaks, points, noise, s);
    forall i, j | 0 <= i <= j < |c|
      ensures 0.0 <= c[i].distanceM <= c[j].distanceM
    {
      SampleDistanceMonotone(peaks[i].index, peaks[j].index, s.intervalNS, s.refractive);
    }
  }

  /**
   Rejection that cuts a suffix: the events are leading candidates, a candidate is kept exactly when
   its distance is at most the route length, and every other candidate is counted as rejected.
   */
  predicate CutsSuffix(d: Detected, candidates: seq<DetectedEvent>, routeLength: real) {
    && d.events <= candidates
    && |d.events| + d.rejected == |candidates|
    && (forall i :: 0 <= i < |candidates| ==> (i < |d.events| <==> candidates[i].distanceM <= routeLength))
  }

  lemma {:induction false} CutsSuffixStep(d: Detected, candidates: seq<DetectedEvent>, e: DetectedEvent,
      routeLength: real)
    requires CutsSuffix(d, candidates, routeLength) && Outbound(candidates + [e])
    ensures CutsSuffix(if ValidRouteDistance(e.distanceM, routeLength) then Detected(d.events + [e], d.rejected)
                       else Detected(d.events, d.rejected + 1), candidates + [e], routeLength)
  {
    var all := candidates + [e];
    assert all[|candidates|] == e;
    forall i | 0 <= i < |candidates| ensures candidates[i].distanceM <= e.distanceM {
      assert all[i] == candidates[i];
    }
    if ValidRouteDistance(e.distanceM, routeLength) {
      assert candidates != [] ==> candidates[|candidates| - 1].distanceM <= routeLength;
      assert d.events == candidates;
    }
  }

  lemma {:induction false} AcceptedCutsSuffix(candidates: seq<DetectedEvent>, routeLength: real)
    requires Outbound(candidates)
    ensures CutsSuffix(Accepted(candidates, routeLength), candidates, routeLength)
  {
    if candidates == [] {
    } else {
      var init, last := candidates[..|candidates| - 1], candidates[|candidates| - 1];
      AcceptedCutsSuffix(init, routeLength);
      assert candidates == init + [last];
      CutsSuffixStep(Accepted(init, routeLength), init, last, routeLength);
    }
  }

  /**
   Out-of-route rejection cuts exactly a suffix of the merged peaks, and the distances of the events
   that remain are non-decreasing inside the route.
   */
  lemma {:induction false} DetectCutsSuffix(points: seq<real>, s: Setting)
    requires DetectResult(points, s).Ok? && MergedPeaks(points, s) != []
    ensures Convertible(s) && Classifiable(MergedPeaks(points, s), points)
    ensures CutsSuffix(DetectResult(points, s).value,
                       Candidates(MergedPeaks(points, s), points, Median(Tail(points)), s), s.routeLength)
    ensures Outbound(DetectResult(points, s).value.events)
    ensures forall i :: 0 <= i < |DetectResult(points, s).value.events| ==>
              DetectResult(points, s).value.events[i].distanceM <= s.routeLength
  {
    MergedPeaksExact(points, s);
    CandidatesOutbound(MergedPeaks(points, s), points, Median(Tail(points)), s);
    var c := Candidates(MergedPeaks(points, s), points, Median(Tail(points)), s);
    AcceptedCutsSuffix(c, s.routeLength);
    PrefixOutbound(Accepted(c, s.routeLength).events, c);
  }

  lemma PrefixOutbound(events: seq<DetectedEvent>, candidates: seq<DetectedEvent>)
    requires Outbound(candidates) && events <= candidates
    ensures Outbound(events)
  {
  }

  lemma LongerRouteAccepts(c: seq<DetectedEvent>, short: real, long: real)
    requires Outbound(c) && short <= long
    ensures Accepted(c, short).events <= Accepted(c, long).events
  {
    AcceptedCutsSuffix(c, short);
    AcceptedCutsSuffix(c, long);
    var a := Accepted(c, short).events;
    assert |a| > 0 ==> c[|a| - 1].distanceM <= short;
  }

  /** Lengthening the route only appends events. */
  lemma {:induction false} LongerRouteExtends(points: seq<real>, s: Setting, longer: real)
    requires s.routeLength <= longer
    ensures DetectResult(points, s).Ok? <==> DetectResult(points, s.(routeLength := longer)).Ok?
    ensures DetectResult(points, s).Ok? ==>
              DetectResult(points, s).value.events <= DetectResult(points, s.(routeLength := longer)).value.events
  {
    if DetectResult(points, s).Ok? && MergedPeaks(points, s) != [] {
      MergedPeaksExact(points, s);
      var peaks, noise := MergedPeaks(points, s), Median(Tail(points));
      var c := Candidates(peaks, points, noise, s);
      assert c == Candidates(peaks, points, noise, s.(routeLength := longer));
      CandidatesOutbound(peaks, points, noise, s);
      LongerRouteAccepts(c, s.routeLength, longer);
    }
  }

  /** Every detected event of an admitted trace is in range, whatever the parameters. */
  lemma {:induction false} DetectInRange(points: seq<real>, s: Setting)
    requires DetectResult(points, s).Ok? && InSampleRange(points)
    ensures forall i :: 0 <= i < |DetectResult(points, s).value.events| ==>
              var e := DetectResult(points, s).value.events[i];
              EventInRange(e.insertionLossDB, e.reflectanceDB, e.confidence) && 0.0 <= e.distanceM <= s.routeLength
  {
    if MergedPeaks(points, s) != [] {
      DetectCutsSuffix(points, s);
      MergedPeaksExact(points, s);
      NoiseFloorWithin(points, -200.0, 100.0);
      var peaks, noise := MergedPeaks(points, s), Median(Tail(points));
      var events := DetectResult(points, s).value.events;
      forall i | 0 <= i < |events|
        ensures EventInRange(events[i].insertionLossDB, events[i].reflectanceDB, events[i].confidence)
      {
        assert events[i] == Candidates(peaks, points, noise, s)[i];
        ClassifiedInRange(peaks[i], points, noise, s.threshold, events[i].distanceM);
      }
    }
  }

  lemma {:induction false} MergedIsPeak(points: seq<real>, s: Setting, k: nat)
    requires s.mergeWindow >= 1 && k < |MergedPeaks(points, s)|
    ensures IsPeak(MergedPeaks(points, s)[k], points, s.threshold)
  {
    PeaksExact(points, s.threshold);
    MergedSeparated(Peaks(points, s.threshold), s.mergeWindow);
    assert MergedPeaks(points, s)[k] in MergedPeaks(points, s);
  }

  /** The `k`-th event describes the `k`-th merged peak. */
  lemma {:induction false} EventOfPeak(points: seq<real>, s: Setting, k: nat) returns (p: Peak)
    requires DetectResult(points, s).Ok? && k < |DetectResult(points, s).value.events|
    ensures NoiseFloorResult(points).Ok? && IsPeak(p, points, s.threshold) && Convertible(s)
    ensures DetectResult(points, s).value.events[k] == EventFor(p, points, NoiseFloorResult(points).value, s)
  {
    DetectCutsSuffix(points, s);
    MergedIsPeak(points, s, k);
    p := MergedPeaks(points, s)[k];
    assert DetectResult(points, s).value.events[k]
        == Candidates(MergedPeaks(points, s), points, Median(Tail(points)), s)[k];
  }

  /**
   What every event of a detection says: which step of the trace it describes and how, and where that step lies
   along the fibre, to the nearest hundredth of a metre.
   */
  lemma {:induction false} DetectedMeaning(points: seq<real>, s: Setting, k: nat)
    requires DetectResult(points, s).Ok? && k < |DetectResult(points, s).value.events|
    ensures s.threshold > 0.0 && NoiseFloorResult(points).Ok?
    ensures var e := DetectResult(points, s).value.events[k];
            && Describes(e, points, NoiseFloorResult(points).value, s.threshold)
            && (points[e.index] - points[e.index - 1] >= s.threshold
                || points[e.index] - points[e.index - 1] <= -s.threshold)
            && LiesAt(e.distanceM, e.index, s.intervalNS, s.refractive)
  {
    var p := EventOfPeak(points, s, k);
    ClassifiedMeaning(p, points, NoiseFloorResult(points).value, s.threshold,
                      SampleDistance(p.index, s.intervalNS, s.refractive).value);
    SampleDistanceExactly(p.index, s.intervalNS, s.refractive);
  }

  // ---- Independence of the absolute power level ----

  lemma {:induction false} PeaksShift(points: seq<real>, c: real, threshold: real, n: nat)
    requires n <= |points|
    ensures PeaksUpTo(Shift(points, c), threshold, n) == PeaksUpTo(points, threshold, n)
  {
    if n <= 1 {
    } else {
      PeaksShift(points, c, threshold, n - 1);
      assert Delta(Shift(points, c), n - 1) == Delta(points, n - 1);
    }
  }

  lemma ClassifiedShift(peak: Peak, points: seq<real>, c: real, noise: real, threshold: real, distance: real)
    requires 1 <= peak.index < |points| && threshold > 0.0
    ensures Classified(peak, Shift(points, c), noise + c, threshold, distance)
         == Classified(peak, points, noise, threshold, distance)
  {
    var before, after := points[peak.index - 1], points[peak.index];
    assert MinReal(before + c, after + c) - (noise + c) == MinReal(before, after) - noise;
    assert MaxReal(0.0, (before + c) - (after + c)) == MaxReal(0.0, before - after);
  }

  lemma CandidatesShift(peaks: seq<Peak>, points: seq<real>, c: real, noise: real, s: Setting)
    requires Classifiable(peaks, points) && Convertible(s)
    ensures Candidates(peaks, Shift(points, c), noise + c, s) == Candidates(peaks, points, noise, s)
  {
    forall i | 0 <= i < |peaks|
      ensures EventFor(peaks[i], Shift(points, c), noise + c, s) == EventFor(peaks[i], points, noise, s)
    {
      ClassifiedShift(peaks[i], points, c, noise, s.threshold,
                      SampleDistance(peaks[i].index, s.intervalNS, s.refractive).value);
    }
  }

  lemma TailMedianShift(points: seq<real>, c: real)
    requires |points| > 0
    ensures Median(Tail(Shift(points, c))) == Median(Tail(points)) + c
  {
    assert Tail(Shift(points, c)) == Shift(Tail(points), c);
    MedianShift(Tail(points), c);
  }

  lemma PlacedResultShift(peaks: seq<Peak>, points: seq<real>, c: real, noise: real, s: Setting)
    requires Classifiable(peaks, points) && s.threshold > 0.0
    ensures PlacedResult(peaks, Shift(points, c), noise + c, s) == PlacedResult(peaks, points, noise, s)
  {
    if Convertible(s) {
      CandidatesShift(peaks, points, c, noise, s);
    }
  }

  /** Raising every sample by the same amount changes nothing that detection reports. */
  lemma {:induction false} DetectShiftInvariant(points: seq<real>, s: Setting, c: real)
    ensures DetectResult(Shift(points, c), s) == DetectResult(points, s)
  {
    PeaksShift(points, c, s.threshold, |points|);
    if |points| >= MIN_NOISE_SAMPLES && s.threshold > 0.0 && s.mergeWindow >= 1 {
      var peaks, noise := MergedPeaks(points, s), Median(Tail(points));
      DetectResultStages(points, s, peaks, noise);
      TailMedianShift(points, c);
      DetectResultStages(Shift(points, c), s, peaks, noise + c);
      PlacedResultShift(peaks, points, c, noise, s);
    }
  }

  lemma DetectResultStages(points: seq<real>, s: Setting, peaks: seq<Peak>, noise: real)
    requires |points| >= MIN_NOISE_SAMPLES && s.threshold > 0.0 && s.mergeWindow >= 1
    requires peaks == MergedPeaks(points, s) && noise == Median(Tail(points))
    ensures Classifiable(peaks, points) && DetectResult(points, s) == PlacedResult(peaks, points, noise, s)
  {
    MergedPeaksExact(points, s);
  }

  /** The whole pipeline, filter included, ignores the absolute power level of the trace. */
  lemma {:induction false} PipelineShiftInvariant(raw: seq<real>, window: int, s: Setting, c: real)
    requires window >= 1
    ensures DetectResult(Filtered(Shift(raw, c), window), s) == DetectResult(Filtered(raw, window), s)
  {
    FilterShift(raw, window, c);
    DetectShiftInvariant(Filtered(raw, window), s, c);
  }
}
