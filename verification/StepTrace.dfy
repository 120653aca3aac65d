/** The smallest trace with an event: sixteen samples, level but for one falling step. */
module StepTrace {
  import opened Wrappers
  import opened Numbers
  import opened Distance
  import opened Detection
  import opened TraceStore

  const STEP: nat := 8

  const INTERVAL_NS: real := 1000.0

  const ROUTE: Route := Route(1000.0, 1.5)

  predicate IsStep(points: seq<real>) {
    |points| == 16 && forall i :: 0 <= i < 16 ==> points[i] == if i < STEP then 0.0 else -0.2
  }

  function SettingAt(threshold: real): Setting {
    Setting(threshold, 3, INTERVAL_NS, ROUTE.refractiveIndex, ROUTE.lengthM)
  }

  /** The only peak is the step. */
  lemma {:induction false} StepPeaks(points: seq<real>, threshold: real, n: nat)
    requires IsStep(points) && n <= 16 && 0.0 < threshold <= 0.2
    ensures PeaksUpTo(points, threshold, n) == if n <= STEP then [] else [PeakAt(points, STEP)]
  {
    if n <= 1 {
    } else {
      StepPeaks(points, threshold, n - 1);
    }
  }

  lemma {:induction false} StepMerged(points: seq<real>, threshold: real)
    requires IsStep(points) && 0.0 < threshold <= 0.2
    ensures MergedPeaks(points, SettingAt(threshold)) == [PeakAt(points, STEP)]
  {
    StepPeaks(points, threshold, 16);
    assert [PeakAt(points, STEP)][1..] == [];
  }

  lemma {:induction false} DistanceBounds()
    ensures 0.0 <= Round2(RawDistance(STEP, INTERVAL_NS, ROUTE.refractiveIndex)) <= ROUTE.lengthM
    ensures Round2(RawDistance(15, INTERVAL_NS, ROUTE.refractiveIndex)) >= ROUTE.lengthM * 0.05
  {
    var near, far := RawDistance(STEP, INTERVAL_NS, 1.5), RawDistance(15, INTERVAL_NS, 1.5);
    assert near * 3.0 == 2398.339664 && far * 3.0 == 4496.88687;
    var n := Round2Nearest(near);
    var f := Round2Nearest(far);
  }

  /** Where the step lies. */
  function StepDistance(): (d: real)
    ensures SampleDistance(STEP, INTERVAL_NS, ROUTE.refractiveIndex) == Ok(d)
    ensures 0.0 <= d <= ROUTE.lengthM
  {
    DistanceBounds();
    Round2(RawDistance(STEP, INTERVAL_NS, ROUTE.refractiveIndex))
  }

  /** The event a detection reports for the step. */
  function StepEvent(points: seq<real>, noise: real, threshold: real): DetectedEvent
    requires IsStep(points) && 0.0 < threshold
  {
    Classified(PeakAt(points, STEP), points, noise, threshold, StepDistance())
  }

  lemma {:induction false} AcceptsOne(e: DetectedEvent, routeLength: real)
    requires ValidRouteDistance(e.distanceM, routeLength)
    ensures Detection.Accepted([e], routeLength) == Detected([e], 0)
  {
    var c := [e];
    assert c[..0] == [] && c[..1] == c;
    AcceptedStep(c, routeLength, 0);
  }

  lemma {:induction false} OneCandidate(peaks: seq<Peak>, points: seq<real>, noise: real, s: Setting, d: real)
    requires |peaks| == 1 && Classifiable(peaks, points) && Convertible(s)
    requires SampleDistance(peaks[0].index, s.intervalNS, s.refractive) == Ok(d) && ValidRouteDistance(d, s.routeLength)
    ensures PlacedResult(peaks, points, noise, s)
         == Ok(Detected([Classified(peaks[0], points, noise, s.threshold, d)], 0))
  {
    var e := Classified(peaks[0], points, noise, s.threshold, d);
    assert Candidates(peaks, points, noise, s) == [e];
    AcceptsOne(e, s.routeLength);
  }

  /** Detection on the step: one event, and nothing rejected. */
  lemma {:induction false} StepDetected(points: seq<real>, noise: real, threshold: real)
    requires IsStep(points) && 0.0 < threshold <= 0.2 && NoiseFloorResult(points) == Ok(noise)
    ensures DetectResult(points, SettingAt(threshold)) == Ok(Detected([StepEvent(points, noise, threshold)], 0))
  {
    var s, peaks := SettingAt(threshold), [PeakAt(points, STEP)];
    StepMerged(points, threshold);
    DetectResultStages(points, s, peaks, noise);
    OneCandidate(peaks, points, noise, s, StepDistance());
  }

  predicate Sensitivity(threshold: real, confidence: int) {
    (threshold == 0.04 && confidence == 990) || (threshold == 0.2 && confidence == 600)
  }

  lemma {:induction false} StepConfidence(peak: Peak, threshold: real, confidence: int)
    requires Sensitivity(threshold, confidence) && peak.magnitude == 0.2
    ensures Confidence(peak, threshold) == confidence as real / 1000.0
  {
    assert 0.2 / (threshold * 10.0) == if threshold == 0.04 then 0.5 else 0.1;
    Round3Fixed(confidence);
  }

  /** At threshold 0.04 the step is a sure break, at 0.2 an unsure bend; place and loss are the same. */
  lemma {:induction false} StepClassified(points: seq<real>, noise: real, threshold: real, confidence: int)
    requires IsStep(points) && Sensitivity(threshold, confidence)
    ensures var e := StepEvent(points, noise, threshold);
            && e.distanceM == StepDistance() && e.insertionLossDB == 0.2
            && e.confidence == confidence as real / 1000.0
            && e.eventType == if threshold == 0.04 then Break else Bend
  {
    ClassifiedMeaning(PeakAt(points, STEP), points, noise, threshold, StepDistance());
    StepConfidence(PeakAt(points, STEP), threshold, confidence);
    Round3Fixed(200);
  }
}
