/** Conversion of sample positions to metres along the fibre (`distance.go`). */
module Distance {
  import opened Wrappers
  import opened Numbers

  const VACUUM_SPEED: real := 299792458.0

  /** Metres per sample: light travels the interval there and back. */
  function MetresPerSample(intervalNS: real, refractive: real): real
    requires refractive >= 1.3
  {
    VACUUM_SPEED * (intervalNS * 0.000000001) / (2.0 * refractive)
  }

  predicate ConvertibleSampling(intervalNS: real, refractive: real) {
    intervalNS > 0.0 && 1.3 <= refractive <= 1.7
  }

  function SampleDistance(index: int, intervalNS: real, refractive: real): Result<real> {
    if index < 0 then Err(NegativeIndex)
    else if intervalNS <= 0.0 then Err(BadInterval)
    else if refractive < 1.3 || refractive > 1.7 then Err(BadRefractiveIndex)
    else Ok(Round2(RawDistance(index, intervalNS, refractive)))
  }

  /** The unrounded conversion formula. */
  function RawDistance(index: int, intervalNS: real, refractive: real): real
    requires refractive >= 1.3
  {
    var roundTripSeconds := index as real * intervalNS * 0.000000001;
    VACUUM_SPEED * roundTripSeconds / (2.0 * refractive)
  }

  /** Metres per sample in metres and nanoseconds: out and back, light covers 0.299792458 metres a nanosecond. */
  lemma {:induction false} MetresPerSampleMeaning(intervalNS: real, refractive: real)
    requires refractive >= 1.3
    ensures MetresPerSample(intervalNS, refractive) * 2.0 * refractive == 0.299792458 * intervalNS
  {
    var d := 2.0 * refractive;
    var q := MetresPerSample(intervalNS, refractive);
    assert q * d == VACUUM_SPEED * (intervalNS * 0.000000001);
  }

  predicate ValidRouteDistance(distance: real, routeLength: real) {
    0.0 <= distance && distance <= routeLength
  }

  lemma QuotientScales(i: real, s: real, d: real)
    requires d > 0.0
    ensures (i * s) / d == i * (s / d)
  {
    var q := s / d;
    assert q * d == s;
    assert (i * q) * d == i * (q * d);
    assert (i * s) / d == i * q by {
      var r := (i * s) / d;
      assert r * d == i * s;
      assert (r - i * q) * d == 0.0;
    }
  }

  /** The unrounded distance is a positive multiple of the index. */
  lemma {:induction false} RawDistanceLinear(index: int, intervalNS: real, refractive: real)
    requires index >= 0 && ConvertibleSampling(intervalNS, refractive)
    ensures MetresPerSample(intervalNS, refractive) > 0.0
    ensures RawDistance(index, intervalNS, refractive) == index as real * MetresPerSample(intervalNS, refractive)
  {
    var s := VACUUM_SPEED * (intervalNS * 0.000000001);
    QuotientScales(index as real, s, 2.0 * refractive);
    var roundTripSeconds := index as real * intervalNS * 0.000000001;
    assert VACUUM_SPEED * roundTripSeconds == index as real * s;
    var q := s / (2.0 * refractive);
    assert q * (2.0 * refractive) == s > 0.0;
    assert q > 0.0;
  }

  /**
   `distance` is a whole number of hundredths of a metre, and of those the nearest to where sample `index` lies:
   half of what light covers in that many intervals, at 0.299792458 metres a nanosecond over the refractive index.
   */
  predicate LiesAt(distance: real, index: int, intervalNS: real, refractive: real) {
    && (distance * 100.0).Floor as real == distance * 100.0
    && (distance - 0.005) * refractive <= 0.149896229 * intervalNS * index as real < (distance + 0.005) * refractive
  }

  lemma {:induction false} RawDistanceMeaning(index: int, intervalNS: real, refractive: real)
    requires refractive >= 1.3
    ensures RawDistance(index, intervalNS, refractive) * refractive == 0.149896229 * intervalNS * index as real
  {
    var d := 2.0 * refractive;
    var metres := RawDistance(index, intervalNS, refractive);
    assert metres * d == VACUUM_SPEED * (index as real * intervalNS * 0.000000001);
  }

  lemma {:induction false} Enclosed(low: real, metres: real, high: real, d: real, path: real)
    requires d > 0.0 && low <= metres < high && metres * d == path
    ensures low * d <= path && path < high * d
  {
    ProductMonotone(low, metres, d);
    ProductStrict(metres, high, d);
  }

  lemma {:induction false} WholeHundredths(v: real, n: int)
    requires v == n as real / 100.0
    ensures (v * 100.0).Floor as real == v * 100.0
  {
    assert v * 100.0 == n as real;
  }

  lemma {:induction false} RoundedLies(metres: real, index: int, intervalNS: real, refractive: real)
    requires metres >= 0.0 && refractive > 0.0
    requires metres * refractive == 0.149896229 * intervalNS * index as real
    ensures LiesAt(Round2(metres), index, intervalNS, refractive)
  {
    var n := Round2Nearest(metres);
    var v := Round2(metres);
    WholeHundredths(v, n);
    Enclosed(v - 0.005, metres, v + 0.005, refractive,
             0.149896229 * intervalNS * index as real);
  }

  /** What is converted, and into what. */
  lemma {:induction false} SampleDistanceExactly(index: int, intervalNS: real, refractive: real)
    ensures SampleDistance(index, intervalNS, refractive).Ok?
       <==> index >= 0 && intervalNS > 0.0 && 1.3 <= refractive <= 1.7
    ensures SampleDistance(index, intervalNS, refractive).Err? ==>
              SampleDistance(index, intervalNS, refractive).error
                == if index < 0 then NegativeIndex else if intervalNS <= 0.0 then BadInterval else BadRefractiveIndex
    ensures SampleDistance(index, intervalNS, refractive).Ok? ==>
              LiesAt(SampleDistance(index, intervalNS, refractive).value, index, intervalNS, refractive)
  {
    if index >= 0 && ConvertibleSampling(intervalNS, refractive) {
      var metres := RawDistance(index, intervalNS, refractive);
      RawDistanceMonotone(0, index, intervalNS, refractive);
      RawDistanceMeaning(index, intervalNS, refractive);
      RoundedLies(metres, index, intervalNS, refractive);
    }
  }

  lemma {:induction false} Closer(a: real, b: real, path: real, d: real)
    requires d > 0.0 && path < (a + 0.005) * d && (b - 0.005) * d <= path
    ensures b - a < 0.01
  {
    if a + 0.005 <= b - 0.005 { ProductMonotone(a + 0.005, b - 0.005, d); }
  }

  lemma {:induction false} SameHundredth(a: real, b: real)
    requires (a * 100.0).Floor as real == a * 100.0 && (b * 100.0).Floor as real == b * 100.0
    requires -0.01 < b - a < 0.01
    ensures a == b
  {
    var m, n := (a * 100.0).Floor, (b * 100.0).Floor;
    assert -1.0 < (n - m) as real < 1.0;
  }

  /** No other distance meets that description. */
  lemma {:induction false} LiesAtOnce(a: real, b: real, index: int, intervalNS: real, refractive: real)
    requires refractive > 0.0 && LiesAt(a, index, intervalNS, refractive) && LiesAt(b, index, intervalNS, refractive)
    ensures a == b
  {
    Closer(a, b, 0.149896229 * intervalNS * index as real, refractive);
    Closer(b, a, 0.149896229 * intervalNS * index as real, refractive);
    SameHundredth(a, b);
  }

  /** Later samples are never nearer, rounding included. */
  lemma SampleDistanceMonotone(i: int, j: int, intervalNS: real, refractive: real)
    requires 0 <= i <= j && ConvertibleSampling(intervalNS, refractive)
    ensures SampleDistance(i, intervalNS, refractive).Ok? && SampleDistance(j, intervalNS, refractive).Ok?
    ensures 0.0 <= SampleDistance(i, intervalNS, refractive).value <= SampleDistance(j, intervalNS, refractive).value
  {
    RawDistanceMonotone(i, j, intervalNS, refractive);
    Round2Monotone(0.0, RawDistance(i, intervalNS, refractive));
    Round2Monotone(RawDistance(i, intervalNS, refractive), RawDistance(j, intervalNS, refractive));
  }

  lemma RawDistanceMonotone(i: int, j: int, intervalNS: real, refractive: real)
    requires 0 <= i <= j && ConvertibleSampling(intervalNS, refractive)
    ensures 0.0 <= RawDistance(i, intervalNS, refractive) <= RawDistance(j, intervalNS, refractive)
  {
    RawDistanceLinear(i, intervalNS, refractive);
    RawDistanceLinear(j, intervalNS, refractive);
    var k := MetresPerSample(intervalNS, refractive);
    ProductMonotone(0.0, i as real, k);
    ProductMonotone(i as real, j as real, k);
  }
}
