/**
 Arithmetic of the algorithm package over the reals.  The source computes in float64; rounding of
 intermediate results is not modelled, rounding by `math.Round` is.
 */
module Numbers {

  function Abs(x: real): (r: real)
    ensures r >= 0.0 && (r == x || r == -x)
  {
    if x < 0.0 then -x else x
  }

  function MinReal(x: real, y: real): (r: real)
    ensures r <= x && r <= y && (r == x || r == y)
  {
    if x <= y then x else y
  }

  function MaxReal(x: real, y: real): (r: real)
    ensures x <= r && y <= r && (r == x || r == y)
  {
    if x <= y then y else x
  }

  /** `math.Round`: to the nearest integer, halves away from zero. */
  function RoundHalfAway(x: real): int {
    if x < 0.0 then -((0.5 - x).Floor) else (x + 0.5).Floor
  }

  /** `round` of the algorithm package: three decimals. */
  function Round3(x: real): real {
    RoundHalfAway(x * 1000.0) as real / 1000.0
  }

  /** The two-decimal rounding of distances. */
  function Round2(x: real): real {
    RoundHalfAway(x * 100.0) as real / 100.0
  }

  /** The result is `n` exactly on the unit interval around `n`, whose end nearer to zero it includes. */
  lemma {:induction false} RoundHalfAwayExactly(x: real, n: int)
    ensures RoundHalfAway(x) == n
       <==> if x < 0.0 then n as real - 0.5 < x <= n as real + 0.5 else n as real - 0.5 <= x < n as real + 0.5
  {
    var m := RoundHalfAway(x);
    assert if x < 0.0 then m as real - 0.5 < x <= m as real + 0.5 else m as real - 0.5 <= x < m as real + 0.5;
    if m != n { assert (m - n) as real >= 1.0 || (m - n) as real <= -1.0; }
  }

  /** The number of thousandths nearest to `x`, halves away from zero. */
  lemma {:induction false} Round3Nearest(x: real) returns (n: int)
    ensures Round3(x) == n as real / 1000.0
    ensures if x < 0.0 then n as real - 0.5 < x * 1000.0 <= n as real + 0.5
            else n as real - 0.5 <= x * 1000.0 < n as real + 0.5
  {
    n := RoundHalfAway(x * 1000.0);
    RoundHalfAwayExactly(x * 1000.0, n);
  }

  /** The number of hundredths nearest to `x`, halves away from zero. */
  lemma {:induction false} Round2Nearest(x: real) returns (n: int)
    ensures Round2(x) == n as real / 100.0
    ensures if x < 0.0 then n as real - 0.5 < x * 100.0 <= n as real + 0.5
            else n as real - 0.5 <= x * 100.0 < n as real + 0.5
  {
    n := RoundHalfAway(x * 100.0);
    RoundHalfAwayExactly(x * 100.0, n);
  }

  lemma RoundHalfAwayMonotone(x: real, y: real)
    requires x <= y
    ensures RoundHalfAway(x) <= RoundHalfAway(y)
  {
  }

  lemma RoundHalfAwayInteger(n: int)
    ensures RoundHalfAway(n as real) == n
  {
  }

  /** Rounding keeps every interval whose end points are themselves representable. */
  lemma {:induction false} Round3Within(lo: int, x: real, hi: int)
    requires lo as real / 1000.0 <= x <= hi as real / 1000.0
    ensures lo as real / 1000.0 <= Round3(x) <= hi as real / 1000.0
  {
    RoundHalfAwayInteger(lo);
    RoundHalfAwayInteger(hi);
    RoundHalfAwayMonotone(lo as real, x * 1000.0);
    RoundHalfAwayMonotone(x * 1000.0, hi as real);
  }

  lemma Round2Monotone(x: real, y: real)
    requires x <= y
    ensures Round2(x) <= Round2(y)
  {
    RoundHalfAwayMonotone(x * 100.0, y * 100.0);
  }

  lemma Round3Fixed(n: int)
    ensures Round3(n as real / 1000.0) == n as real / 1000.0
  {
    RoundHalfAwayInteger(n);
  }

  lemma ProductMonotone(x: real, y: real, k: real)
    requires x <= y && 0.0 <= k
    ensures x * k <= y * k
  {
  }

  lemma ProductStrict(x: real, y: real, k: real)
    requires x < y && 0.0 < k
    ensures x * k < y * k
  {
    assert (y - x) * k > 0.0;
  }

  /** A peak at or above its threshold contributes at least a tenth to the confidence. */
  lemma RatioAtLeastTenth(magnitude: real, threshold: real)
    requires 0.0 < threshold <= magnitude
    ensures magnitude / (threshold * 10.0) >= 0.1
  {
    var q := magnitude / (threshold * 10.0);
    assert q * (threshold * 10.0) == magnitude;
    var d := 0.1 - q;
    assert d * (threshold * 10.0) == threshold - magnitude;
    if d > 0.0 {
      assert false;
    }
  }
}
