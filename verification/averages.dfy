/** Durations, means and percentages as exact rationals, and `Number.prototype.toFixed(2)`
    applied to them. */
module Averages {

  const MsPerHour: int := 1000 * 60 * 60

  /** A duration in milliseconds expressed in hours. */
  function Hours(ms: int): (h: real)
    ensures (h >= 0.0) == (ms >= 0)
    ensures h * MsPerHour as real == ms as real
  {
    ms as real / MsPerHour as real
  }

  function Sum(xs: seq<real>): real {
    if xs == [] then 0.0 else Sum(xs[..|xs| - 1]) + xs[|xs| - 1]
  }

  /** `xs.reduce((a, b) => a + b, 0) / xs.length`, and 0 for an empty sample. */
  function Mean(xs: seq<real>): real {
    if |xs| > 0 then Sum(xs) / |xs| as real else 0.0
  }

  lemma {:induction false} SumBounds(xs: seq<real>, lo: real, hi: real)
    requires forall i | 0 <= i < |xs| :: lo <= xs[i] <= hi
    ensures |xs| as real * lo <= Sum(xs) <= |xs| as real * hi
  {
    if xs != [] {
      SumBounds(xs[..|xs| - 1], lo, hi);
    }
  }

  /** The mean of a non-empty sample lies between any bounds of its elements. */
  lemma MeanBounds(xs: seq<real>, lo: real, hi: real)
    requires |xs| > 0
    requires forall i | 0 <= i < |xs| :: lo <= xs[i] <= hi
    ensures lo <= Mean(xs) <= hi
  {
    SumBounds(xs, lo, hi);
    var n := |xs| as real;
    assert Sum(xs) / n >= lo by {
      assert Sum(xs) >= n * lo;
    }
    assert Sum(xs) / n <= hi by {
      assert Sum(xs) <= n * hi;
    }
  }

  /** `(part / whole) * 100`, and 0 when `whole` is 0. */
  function Percent(part: nat, whole: nat): (p: real)
    ensures whole == 0 ==> p == 0.0
    ensures part <= whole ==> 0.0 <= p <= 100.0
    ensures whole > 0 ==> p * whole as real == 100.0 * part as real
  {
    if whole > 0 then (part as real / whole as real) * 100.0 else 0.0
  }

  /** What `x.toFixed(2)` prints: a sign and a whole number of hundredths. */
  datatype Fixed2 = Fixed2(negative: bool, hundredths: nat)

  /** `x.toFixed(2)` on the exact value of `x`: the sign is printed for every negative `x`, and
      the magnitude is rounded to the nearest hundredth, halves upwards. */
  function ToFixed2(x: real): (f: Fixed2)
    ensures f.negative <==> x < 0.0
    ensures var magnitude := if x < 0.0 then -x else x;
            f.hundredths as real - 0.5 <= magnitude * 100.0 < f.hundredths as real + 0.5
  {
    var magnitude := if x < 0.0 then -x else x;
    Fixed2(x < 0.0, (magnitude * 100.0 + 0.5).Floor)
  }

}
