/**
 * np.mean and np.std over exact reals. The standard deviation is kept as its square,
 * the population variance: every comparison the render script makes against a
 * standard deviation is restated on squares (see TiePoints).
 */
module Stats {

  function Sum(s: seq<real>): real
  {
    if s == [] then 0.0 else Sum(s[..|s| - 1]) + s[|s| - 1]
  }

  /** np.mean */
  function Mean(s: seq<real>): real
    requires |s| > 0
  {
    Sum(s) / (|s| as real)
  }

  function SquaredDeviations(s: seq<real>, c: real): (d: seq<real>)
    ensures |d| == |s|
    ensures forall i :: 0 <= i < |s| ==> d[i] == (s[i] - c) * (s[i] - c)
  {
    seq(|s|, i requires 0 <= i < |s| => (s[i] - c) * (s[i] - c))
  }

  /** np.std(s) ** 2: the population variance (ddof = 0). */
  function Variance(s: seq<real>): real
    requires |s| > 0
  {
    Mean(SquaredDeviations(s, Mean(s)))
  }

  /** `std` is the standard deviation belonging to `variance`. */
  predicate IsStd(std: real, variance: real) {
    std >= 0.0 && std * std == variance
  }

  lemma {:induction false} SumBounds(s: seq<real>, lo: real, hi: real)
    requires forall i :: 0 <= i < |s| ==> lo <= s[i] <= hi
    ensures (|s| as real) * lo <= Sum(s) <= (|s| as real) * hi
  {
    if s != [] {
      var n := |s| - 1;
      SumBounds(s[..n], lo, hi);
      assert (n as real) * lo + lo == (|s| as real) * lo;
      assert (n as real) * hi + hi == (|s| as real) * hi;
    }
  }

  /** The mean lies within any bounds of the samples. */
  lemma MeanBounds(s: seq<real>, lo: real, hi: real)
    requires |s| > 0
    requires forall i :: 0 <= i < |s| ==> lo <= s[i] <= hi
    ensures lo <= Mean(s) <= hi
  {
    SumBounds(s, lo, hi);
    var n := |s| as real;
    assert Sum(s) / n >= (n * lo) / n;
    assert Sum(s) / n <= (n * hi) / n;
  }

  lemma VarianceNonNegative(s: seq<real>)
    requires |s| > 0
    ensures Variance(s) >= 0.0
  {
    var d := SquaredDeviations(s, Mean(s));
    forall i | 0 <= i < |d| ensures d[i] >= 0.0 {
      var e := s[i] - Mean(s);
      assert d[i] == e * e;
    }
    MeanBounds(d, 0.0, MaxOf(d));
  }

  function MaxOf(s: seq<real>): (m: real)
    requires |s| > 0
    ensures forall i :: 0 <= i < |s| ==> s[i] <= m
  {
    if |s| == 1 then s[0]
    else
      var m := MaxOf(s[..|s| - 1]);
      if s[|s| - 1] > m then s[|s| - 1] else m
  }

  /** Samples that are all equal have that value as mean and no spread. */
  lemma ConstantSamples(s: seq<real>, c: real)
    requires |s| > 0
    requires forall i :: 0 <= i < |s| ==> s[i] == c
    ensures Mean(s) == c && Variance(s) == 0.0
  {
    MeanBounds(s, c, c);
    MeanBounds(SquaredDeviations(s, c), 0.0, 0.0);
  }

  /** The elevations {10, 10, 10, 40}: mean 17.5 and population variance 168.75. */
  lemma FourSampleExample()
    ensures Mean([10.0, 10.0, 10.0, 40.0]) == 17.5
    ensures Variance([10.0, 10.0, 10.0, 40.0]) == 168.75
  {
    var s := [10.0, 10.0, 10.0, 40.0];
    assert s[..3] == [10.0, 10.0, 10.0] && s[..3][..2] == [10.0, 10.0] && s[..3][..2][..1] == [10.0];
    assert Sum([10.0]) == 10.0;
    assert Sum([10.0, 10.0]) == 20.0;
    assert Sum([10.0, 10.0, 10.0]) == 30.0;
    assert Sum(s) == 70.0;
    var d := SquaredDeviations(s, 17.5);
    assert d == [56.25, 56.25, 56.25, 506.25];
    assert d[..3] == [56.25, 56.25, 56.25] && d[..3][..2] == [56.25, 56.25] && d[..3][..2][..1] == [56.25];
    assert Sum([56.25]) == 56.25;
    assert Sum([56.25, 56.25]) == 112.5;
    assert Sum([56.25, 56.25, 56.25]) == 168.75;
    assert Sum(d) == 675.0;
  }
}
