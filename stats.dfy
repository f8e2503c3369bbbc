/**
 * The statistics the scoring uses, over unbounded reals: sums, means and NumPy's
 * population standard deviation (`np.std`, ddof = 0). The square root is not
 * computed here: it is a parameter of every function that needs it, and the
 * lemmas that rely on it being a square root say so with `IsSqrt`.
 */
module Stats {
  import opened Wrappers

  function Sum(xs: seq<real>): real
  {
    if xs == [] then 0.0 else xs[0] + Sum(xs[1..])
  }

  function Mean(xs: seq<real>): real
    requires |xs| > 0
  {
    Sum(xs) / |xs| as real
  }

  function Square(x: real): (r: real)
    ensures r >= 0.0
  {
    x * x
  }

  function Abs(x: real): real
  {
    if x < 0.0 then -x else x
  }

  /**
   * The square root on non-negative reals: never negative, and the inverse of
   * squaring a non-negative real.
   */
  ghost predicate IsSqrt(sqrt: real -> real)
  {
    && (forall y: real :: 0.0 <= y ==> 0.0 <= sqrt(y))
    && (forall x: real :: sqrt(Square(x)) == Abs(x))
  }

  /** The squared deviations of the values from m. */
  function Deviations(xs: seq<real>, m: real): (ds: seq<real>)
    ensures |ds| == |xs|
    ensures forall i :: 0 <= i < |xs| ==> ds[i] == Square(xs[i] - m)
  {
    seq(|xs|, i requires 0 <= i < |xs| => Square(xs[i] - m))
  }

  /** The population variance: the mean squared deviation from the mean. */
  function Variance(xs: seq<real>): (v: real)
    requires |xs| > 0
    ensures v >= 0.0
  {
    var ds := Deviations(xs, Mean(xs));
    SumNonNegative(ds);
    Mean(ds)
  }

  /** `np.std(values)`: NaN (None) for no values, else the root of the population variance. */
  function PopulationStd(xs: seq<real>, sqrt: real -> real): Option<real>
  {
    if |xs| == 0 then None else Some(sqrt(Variance(xs)))
  }

  lemma {:induction false} SumNonNegative(xs: seq<real>)
    requires forall i :: 0 <= i < |xs| ==> xs[i] >= 0.0
    ensures Sum(xs) >= 0.0
  {
    if xs != [] {
      SumNonNegative(xs[1..]);
    }
  }

  /** A sum of n copies of c is n * c. */
  lemma {:induction false} SumConstant(xs: seq<real>, c: real)
    requires forall i :: 0 <= i < |xs| ==> xs[i] == c
    ensures Sum(xs) == |xs| as real * c
  {
    if xs != [] {
      SumConstant(xs[1..], c);
    }
  }

  lemma MeanConstant(xs: seq<real>, c: real)
    requires |xs| > 0
    requires forall i :: 0 <= i < |xs| ==> xs[i] == c
    ensures Mean(xs) == c
  {
    SumConstant(xs, c);
  }

  /** A mean of non-negative values is non-negative. */
  lemma MeanNonNegative(xs: seq<real>)
    requires |xs| > 0
    requires forall i :: 0 <= i < |xs| ==> xs[i] >= 0.0
    ensures Mean(xs) >= 0.0
  {
    SumNonNegative(xs);
  }

  lemma SqrtOfZero(sqrt: real -> real)
    requires IsSqrt(sqrt)
    ensures sqrt(0.0) == 0.0
  {
    assert sqrt(Square(0.0)) == Abs(0.0);
  }

  /** `np.std` is NaN exactly for no values, and otherwise never negative. */
  lemma StdNonNegative(xs: seq<real>, sqrt: real -> real)
    requires IsSqrt(sqrt)
    ensures PopulationStd(xs, sqrt).None? <==> |xs| == 0
    ensures PopulationStd(xs, sqrt).Some? ==> PopulationStd(xs, sqrt).value >= 0.0
  {
  }

  /** Values all equal (in particular a single value) have no spread: `np.std` is exactly 0. */
  lemma ConstantValuesHaveZeroStd(xs: seq<real>, c: real, sqrt: real -> real)
    requires IsSqrt(sqrt)
    requires |xs| > 0
    requires forall i :: 0 <= i < |xs| ==> xs[i] == c
    ensures PopulationStd(xs, sqrt) == Some(0.0)
  {
    MeanConstant(xs, c);
    var ds := Deviations(xs, Mean(xs));
    MeanConstant(ds, 0.0);
    SqrtOfZero(sqrt);
  }
}
