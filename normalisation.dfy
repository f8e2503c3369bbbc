/**
 * The normalisation factor: per (variable, year), NumPy's population standard
 * deviation of the value over every row of the whole panel `db_all` with that
 * variable and year.
 */
module Normalisation {
  import opened Wrappers
  import opened Panel
  import opened Stats

  /** `db_all.filter(year=y, variable=v).data["value"]`. */
  function ValuesAt(p: Panel, v: string, y: int): seq<real>
  {
    ValuesOf(Filter(p, [YearIn({y}), VariableIn({v})], true))
  }

  lemma MatchesYearAndVariable(v: string, y: int)
    ensures forall r :: MatchesAll([YearIn({y}), VariableIn({v})], r) <==> r.year == y && r.variable == v
  {
    forall r {
      MatchesTwo(YearIn({y}), VariableIn({v}), r);
    }
  }

  /** `np.std(db_all.filter(year=y, variable=v).data["value"])`; NaN (None) when no row matches. */
  function StdAt(p: Panel, v: string, y: int, sqrt: real -> real): Option<real>
  {
    PopulationStd(ValuesAt(p, v, y), sqrt)
  }

  /** The factor for every year of `years`, and for no other year. */
  function NormFactors(p: Panel, v: string, years: set<int>, sqrt: real -> real): (norm: map<int, Option<real>>)
    ensures norm.Keys == years
  {
    map y | y in years :: StdAt(p, v, y, sqrt)
  }

  /** Normalisation non-negativity: every computed factor is NaN or at least 0. */
  lemma NormFactorNonNegative(p: Panel, v: string, years: set<int>, sqrt: real -> real, y: int)
    requires IsSqrt(sqrt)
    requires y in years
    ensures NormFactors(p, v, years, sqrt)[y].Some? ==> NormFactors(p, v, years, sqrt)[y].value >= 0.0
  {
    StdNonNegative(ValuesAt(p, v, y), sqrt);
  }

  /** A factor is defined (not NaN) exactly when the panel has a row of that variable in that year. */
  lemma NormFactorDefinedIff(p: Panel, v: string, y: int, sqrt: real -> real)
    ensures StdAt(p, v, y, sqrt).Some? <==> exists r :: r in p && r.variable == v && r.year == y
  {
    var matching := Filter(p, [YearIn({y}), VariableIn({v})], true);
    MatchesYearAndVariable(v, y);
    if exists r :: r in p && r.variable == v && r.year == y {
      var r :| r in p && r.variable == v && r.year == y;
      assert r in matching;
    }
  }

  /**
   * Where every row of that variable and year carries the same value, in
   * particular where there is only one, the factor is exactly 0.
   */
  lemma NoSpreadMeansZeroFactor(p: Panel, v: string, y: int, c: real, sqrt: real -> real)
    requires IsSqrt(sqrt)
    requires exists r :: r in p && r.variable == v && r.year == y
    requires forall r :: r in p && r.variable == v && r.year == y ==> r.value == c
    ensures StdAt(p, v, y, sqrt) == Some(0.0)
  {
    NormFactorDefinedIff(p, v, y, sqrt);
    var matching := Filter(p, [YearIn({y}), VariableIn({v})], true);
    MatchesYearAndVariable(v, y);
    var xs := ValuesAt(p, v, y);
    forall i | 0 <= i < |xs| ensures xs[i] == c {
      assert matching[i] in matching;
    }
    ConstantValuesHaveZeroStd(xs, c, sqrt);
  }

  /**
   * The loop `for year in index: norm_factor[year] = np.std(...)`: the series
   * `norm0` afterwards holds the factor of every year in `years`, other
   * entries as they were.
   */
  method FillNormFactors(norm0: map<int, Option<real>>, p: Panel, v: string, years: seq<int>, sqrt: real -> real)
    returns (norm: map<int, Option<real>>)
    ensures norm == norm0 + NormFactors(p, v, SetOf(years), sqrt)
  {
    norm := norm0;
    var i := 0;
    while i < |years|
      invariant 0 <= i <= |years|
      invariant norm == norm0 + NormFactors(p, v, SetOf(years[..i]), sqrt)
    {
      AddNormFactor(norm0, p, v, years, i, sqrt);
      norm := norm[years[i] := StdAt(p, v, years[i], sqrt)];
      i := i + 1;
    }
    assert years[..i] == years;
  }

  /** One iteration of that loop: setting the factor of `years[i]` extends the filled prefix by one year. */
  lemma AddNormFactor(norm0: map<int, Option<real>>, p: Panel, v: string, years: seq<int>, i: nat, sqrt: real -> real)
    requires i < |years|
    ensures (norm0 + NormFactors(p, v, SetOf(years[..i]), sqrt))[years[i] := StdAt(p, v, years[i], sqrt)]
         == norm0 + NormFactors(p, v, SetOf(years[..i + 1]), sqrt)
  {
    assert SetOf(years[..i + 1]) == SetOf(years[..i]) + {years[i]} by {
      assert years[..i + 1] == years[..i] + [years[i]];
    }
  }
}
