/**
 * The long-form scenario panel the two comparison scripts work on, the row
 * selection they apply to it (pyam's `filter` with `keep=True` or `keep=False`,
 * and the script's own row mask), and the fold split by (model, scenario).
 */
module Panel {
  import opened Wrappers

  /** One panel row: (model, scenario, region, variable, year, value). */
  datatype Row = Row(model: string, scenario: string, region: string, variable: string, year: int, value: real)

  type Panel = seq<Row>

  /** A cross-validation fold is keyed by a (model, scenario) pair. */
  datatype FoldKey = FoldKey(model: string, scenario: string)

  /** The (model, scenario, region) triple by which consistently splitting cases are listed. */
  datatype Case = Case(model: string, scenario: string, region: string)

  function KeyOf(r: Row): FoldKey { FoldKey(r.model, r.scenario) }

  function CaseOf(r: Row): Case { Case(r.model, r.scenario, r.region) }

  /** One condition of a row selection: a keyword of pyam's `filter`, or the case mask. */
  datatype Criterion =
    | ModelIs(model: string)
    | ScenarioIn(scenarios: set<string>)
    | RegionIs(region: string)
    | VariableIn(variables: set<string>)
    | YearIn(years: set<int>)
    | CaseIn(cases: set<Case>)

  predicate Holds(c: Criterion, r: Row)
  {
    match c
    case ModelIs(m) => r.model == m
    case ScenarioIn(ss) => r.scenario in ss
    case RegionIs(g) => r.region == g
    case VariableIn(vs) => r.variable in vs
    case YearIn(ys) => r.year in ys
    case CaseIn(cs) => CaseOf(r) in cs
  }

  /** A row matches a filter call when it meets every keyword given. */
  predicate MatchesAll(cs: seq<Criterion>, r: Row)
    decreases |cs|
  {
    cs == [] || (Holds(cs[0], r) && MatchesAll(cs[1..], r))
  }

  lemma MatchesOne(c: Criterion, r: Row)
    ensures MatchesAll([c], r) <==> Holds(c, r)
  {
    assert [c][1..] == [];
  }

  lemma MatchesTwo(c0: Criterion, c1: Criterion, r: Row)
    ensures MatchesAll([c0, c1], r) <==> Holds(c0, r) && Holds(c1, r)
  {
    assert [c0, c1][1..] == [c1];
    MatchesOne(c1, r);
  }

  lemma MatchesThree(c0: Criterion, c1: Criterion, c2: Criterion, r: Row)
    ensures MatchesAll([c0, c1, c2], r) <==> Holds(c0, r) && Holds(c1, r) && Holds(c2, r)
  {
    assert [c0, c1, c2][1..] == [c1, c2];
    MatchesTwo(c1, c2, r);
  }

  /**
   * `filter(**criteria, keep=keep)`: the rows, in their order, that match all
   * criteria (keep) or that fail at least one of them (not keep).
   */
  function Filter(p: Panel, cs: seq<Criterion>, keep: bool): (r: Panel)
    ensures |r| <= |p|
    ensures forall x :: x in r <==> x in p && MatchesAll(cs, x) == keep
  {
    if p == [] then []
    else
      var rest := Filter(p[1..], cs, keep);
      if MatchesAll(cs, p[0]) == keep then [p[0]] + rest else rest
  }

  /** Filtering with keep and with not keep splits the panel: no row lost, none duplicated. */
  lemma {:induction false} FilterSplits(p: Panel, cs: seq<Criterion>)
    ensures multiset(Filter(p, cs, true)) + multiset(Filter(p, cs, false)) == multiset(p)
  {
    if p != [] {
      FilterSplits(p[1..], cs);
      assert p == [p[0]] + p[1..];
    }
  }

  /** The keywords `model=key.model, scenario=key.scenario` of a fold filter. */
  function KeyCriteria(key: FoldKey): (cs: seq<Criterion>)
    ensures forall r :: MatchesAll(cs, r) <==> KeyOf(r) == key
  {
    var cs := [ModelIs(key.model), ScenarioIn({key.scenario})];
    assert forall r :: MatchesAll(cs, r) <==> KeyOf(r) == key by {
      forall r ensures MatchesAll(cs, r) <==> KeyOf(r) == key {
        MatchesTwo(cs[0], cs[1], r);
      }
    }
    cs
  }

  /** The held-out slice of a fold: `db_all.filter(model=..., scenario=...)`. */
  function HeldOut(p: Panel, key: FoldKey): (rows: Panel)
    ensures forall r :: r in rows <==> r in p && KeyOf(r) == key
  {
    Filter(p, KeyCriteria(key), true)
  }

  /** The training slice of a fold: `db_all.filter(model=..., scenario=..., keep=False)`. */
  function Training(p: Panel, key: FoldKey): (rows: Panel)
    ensures forall r :: r in rows <==> r in p && KeyOf(r) != key
  {
    Filter(p, KeyCriteria(key), false)
  }

  /**
   * No leakage: the training slice holds no row of the fold, the held-out slice
   * only rows of the fold, and together they are the panel, each row once.
   */
  lemma FoldPartition(p: Panel, key: FoldKey)
    ensures forall r :: r in Training(p, key) ==> r in p && KeyOf(r) != key
    ensures forall r :: r in HeldOut(p, key) ==> r in p && KeyOf(r) == key
    ensures multiset(HeldOut(p, key)) + multiset(Training(p, key)) == multiset(p)
  {
    FilterSplits(p, KeyCriteria(key));
  }

  function SetOf<T>(s: seq<T>): set<T>
  {
    set x | x in s
  }

  function VariablesOf(p: Panel): set<string>
  {
    set r | r in p :: r.variable
  }

  function ScenariosOf(p: Panel): set<string>
  {
    set r | r in p :: r.scenario
  }

  function YearSet(p: Panel): set<int>
  {
    set r | r in p :: r.year
  }

  function KeySet(p: Panel): set<FoldKey>
  {
    set r | r in p :: KeyOf(r)
  }

  /** The `value` column, in row order. */
  function ValuesOf(p: Panel): (vs: seq<real>)
    ensures |vs| == |p|
    ensures forall i :: 0 <= i < |p| ==> vs[i] == p[i].value
  {
    seq(|p|, i requires 0 <= i < |p| => p[i].value)
  }

  /** The `year` column, in row order (the index of `set_index("year")`). */
  function YearsOf(p: Panel): (ys: seq<int>)
    ensures |ys| == |p|
    ensures forall i :: 0 <= i < |p| ==> ys[i] == p[i].year
    ensures SetOf(ys) == YearSet(p)
  {
    var ys := seq(|p|, i requires 0 <= i < |p| => p[i].year);
    assert forall y :: y in ys ==> y in YearSet(p) by {
      forall y | y in ys ensures y in YearSet(p) {
        var i :| 0 <= i < |ys| && ys[i] == y;
        assert p[i] in p;
      }
    }
    assert forall y :: y in YearSet(p) ==> y in ys by {
      forall y | y in YearSet(p) ensures y in ys {
        var r :| r in p && r.year == y;
        var i :| 0 <= i < |p| && p[i] == r;
        assert ys[i] == y;
      }
    }
    ys
  }

  /** The value a year-indexed series holds for year y (its first row for y), or None. */
  function ValueAt(p: Panel, y: int): (v: Option<real>)
    ensures v.None? <==> y !in YearSet(p)
    ensures v.Some? ==> exists i :: 0 <= i < |p| && p[i].year == y && p[i].value == v.value
  {
    if p == [] then None
    else if p[0].year == y then Some(p[0].value)
    else
      assert p == [p[0]] + p[1..];
      var v := ValueAt(p[1..], y);
      assert v.Some? ==> exists i :: 1 <= i < |p| && p[i].year == y && p[i].value == v.value by {
        if v.Some? {
          var i :| 0 <= i < |p[1..]| && p[1..][i].year == y && p[1..][i].value == v.value;
          assert p[i + 1] == p[1..][i];
        }
      }
      v
  }

  /**
   * The distinct (model, scenario) pairs of a panel, each once, in order of
   * first appearance: `groupby(["model", "scenario"]).size().index`.
   */
  function FoldKeys(p: Panel): (ks: seq<FoldKey>)
    ensures SetOf(ks) == KeySet(p)
    ensures forall i, j :: 0 <= i < j < |ks| ==> ks[i] != ks[j]
    decreases |p|
  {
    if p == [] then []
    else
      var front := p[..|p| - 1];
      var ks := FoldKeys(front);
      var k := KeyOf(p[|p| - 1]);
      assert p == front + [p[|p| - 1]];
      assert KeySet(p) == KeySet(front) + {k};
      if k in ks then ks else ks + [k]
  }

  /** The folds a run evaluates: the explicit list when one is given (non-empty), else every fold of the panel. */
  function FoldsToRun(explicit: seq<FoldKey>, p: Panel): (ks: seq<FoldKey>)
    ensures |explicit| > 0 ==> ks == explicit
    ensures |explicit| == 0 ==> SetOf(ks) == KeySet(p) && forall i, j :: 0 <= i < j < |ks| ==> ks[i] != ks[j]
  {
    if |explicit| > 0 then explicit else FoldKeys(p)
  }

  /** Rows with pairwise distinct years. */
  predicate DistinctYears(p: Panel)
  {
    forall i, j :: 0 <= i < j < |p| ==> p[i].year != p[j].year
  }

  /** A year that occurs again later in the panel is a repeated year. */
  lemma RepeatedFirstYear(p: Panel)
    requires p != [] && p[0].year in YearSet(p[1..])
    ensures !DistinctYears(p)
  {
    var r :| r in p[1..] && r.year == p[0].year;
    var k :| 0 <= k < |p[1..]| && p[1..][k] == r;
    assert p[0].year == p[k + 1].year;
  }

  /** A first year that never recurs leaves distinctness to the rest. */
  lemma FreshFirstYear(p: Panel)
    requires p != [] && p[0].year !in YearSet(p[1..])
    ensures DistinctYears(p) <==> DistinctYears(p[1..])
  {
    var rest := p[1..];
    if DistinctYears(rest) {
      forall i, j | 0 <= i < j < |p| ensures p[i].year != p[j].year {
        assert p[j] == rest[j - 1];
        if i > 0 {
          assert p[i] == rest[i - 1];
        }
      }
    }
    if DistinctYears(p) {
      forall i, j | 0 <= i < j < |rest| ensures rest[i].year != rest[j].year {
        assert rest[i] == p[i + 1] && rest[j] == p[j + 1];
      }
    }
  }

  lemma YearSetCons(p: Panel)
    requires p != []
    ensures YearSet(p) == {p[0].year} + YearSet(p[1..])
  {
    assert p == [p[0]] + p[1..];
  }

  /** `frame["year"].size == frame["year"].unique().size` holds exactly when no year repeats. */
  lemma {:induction false} YearCountIffDistinct(p: Panel)
    ensures |YearSet(p)| <= |p|
    ensures |YearSet(p)| == |p| <==> DistinctYears(p)
  {
    if p != [] {
      YearCountIffDistinct(p[1..]);
      YearSetCons(p);
      if p[0].year in YearSet(p[1..]) {
        RepeatedFirstYear(p);
      } else {
        FreshFirstYear(p);
      }
    }
  }
}
