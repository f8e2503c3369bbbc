/**
 * scripts/compare_extenders.py. For every (model, scenario) fold the
 * fold's values after the test year are withheld, each projector is built on
 * the other folds' rows of the scenarios that report the variable and extends
 * the fold's remaining rows, and each variable is scored by the root mean
 * square of its residuals normalised by the spread of `db_all`; the fold
 * tables are then averaged cell by cell.
 */
module CompareExtenders {
  import opened Wrappers
  import opened Panel
  import opened Stats
  import opened Results
  import opened Normalisation
  import opened Grid

  /**
   * A projector class:
   * `projector(db).derive_relationship(variable, **options)(input_to_fill)`
   * as a function of the training panel, the variable, the options and the input rows.
   */
  type Projector = (Panel, string, Options, Panel) -> Panel

  /** The input options of `main`; the single leader is `leaders[0]`. */
  datatype Config = Config(
    projectors: seq<Projector>,
    options: seq<Options>,
    names: seq<string>,
    leader: string,
    vars: seq<string>,
    years: seq<int>,
    testYear: int,
    toCompare: seq<FoldKey>)

  /** The two length assertions of `main`. */
  predicate ListsAgree(cfg: Config)
  {
    |cfg.projectors| == |cfg.names| && |cfg.options| == |cfg.names|
  }

  /** `[year for year in years if year > test_year]`, in the order of `years`. */
  function YearsToInvestigate(years: seq<int>, testYear: int): (yti: seq<int>)
    ensures |yti| <= |years|
    ensures forall y :: y in yti <==> y in years && y > testYear
  {
    if years == [] then []
    else (if years[0] > testYear then [years[0]] else []) + YearsToInvestigate(years[1..], testYear)
  }

  /** `filter(region="World", year=years)` then `filter(variable=variables_investigated)`. */
  function SelectPanel(raw: Panel, cfg: Config): Panel
  {
    Filter(Filter(raw, [RegionIs("World"), YearIn(SetOf(cfg.years))], true), [VariableIn(SetOf(cfg.vars))], true)
  }

  // ---- one fold -------------------------------------------------------------------------

  /** `input_to_fill`: the fold's rows outside the investigated years. */
  function InputToFill(investigated: Panel, yti: seq<int>): Panel
  {
    Filter(investigated, [YearIn(SetOf(yti))], false)
  }

  /** `db`: the rows of `db_filter` whose scenario reports v somewhere in `db_filter`. */
  function ExtendTraining(dbFilter: Panel, v: string): Panel
  {
    Filter(dbFilter, [ScenarioIn(ScenariosOf(Filter(dbFilter, [VariableIn({v})], true)))], true)
  }

  /** `originals`: the fold's withheld rows of v in the investigated years. */
  function ExtendOriginals(investigated: Panel, v: string, yti: seq<int>): Panel
  {
    Filter(investigated, [VariableIn({v}), YearIn(SetOf(yti))], true)
  }

  /** One entry of `((interp_values - originals) / norm_factor) ** 2`, aligned on the year. */
  datatype Term = Finite(square: real) | NotANumber | Infinite

  /**
   * NaN unless both the originals and the norm factor have the year; x / 0 is
   * +inf for x != 0 and NaN for x == 0.
   */
  function TermAt(r: Row, truth: Panel, norm: map<int, Option<real>>): (term: Term)
    ensures term.Finite? ==> term.square >= 0.0
    ensures term.Infinite? ==> r.year in norm && norm[r.year] == Some(0.0)
  {
    var t := ValueAt(truth, r.year);
    if t.None? || r.year !in norm || norm[r.year].None? then NotANumber
    else if norm[r.year].value != 0.0 then Finite(Square((r.value - t.value) / norm[r.year].value))
    else if r.value == t.value then NotANumber
    else Infinite
  }

  /** The finite entries, in row order. */
  function FiniteSquares(pred: Panel, truth: Panel, norm: map<int, Option<real>>): (sq: seq<real>)
    ensures |sq| <= |pred|
    ensures forall i :: 0 <= i < |sq| ==> sq[i] >= 0.0
  {
    if pred == [] then []
    else
      var rest := FiniteSquares(pred[1..], truth, norm);
      match TermAt(pred[0], truth, norm)
      case Finite(s) => [s] + rest
      case _ => rest
  }

  predicate SomeInfinite(pred: Panel, truth: Panel, norm: map<int, Option<real>>)
  {
    exists i :: 0 <= i < |pred| && TermAt(pred[i], truth, norm).Infinite?
  }

  /** `np.nanmean(...) ** 0.5`: +inf once any entry is +inf, NaN when every entry is NaN. */
  function ExtendScore(pred: Panel, truth: Panel, norm: map<int, Option<real>>, sqrt: real -> real): Cell
  {
    var sq := FiniteSquares(pred, truth, norm);
    if SomeInfinite(pred, truth, norm) then Unbounded
    else if |sq| == 0 then Missing
    else Score(sqrt(Mean(sq)))
  }

  /**
   * The variable loop body on the fold's rows, its input, the training
   * panel `db_filter` and one projector: the last-year zero-norm skip, the
   * empty-originals skip, the duplicate-year assertion and the score.
   */
  function StepOn(
    dbAll: Panel, investigated: Panel, inputToFill: Panel, dbFilter: Panel,
    projector: Projector, options: Options, v: string, yti: seq<int>, sqrt: real -> real): Step
  {
    if |yti| == 0 then Abort(UnboundYear)
    else
      var norm := NormFactors(dbAll, v, SetOf(yti), sqrt);
      var originals := ExtendOriginals(investigated, v, yti);
      if norm[yti[|yti| - 1]] == Some(0.0) then Skip
      else if |originals| == 0 then Skip
      else
        var interpolated := projector(ExtendTraining(dbFilter, v), v, options, inputToFill);
        if |interpolated| != |YearSet(interpolated)| then Abort(DuplicateYears)
        else Write(ExtendScore(interpolated, originals, norm, sqrt))
  }

  function Investigated(cfg: Config): seq<int>
  {
    YearsToInvestigate(cfg.years, cfg.testYear)
  }

  function ExtendStep(cfg: Config, dbAll: Panel, key: FoldKey, sqrt: real -> real, p: nat, v: string): Step
    requires p < |cfg.projectors| && ListsAgree(cfg)
  {
    var yti := Investigated(cfg);
    var investigated := HeldOut(dbAll, key);
    StepOn(dbAll, investigated, InputToFill(investigated, yti), Training(dbAll, key),
      cfg.projectors[p], cfg.options[p], v, yti, sqrt)
  }

  /** The steps of projector p, one per variable. */
  function ExtendRow(cfg: Config, dbAll: Panel, key: FoldKey, sqrt: real -> real, p: nat): (row: seq<Step>)
    requires p < |cfg.projectors| && ListsAgree(cfg)
    ensures |row| == |cfg.vars|
  {
    seq(|cfg.vars|, j requires 0 <= j < |cfg.vars| => ExtendStep(cfg, dbAll, key, sqrt, p, cfg.vars[j]))
  }

  function ExtendGrid(cfg: Config, dbAll: Panel, key: FoldKey, sqrt: real -> real): (grid: seq<seq<Step>>)
    requires ListsAgree(cfg)
    ensures IsGrid(grid, cfg.vars, cfg.names)
  {
    seq(|cfg.names|, p requires 0 <= p < |cfg.names| => ExtendRow(cfg, dbAll, key, sqrt, p))
  }

  /** The fold's leader check: `leaders in input_to_fill.variables()`. */
  predicate LeaderPresent(cfg: Config, dbAll: Panel, key: FoldKey)
  {
    cfg.leader in VariablesOf(InputToFill(HeldOut(dbAll, key), Investigated(cfg)))
  }

  /** `_recalc_and_compare_results` for one fold key. */
  function ExtendFold(cfg: Config, dbAll: Panel, key: FoldKey, sqrt: real -> real): Result<Table>
    requires ListsAgree(cfg)
  {
    if !LeaderPresent(cfg, dbAll, key) then Ok(Fresh(cfg.vars, cfg.names))
    else WriteGrid(Fresh(cfg.vars, cfg.names), cfg.vars, cfg.names, ExtendGrid(cfg, dbAll, key, sqrt), 0)
  }

  /**
   * Lines 134-163 for one variable. `norm` is the shared `norm_factor` series,
   * refilled year by year, and `year` the loop variable, still bound from an
   * earlier pass or unbound (None).
   */
  method ExtendVariable(
    dbAll: Panel, investigated: Panel, inputToFill: Panel, dbFilter: Panel,
    projector: Projector, options: Options, v: string, yti: seq<int>, sqrt: real -> real,
    norm0: map<int, Option<real>>, year0: Option<int>)
    returns (step: Step, norm: map<int, Option<real>>, year: Option<int>)
    requires norm0.Keys == SetOf(yti)
    requires year0.Some? ==> |yti| > 0 && year0.value == yti[|yti| - 1]
    ensures step == StepOn(dbAll, investigated, inputToFill, dbFilter, projector, options, v, yti, sqrt)
    ensures norm == NormFactors(dbAll, v, SetOf(yti), sqrt)
    ensures year.Some? <==> |yti| > 0
    ensures year.Some? ==> year.value == yti[|yti| - 1]
  {
    norm := FillNormFactors(norm0, dbAll, v, yti, sqrt);
    assert norm == NormFactors(dbAll, v, SetOf(yti), sqrt);
    year := if |yti| > 0 then Some(yti[|yti| - 1]) else year0;
    if year.None? {
      return Abort(UnboundYear), norm, year;
    }
    if norm[year.value] == Some(0.0) {
      return Skip, norm, year;
    }
    var originals := Filter(investigated, [VariableIn({v}), YearIn(SetOf(yti))], true);
    if |originals| == 0 {
      return Skip, norm, year;
    }
    var validScenarios := ScenariosOf(Filter(dbFilter, [VariableIn({v})], true));
    var db := Filter(dbFilter, [ScenarioIn(validScenarios)], true);
    var interpolated := projector(db, v, options, inputToFill);
    if |interpolated| != |YearSet(interpolated)| {
      return Abort(DuplicateYears), norm, year;
    }
    step := Write(ExtendScore(interpolated, originals, norm, sqrt));
  }

  /** Step j of projector p's row, spelled out as the variable loop computes it. */
  lemma RowEntry(
    cfg: Config, dbAll: Panel, key: FoldKey, sqrt: real -> real, p: nat, j: nat,
    investigated: Panel, inputToFill: Panel, dbFilter: Panel)
    requires p < |cfg.projectors| && ListsAgree(cfg) && j < |cfg.vars|
    requires investigated == HeldOut(dbAll, key) && dbFilter == Training(dbAll, key)
    requires inputToFill == InputToFill(investigated, Investigated(cfg))
    ensures ExtendRow(cfg, dbAll, key, sqrt, p)[j] ==
      StepOn(dbAll, investigated, inputToFill, dbFilter, cfg.projectors[p], cfg.options[p], cfg.vars[j], Investigated(cfg), sqrt)
  {
  }

  /** Lines 133-163: the variable loop of projector p, writing its cells of `results_db`. */
  method RunProjector(
    cfg: Config, dbAll: Panel, key: FoldKey, sqrt: real -> real, p: nat,
    investigated: Panel, inputToFill: Panel, dbFilter: Panel,
    table0: Table, norm0: map<int, Option<real>>, year0: Option<int>)
    returns (res: Result<Table>, norm: map<int, Option<real>>, year: Option<int>)
    requires p < |cfg.projectors| && ListsAgree(cfg)
    requires investigated == HeldOut(dbAll, key) && dbFilter == Training(dbAll, key)
    requires inputToFill == InputToFill(investigated, Investigated(cfg))
    requires norm0.Keys == SetOf(Investigated(cfg))
    requires year0.Some? ==> |Investigated(cfg)| > 0 && year0.value == Investigated(cfg)[|Investigated(cfg)| - 1]
    ensures res == WriteRow(table0, cfg.vars, cfg.names[p], ExtendRow(cfg, dbAll, key, sqrt, p), 0)
    ensures norm.Keys == SetOf(Investigated(cfg))
    ensures year.Some? ==> |Investigated(cfg)| > 0 && year.value == Investigated(cfg)[|Investigated(cfg)| - 1]
  {
    var yti := Investigated(cfg);
    ghost var row := ExtendRow(cfg, dbAll, key, sqrt, p);
    var table := table0;
    norm, year := norm0, year0;
    var j := 0;
    while j < |cfg.vars|
      invariant 0 <= j <= |cfg.vars|
      invariant norm.Keys == SetOf(yti)
      invariant year.Some? ==> |yti| > 0 && year.value == yti[|yti| - 1]
      invariant WriteRow(table0, cfg.vars, cfg.names[p], row, 0) == WriteRow(table, cfg.vars, cfg.names[p], row, j)
    {
      var step;
      step, norm, year := ExtendVariable(dbAll, investigated, inputToFill, dbFilter,
        cfg.projectors[p], cfg.options[p], cfg.vars[j], yti, sqrt, norm, year);
      RowEntry(cfg, dbAll, key, sqrt, p, j, investigated, inputToFill, dbFilter);
      assert step == row[j];
      RowAdvance(table, cfg.vars, cfg.names[p], row, j);
      if step.Abort? {
        return Err(step.failure), norm, year;
      } else if step.Write? {
        table := table[(cfg.vars[j], cfg.names[p]) := step.cell];
      }
      j := j + 1;
    }
    return Ok(table), norm, year;
  }

  /** Lines 114-165, with `results_db` filled in place. */
  method RecalcAndCompare(cfg: Config, dbAll: Panel, key: FoldKey, sqrt: real -> real) returns (res: Result<Table>)
    requires ListsAgree(cfg)
    ensures res == ExtendFold(cfg, dbAll, key, sqrt)
  {
    var yti := Investigated(cfg);
    var investigated := Filter(dbAll, KeyCriteria(key), true);
    var inputToFill := Filter(investigated, [YearIn(SetOf(yti))], false);
    var table := Fresh(cfg.vars, cfg.names);
    if cfg.leader !in VariablesOf(inputToFill) {
      return Ok(table);
    }
    var dbFilter := Filter(dbAll, KeyCriteria(key), false);
    var norm: map<int, Option<real>> := map y | y in yti :: None;
    var year: Option<int> := None;
    var p := 0;
    while p < |cfg.projectors|
      invariant 0 <= p <= |cfg.projectors|
      invariant norm.Keys == SetOf(yti)
      invariant year.Some? ==> |yti| > 0 && year.value == yti[|yti| - 1]
      invariant ExtendFold(cfg, dbAll, key, sqrt) == WriteGrid(table, cfg.vars, cfg.names, ExtendGrid(cfg, dbAll, key, sqrt), p)
    {
      var r;
      r, norm, year := RunProjector(cfg, dbAll, key, sqrt, p, investigated, inputToFill, dbFilter, table, norm, year);
      if r.Err? {
        return Err(r.failure);
      }
      table := r.value;
      p := p + 1;
    }
    return Ok(table);
  }

  // ---- the run --------------------------------------------------------------------------

  /** The result of `_recalc_and_compare_results` for each fold, in fold order. */
  function ExtendResults(cfg: Config, dbAll: Panel, folds: seq<FoldKey>, sqrt: real -> real): (results: seq<Result<Table>>)
    requires ListsAgree(cfg)
    ensures |results| == |folds|
  {
    seq(|folds|, m requires 0 <= m < |folds| => ExtendFold(cfg, dbAll, folds[m], sqrt))
  }

  /** `main`, with the summary table returned instead of written. */
  function ExtendersRun(cfg: Config, raw: Panel, sqrt: real -> real): Result<Table>
  {
    if !ListsAgree(cfg) then Err(ConfigMismatch)
    else
      var dbAll := SelectPanel(raw, cfg);
      match Collect(ExtendResults(cfg, dbAll, FoldsToRun(cfg.toCompare, dbAll), sqrt), [], 0)
      case Err(e) => Err(e)
      case Ok(tables) => Aggregate(tables)
  }

  method CompareExtenders(cfg: Config, raw: Panel, sqrt: real -> real) returns (res: Result<Table>)
    ensures res == ExtendersRun(cfg, raw, sqrt)
  {
    if !(|cfg.projectors| == |cfg.names| && |cfg.options| == |cfg.names|) {
      return Err(ConfigMismatch);
    }
    var dbAll := Filter(raw, [RegionIs("World"), YearIn(SetOf(cfg.years))], true);
    dbAll := Filter(dbAll, [VariableIn(SetOf(cfg.vars))], true);
    var folds := FoldsToRun(cfg.toCompare, dbAll);
    var tables: seq<Table> := [];
    var i := 0;
    while i < |folds|
      invariant 0 <= i <= |folds|
      invariant Collect(ExtendResults(cfg, dbAll, folds, sqrt), [], 0) == Collect(ExtendResults(cfg, dbAll, folds, sqrt), tables, i)
    {
      var r := RecalcAndCompare(cfg, dbAll, folds[i], sqrt);
      if r.Err? {
        return Err(r.failure);
      }
      tables := tables + [r.value];
      i := i + 1;
    }
    return Aggregate(tables);
  }
}
