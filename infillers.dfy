/**
 * scripts/compare_mulitple_infillers.py. For every (model, scenario) fold the
 * fold's rows are withheld, each cruncher is built on the remaining rows and
 * infills the fold's components from its leader rows, and each component is
 * scored by the root mean square of its residuals normalised by the spread of
 * `db_all`; the fold tables are then averaged cell by cell.
 */
module CompareInfillers {
  import opened Wrappers
  import opened Panel
  import opened Stats
  import opened Results
  import opened Normalisation
  import opened Grid

  /**
   * A cruncher class: `cruncher(db).infill_components(to_infill_df=input, **options)`
   * as a function of the training panel, the input rows and the options.
   */
  type Cruncher = (Panel, Panel, Options) -> Panel

  /** `return_cases_which_consistently_split(db_all, leader, vars_to_crunch)`. */
  type ConsistencyTest = (Panel, string, seq<string>) -> set<Case>

  /** The input options of `main`; the single leader is `leaders[0]`. */
  datatype Config = Config(
    crunchers: seq<Cruncher>,
    options: seq<Options>,
    names: seq<string>,
    leader: string,
    vars: seq<string>,
    years: seq<int>,
    toCompare: seq<FoldKey>)

  /** The two length assertions of `main`. */
  predicate ListsAgree(cfg: Config)
  {
    |cfg.crunchers| == |cfg.names| && |cfg.options| == |cfg.names|
  }

  /** `filter(region="World", year=years)` then `filter(variable=vars_to_crunch + leaders)`. */
  function SelectPanel(raw: Panel, cfg: Config): Panel
  {
    Filter(raw, [RegionIs("World"), YearIn(SetOf(cfg.years)), VariableIn(SetOf(cfg.vars + [cfg.leader]))], true)
  }

  /** The row mask `[i in db_consistent for i in zip(model, scenario, region)]`. */
  function ConsistentRows(p: Panel, cases: set<Case>): Panel
  {
    Filter(p, [CaseIn(cases)], true)
  }

  /** After the consistency filter every row is of a consistent case, every such row is kept, and none is added. */
  lemma ConsistencyFilter(p: Panel, cases: set<Case>)
    ensures forall r :: r in ConsistentRows(p, cases) <==> r in p && CaseOf(r) in cases
    ensures multiset(ConsistentRows(p, cases)) <= multiset(p)
  {
    forall r {
      MatchesOne(CaseIn(cases), r);
    }
    FilterSplits(p, [CaseIn(cases)]);
  }

  /** The panel the folds run on. */
  function RunPanel(cfg: Config, raw: Panel, consistent: ConsistencyTest): Panel
  {
    var selected := SelectPanel(raw, cfg);
    ConsistentRows(selected, consistent(selected, cfg.leader, cfg.vars))
  }

  // ---- one fold -------------------------------------------------------------------------

  /** `input_to_fill`: the fold's leader rows. */
  function LeaderInput(dbAll: Panel, key: FoldKey, leader: string): Panel
  {
    Filter(HeldOut(dbAll, key), [VariableIn({leader})], true)
  }

  /** `interpolated` of cruncher c: trained on the fold's training slice only. */
  function Infilled(cfg: Config, dbAll: Panel, key: FoldKey, c: nat): Panel
    requires c < |cfg.crunchers| && ListsAgree(cfg)
  {
    cfg.crunchers[c](Training(dbAll, key), LeaderInput(dbAll, key, cfg.leader), cfg.options[c])
  }

  /** `originals`: the fold's withheld rows of variable v. */
  function Originals(dbAll: Panel, key: FoldKey, v: string): Panel
  {
    Filter(HeldOut(dbAll, key), [VariableIn({v})], true)
  }

  /** A year enters the score when the originals have it and its norm factor is positive. */
  predicate Scored(y: int, truth: Panel, norm: map<int, Option<real>>)
  {
    ValueAt(truth, y).Some? && y in norm && norm[y].Some? && norm[y].value > 0.0
  }

  /** (interp - original) / norm at a scored year. */
  function Residual(r: Row, truth: Panel, norm: map<int, Option<real>>): real
    requires Scored(r.year, truth, norm)
  {
    (r.value - ValueAt(truth, r.year).value) / norm[r.year].value
  }

  /**
   * `((interp_values - originals)[norm_factor > 0] / norm_factor[norm_factor > 0]) ** 2`
   * without its NaN entries: one square per predicted row at a scored year.
   */
  function MaskedSquares(pred: Panel, truth: Panel, norm: map<int, Option<real>>): (sq: seq<real>)
    ensures |sq| <= |pred|
    ensures forall i :: 0 <= i < |sq| ==> sq[i] >= 0.0
  {
    if pred == [] then []
    else
      var rest := MaskedSquares(pred[1..], truth, norm);
      if Scored(pred[0].year, truth, norm) then [Square(Residual(pred[0], truth, norm))] + rest else rest
  }

  /** `np.nanmean(...) ** 0.5`: NaN when no year is scored; the mask keeps it from ever being +inf. */
  function InfillScore(pred: Panel, truth: Panel, norm: map<int, Option<real>>, sqrt: real -> real): (score: Cell)
    ensures !score.Unbounded?
  {
    var sq := MaskedSquares(pred, truth, norm);
    if |sq| == 0 then Missing else Score(sqrt(Mean(sq)))
  }

  /**
   * The variable loop body on the fold's withheld rows of v and a cruncher's
   * infilled frame. The difference `interp_values - originals` is indexed by
   * the union of both year sets, while the mask `norm_factor > 0` is indexed
   * by the predicted years only; pandas refuses a boolean mask that does not
   * cover the indexed frame, so a withheld year the cruncher did not predict
   * raises.
   */
  function StepOn(dbAll: Panel, originals: Panel, interpolated: Panel, v: string, sqrt: real -> real): Step
  {
    var interpValues := Filter(interpolated, [VariableIn({v})], true);
    if |originals| == 0 then Skip
    else if |originals| != |interpValues| then Skip
    else if |interpolated| != 2 * |YearSet(interpolated)| then Abort(YearCountMismatch)
    else if !(YearSet(originals) <= YearSet(interpValues)) then Abort(UnalignableMask)
    else Write(InfillScore(interpValues, originals, NormFactors(dbAll, v, YearSet(interpValues), sqrt), sqrt))
  }

  function InfillStep(cfg: Config, dbAll: Panel, key: FoldKey, sqrt: real -> real, c: nat, v: string): Step
    requires c < |cfg.crunchers| && ListsAgree(cfg)
  {
    StepOn(dbAll, Originals(dbAll, key, v), Infilled(cfg, dbAll, key, c), v, sqrt)
  }

  /** The steps of cruncher c, one per variable. */
  function InfillRow(cfg: Config, dbAll: Panel, key: FoldKey, sqrt: real -> real, c: nat): (row: seq<Step>)
    requires c < |cfg.crunchers| && ListsAgree(cfg)
    ensures |row| == |cfg.vars|
  {
    seq(|cfg.vars|, j requires 0 <= j < |cfg.vars| => InfillStep(cfg, dbAll, key, sqrt, c, cfg.vars[j]))
  }

  function InfillGrid(cfg: Config, dbAll: Panel, key: FoldKey, sqrt: real -> real): (grid: seq<seq<Step>>)
    requires ListsAgree(cfg)
    ensures IsGrid(grid, cfg.vars, cfg.names)
  {
    seq(|cfg.names|, c requires 0 <= c < |cfg.names| => InfillRow(cfg, dbAll, key, sqrt, c))
  }

  /** `_recalc_and_compare_results` for one fold key. */
  function InfillFold(cfg: Config, dbAll: Panel, key: FoldKey, sqrt: real -> real): Result<Table>
    requires ListsAgree(cfg)
  {
    WriteGrid(Fresh(cfg.vars, cfg.names), cfg.vars, cfg.names, InfillGrid(cfg, dbAll, key, sqrt), 0)
  }

  /** Lines 148-182 for one variable: the skips, the year-count assertion, the mask error and the score. */
  method ScoreVariable(dbAll: Panel, originalVals: Panel, interpolated: Panel, v: string, sqrt: real -> real)
    returns (step: Step)
    ensures step == StepOn(dbAll, Filter(originalVals, [VariableIn({v})], true), interpolated, v, sqrt)
  {
    var originals := Filter(originalVals, [VariableIn({v})], true);
    if |originals| == 0 {
      return Skip;
    }
    var interpValues := Filter(interpolated, [VariableIn({v})], true);
    if |originals| != |interpValues| {
      return Skip;
    }
    if |interpolated| != 2 * |YearSet(interpolated)| {
      return Abort(YearCountMismatch);
    }
    if !(YearSet(originals) <= YearSet(interpValues)) {
      return Abort(UnalignableMask);
    }
    var norm := FillNormFactors(map[], dbAll, v, YearsOf(interpValues), sqrt);
    assert norm == NormFactors(dbAll, v, YearSet(interpValues), sqrt);
    return Write(InfillScore(interpValues, originals, norm, sqrt));
  }

  /** Lines 147-182: the variable loop of cruncher c, writing its cells of `results_db`. */
  method RunCruncher(cfg: Config, dbAll: Panel, key: FoldKey, sqrt: real -> real, c: nat, originalVals: Panel, interpolated: Panel, table0: Table)
    returns (res: Result<Table>)
    requires c < |cfg.crunchers| && ListsAgree(cfg)
    requires originalVals == HeldOut(dbAll, key) && interpolated == Infilled(cfg, dbAll, key, c)
    ensures res == WriteRow(table0, cfg.vars, cfg.names[c], InfillRow(cfg, dbAll, key, sqrt, c), 0)
  {
    ghost var row := InfillRow(cfg, dbAll, key, sqrt, c);
    var table := table0;
    var j := 0;
    while j < |cfg.vars|
      invariant 0 <= j <= |cfg.vars|
      invariant WriteRow(table0, cfg.vars, cfg.names[c], row, 0) == WriteRow(table, cfg.vars, cfg.names[c], row, j)
    {
      var step := ScoreVariable(dbAll, originalVals, interpolated, cfg.vars[j], sqrt);
      assert step == row[j];
      RowAdvance(table, cfg.vars, cfg.names[c], row, j);
      if step.Abort? {
        return Err(step.failure);
      } else if step.Write? {
        table := table[(cfg.vars[j], cfg.names[c]) := step.cell];
      }
      j := j + 1;
    }
    return Ok(table);
  }

  /** Lines 134-184, with `results_db` filled in place. */
  method RecalcAndCompare(cfg: Config, dbAll: Panel, key: FoldKey, sqrt: real -> real) returns (res: Result<Table>)
    requires ListsAgree(cfg)
    ensures res == InfillFold(cfg, dbAll, key, sqrt)
  {
    var originalVals := Filter(dbAll, KeyCriteria(key), true);
    var inputToFill := Filter(originalVals, [VariableIn({cfg.leader})], true);
    var table := Fresh(cfg.vars, cfg.names);
    var db := Filter(dbAll, KeyCriteria(key), false);
    var c := 0;
    while c < |cfg.crunchers|
      invariant 0 <= c <= |cfg.crunchers|
      invariant InfillFold(cfg, dbAll, key, sqrt) == WriteGrid(table, cfg.vars, cfg.names, InfillGrid(cfg, dbAll, key, sqrt), c)
    {
      var interpolated := cfg.crunchers[c](db, inputToFill, cfg.options[c]);
      var r := RunCruncher(cfg, dbAll, key, sqrt, c, originalVals, interpolated, table);
      if r.Err? {
        return Err(r.failure);
      }
      table := r.value;
      c := c + 1;
    }
    return Ok(table);
  }

  // ---- the run --------------------------------------------------------------------------

  /** The result of `_recalc_and_compare_results` for each fold, in fold order. */
  function InfillResults(cfg: Config, dbAll: Panel, folds: seq<FoldKey>, sqrt: real -> real): (results: seq<Result<Table>>)
    requires ListsAgree(cfg)
    ensures |results| == |folds|
  {
    seq(|folds|, m requires 0 <= m < |folds| => InfillFold(cfg, dbAll, folds[m], sqrt))
  }

  /** `main`, with the summary table returned instead of written. */
  function InfillersRun(cfg: Config, raw: Panel, consistent: ConsistencyTest, sqrt: real -> real): Result<Table>
  {
    if !ListsAgree(cfg) then Err(ConfigMismatch)
    else
      var dbAll := RunPanel(cfg, raw, consistent);
      match Collect(InfillResults(cfg, dbAll, FoldsToRun(cfg.toCompare, dbAll), sqrt), [], 0)
      case Err(e) => Err(e)
      case Ok(tables) => Aggregate(tables)
  }

  method CompareInfillers(cfg: Config, raw: Panel, consistent: ConsistencyTest, sqrt: real -> real) returns (res: Result<Table>)
    ensures res == InfillersRun(cfg, raw, consistent, sqrt)
  {
    if !(|cfg.crunchers| == |cfg.names| && |cfg.options| == |cfg.names|) {
      return Err(ConfigMismatch);
    }
    var dbAll := SelectPanel(raw, cfg);
    var cases := consistent(dbAll, cfg.leader, cfg.vars);
    dbAll := ConsistentRows(dbAll, cases);
    var folds := FoldsToRun(cfg.toCompare, dbAll);
    var tables: seq<Table> := [];
    var i := 0;
    while i < |folds|
      invariant 0 <= i <= |folds|
      invariant Collect(InfillResults(cfg, dbAll, folds, sqrt), [], 0) == Collect(InfillResults(cfg, dbAll, folds, sqrt), tables, i)
    {
      var r := RecalcAndCompare(cfg, dbAll, folds[i], sqrt);
      if r.Err? {
        return Err(r.failure);
      }
      tables := tables + [r.value];
      i := i + 1;
    }
    return Aggregate(tables);
  }
}
