/**
 * What compare_mulitple_infillers.py promises, proved about the model in
 * CompareInfillers: the skips leave cells missing, the year-count assertion
 * aborts exactly when reached and violated, scores are non-negative roots of
 * mean squared normalised residuals, and the summary is the mean of the
 * defined fold values.
 */
module InfillersProperties {
  import opened Wrappers
  import opened Panel
  import opened Stats
  import opened Results
  import opened Normalisation
  import opened Grid
  import opened Permutations
  import opened CompareInfillers

  // ---- the score of one (variable, cruncher) --------------------------------------------

  lemma {:induction false} MaskedSquaresEmptyIff(pred: Panel, truth: Panel, norm: map<int, Option<real>>)
    ensures |MaskedSquares(pred, truth, norm)| == 0 <==> forall i :: 0 <= i < |pred| ==> !Scored(pred[i].year, truth, norm)
  {
    if pred != [] {
      MaskedSquaresEmptyIff(pred[1..], truth, norm);
      assert forall i :: 1 <= i < |pred| ==> pred[i] == pred[1..][i - 1];
    }
  }

  lemma {:induction false} MaskedSquaresConstant(pred: Panel, truth: Panel, norm: map<int, Option<real>>, c: real)
    requires forall i :: 0 <= i < |pred| && Scored(pred[i].year, truth, norm) ==> Square(Residual(pred[i], truth, norm)) == c
    ensures forall j :: 0 <= j < |MaskedSquares(pred, truth, norm)| ==> MaskedSquares(pred, truth, norm)[j] == c
  {
    if pred != [] {
      assert forall i :: 1 <= i < |pred| ==> pred[i] == pred[1..][i - 1];
      MaskedSquaresConstant(pred[1..], truth, norm, c);
    }
  }

  /**
   * Score non-negativity: the written score is never inf, and is NaN exactly
   * when no predicted year has both an original value and a positive norm
   * factor; otherwise it is at least 0.
   */
  lemma InfillScoreBounds(pred: Panel, truth: Panel, norm: map<int, Option<real>>, sqrt: real -> real)
    requires IsSqrt(sqrt)
    ensures InfillScore(pred, truth, norm, sqrt) != Unbounded
    ensures InfillScore(pred, truth, norm, sqrt).Score? ==> InfillScore(pred, truth, norm, sqrt).value >= 0.0
    ensures InfillScore(pred, truth, norm, sqrt) == Missing <==> forall i :: 0 <= i < |pred| ==> !Scored(pred[i].year, truth, norm)
  {
    MaskedSquaresEmptyIff(pred, truth, norm);
    var sq := MaskedSquares(pred, truth, norm);
    if |sq| > 0 {
      MeanNonNegative(sq);
    }
  }

  /** A cruncher that reproduces the originals scores exactly 0 wherever some year is scored. */
  lemma ExactInfillScoresZero(pred: Panel, truth: Panel, norm: map<int, Option<real>>, sqrt: real -> real)
    requires IsSqrt(sqrt)
    requires forall i :: 0 <= i < |pred| && ValueAt(truth, pred[i].year).Some? ==> pred[i].value == ValueAt(truth, pred[i].year).value
    requires exists i :: 0 <= i < |pred| && Scored(pred[i].year, truth, norm)
    ensures InfillScore(pred, truth, norm, sqrt) == Score(0.0)
  {
    MaskedSquaresEmptyIff(pred, truth, norm);
    forall i | 0 <= i < |pred| && Scored(pred[i].year, truth, norm)
      ensures Square(Residual(pred[i], truth, norm)) == 0.0
    {
      assert Residual(pred[i], truth, norm) == 0.0 / norm[pred[i].year].value;
    }
    MaskedSquaresConstant(pred, truth, norm, 0.0);
    MeanConstant(MaskedSquares(pred, truth, norm), 0.0);
    SqrtOfZero(sqrt);
  }

  /** A constant offset d against a constant spread s scores |d / s|. */
  lemma ConstantOffsetInfillScore(pred: Panel, truth: Panel, norm: map<int, Option<real>>, sqrt: real -> real, d: real, s: real)
    requires IsSqrt(sqrt)
    requires s > 0.0
    requires forall i :: 0 <= i < |pred| && Scored(pred[i].year, truth, norm) ==>
      pred[i].value == ValueAt(truth, pred[i].year).value + d && norm[pred[i].year] == Some(s)
    requires exists i :: 0 <= i < |pred| && Scored(pred[i].year, truth, norm)
    ensures InfillScore(pred, truth, norm, sqrt) == Score(Abs(d / s))
  {
    MaskedSquaresEmptyIff(pred, truth, norm);
    MaskedSquaresConstant(pred, truth, norm, Square(d / s));
    MeanConstant(MaskedSquares(pred, truth, norm), Square(d / s));
    assert sqrt(Square(d / s)) == Abs(d / s);
  }

  // ---- one fold -------------------------------------------------------------------------

  // ---- the panels -----------------------------------------------------------------------

  /** `db_all` before the consistency mask holds exactly the World rows of the listed years, variables and leader. */
  lemma SelectPanelRows(raw: Panel, cfg: Config)
    ensures forall r :: r in SelectPanel(raw, cfg) <==>
      r in raw && r.region == "World" && r.year in cfg.years && (r.variable in cfg.vars || r.variable == cfg.leader)
  {
    forall r: Row
      ensures r in SelectPanel(raw, cfg) <==>
        r in raw && r.region == "World" && r.year in cfg.years && (r.variable in cfg.vars || r.variable == cfg.leader)
    {
      MatchesThree(RegionIs("World"), YearIn(SetOf(cfg.years)), VariableIn(SetOf(cfg.vars + [cfg.leader])), r);
      assert r.variable in cfg.vars + [cfg.leader] <==> r.variable in cfg.vars || r.variable == cfg.leader;
    }
  }

  /** The panel the folds run on: the selected rows whose (model, scenario, region) splits consistently. */
  lemma RunPanelRows(cfg: Config, raw: Panel, consistent: ConsistencyTest)
    ensures
      var selected := SelectPanel(raw, cfg);
      forall r :: r in RunPanel(cfg, raw, consistent) <==> r in selected && CaseOf(r) in consistent(selected, cfg.leader, cfg.vars)
  {
    var selected := SelectPanel(raw, cfg);
    ConsistencyFilter(selected, consistent(selected, cfg.leader, cfg.vars));
  }

  /** `input_to_fill` holds exactly the fold's leader rows. */
  lemma LeaderInputRows(dbAll: Panel, key: FoldKey, leader: string)
    ensures forall r :: r in LeaderInput(dbAll, key, leader) <==> r in dbAll && KeyOf(r) == key && r.variable == leader
  {
    forall r: Row {
      MatchesOne(VariableIn({leader}), r);
    }
  }

  /** `originals` holds exactly the fold's withheld rows of v. */
  lemma OriginalsRows(dbAll: Panel, key: FoldKey, v: string)
    ensures forall r :: r in Originals(dbAll, key, v) <==> r in dbAll && KeyOf(r) == key && r.variable == v
  {
    forall r: Row {
      MatchesOne(VariableIn({v}), r);
    }
  }

  // ---- one fold -------------------------------------------------------------------------

  /** Every cell of a table is missing or a non-negative score. */
  ghost predicate WellScored(t: Table)
  {
    ScoresNonNegative(t) && Bounded(t)
  }

  lemma GridEntry(cfg: Config, dbAll: Panel, key: FoldKey, sqrt: real -> real, c: nat, j: nat)
    requires ListsAgree(cfg) && c < |cfg.crunchers| && j < |cfg.vars|
    ensures InfillGrid(cfg, dbAll, key, sqrt)[c][j] == InfillStep(cfg, dbAll, key, sqrt, c, cfg.vars[j])
  {
  }

  /** Every step fails with the year-count or the mask error only, and writes a missing or non-negative cell. */
  lemma GridSteps(cfg: Config, dbAll: Panel, key: FoldKey, sqrt: real -> real)
    requires ListsAgree(cfg)
    ensures forall c, j :: 0 <= c < |cfg.crunchers| && 0 <= j < |cfg.vars| && InfillGrid(cfg, dbAll, key, sqrt)[c][j].Abort? ==>
      InfillGrid(cfg, dbAll, key, sqrt)[c][j].failure in {YearCountMismatch, UnalignableMask}
    ensures IsSqrt(sqrt) ==> WritesNonNegative(InfillGrid(cfg, dbAll, key, sqrt)) && WritesBounded(InfillGrid(cfg, dbAll, key, sqrt))
  {
    var grid: seq<seq<Step>> := InfillGrid(cfg, dbAll, key, sqrt);
    forall c: nat, j: nat | c < |grid| && j < |grid[c]|
      ensures grid[c][j].Abort? ==> grid[c][j].failure in {YearCountMismatch, UnalignableMask}
      ensures IsSqrt(sqrt) && grid[c][j].Write? ==> grid[c][j].cell.Missing? || (grid[c][j].cell.Score? && grid[c][j].cell.value >= 0.0)
    {
      GridEntry(cfg, dbAll, key, sqrt, c, j);
      var v := cfg.vars[j];
      var interpValues := Filter(Infilled(cfg, dbAll, key, c), [VariableIn({v})], true);
      if IsSqrt(sqrt) {
        InfillScoreBounds(interpValues, Originals(dbAll, key, v), NormFactors(dbAll, v, YearSet(interpValues), sqrt), sqrt);
      }
    }
  }

  /**
   * Cruncher c reaches the year-count assertion for v: v has withheld rows and
   * the infilled frame has as many rows of v.
   */
  predicate ReachesAssertion(cfg: Config, dbAll: Panel, key: FoldKey, c: nat, v: string)
    requires c < |cfg.crunchers| && ListsAgree(cfg)
  {
    var originals := Originals(dbAll, key, v);
    && |originals| > 0
    && |originals| == |Filter(Infilled(cfg, dbAll, key, c), [VariableIn({v})], true)|
  }

  /** Cruncher c reaches the year-count assertion for v and violates it: not exactly two rows per distinct year. */
  predicate ViolatesYearCount(cfg: Config, dbAll: Panel, key: FoldKey, c: nat, v: string)
    requires c < |cfg.crunchers| && ListsAgree(cfg)
  {
    var interpolated := Infilled(cfg, dbAll, key, c);
    ReachesAssertion(cfg, dbAll, key, c, v) && |interpolated| != 2 * |YearSet(interpolated)|
  }

  /**
   * Cruncher c passes the year-count assertion for v, but some withheld year
   * of v is not among the years it predicts for v, so the mask cannot be aligned.
   */
  predicate MaskUnalignable(cfg: Config, dbAll: Panel, key: FoldKey, c: nat, v: string)
    requires c < |cfg.crunchers| && ListsAgree(cfg)
  {
    var interpolated := Infilled(cfg, dbAll, key, c);
    && ReachesAssertion(cfg, dbAll, key, c, v)
    && |interpolated| == 2 * |YearSet(interpolated)|
    && !(YearSet(Originals(dbAll, key, v)) <= YearSet(Filter(interpolated, [VariableIn({v})], true)))
  }

  /** Cruncher c raises for v: either of the two errors. */
  predicate Raises(cfg: Config, dbAll: Panel, key: FoldKey, c: nat, v: string)
    requires c < |cfg.crunchers| && ListsAgree(cfg)
  {
    ViolatesYearCount(cfg, dbAll, key, c, v) || MaskUnalignable(cfg, dbAll, key, c, v)
  }

  /** A step aborts exactly when it raises, with the year-count error exactly when it violates the assertion. */
  lemma StepAbortsIff(cfg: Config, dbAll: Panel, key: FoldKey, sqrt: real -> real, c: nat, j: nat)
    requires ListsAgree(cfg) && c < |cfg.crunchers| && j < |cfg.vars|
    ensures InfillGrid(cfg, dbAll, key, sqrt)[c][j].Abort? <==> Raises(cfg, dbAll, key, c, cfg.vars[j])
    ensures InfillGrid(cfg, dbAll, key, sqrt)[c][j] == Abort(YearCountMismatch) <==> ViolatesYearCount(cfg, dbAll, key, c, cfg.vars[j])
    ensures InfillGrid(cfg, dbAll, key, sqrt)[c][j] == Abort(UnalignableMask) <==> MaskUnalignable(cfg, dbAll, key, c, cfg.vars[j])
  {
    GridEntry(cfg, dbAll, key, sqrt, c, j);
  }

  /** Withheld: 2020 and 2030 of A. */
  const withheldA: Panel := [Row("m", "s", "World", "A", 2020, 1.0), Row("m", "s", "World", "A", 2030, 2.0)]

  /** Infilled: 2020 and 2040 of A and of B. */
  const predictedAB: Panel := [Row("m", "s", "World", "A", 2020, 1.0), Row("m", "s", "World", "A", 2040, 3.0),
                               Row("m", "s", "World", "B", 2020, 1.0), Row("m", "s", "World", "B", 2040, 3.0)]

  lemma PredictedA()
    ensures Filter(predictedAB, [VariableIn({"A"})], true) == predictedAB[..2]
    ensures YearSet(predictedAB[..2]) == {2020, 2040}
  {
    var cs := [VariableIn({"A"})];
    MatchesOne(cs[0], predictedAB[0]);
    MatchesOne(cs[0], predictedAB[1]);
    MatchesOne(cs[0], predictedAB[2]);
    MatchesOne(cs[0], predictedAB[3]);
    assert Filter(predictedAB[3..], cs, true) == [];
    assert Filter(predictedAB[2..], cs, true) == [];
    assert Filter(predictedAB[1..], cs, true) == [predictedAB[1]];
  }

  /**
   * A cruncher that predicts 2020 and 2040 for A and B, where 2020 and 2030
   * of A were withheld, passes the size check and the year-count assertion and
   * then raises on the mask: 2030 is in the difference's index but not in `norm_factor`'s.
   */
  lemma PredictedYears()
    ensures YearSet(predictedAB) == {2020, 2040}
    ensures |YearSet(predictedAB)| == 2
    ensures 2030 in YearSet(withheldA) && 2030 !in {2020, 2040}
  {
    assert YearSet(predictedAB) == {2020, 2040};
    assert |{2020, 2040}| == 2;
    assert withheldA[1].year == 2030;
  }

  lemma UnpredictedYearRaises(dbAll: Panel, sqrt: real -> real)
    ensures StepOn(dbAll, withheldA, predictedAB, "A", sqrt) == Abort(UnalignableMask)
  {
    PredictedA();
    PredictedYears();
    MaskRaises(dbAll, withheldA, predictedAB, "A", sqrt, 2030);
  }

  /** Past both skips and the year-count assertion, a withheld year the cruncher did not predict raises. */
  lemma MaskRaises(dbAll: Panel, originals: Panel, interpolated: Panel, v: string, sqrt: real -> real, y: int)
    requires |originals| > 0 && |originals| == |Filter(interpolated, [VariableIn({v})], true)|
    requires |interpolated| == 2 * |YearSet(interpolated)|
    requires y in YearSet(originals) && y !in YearSet(Filter(interpolated, [VariableIn({v})], true))
    ensures StepOn(dbAll, originals, interpolated, v, sqrt) == Abort(UnalignableMask)
  {
  }

  /**
   * A fold fails exactly when some cruncher raises for some variable: it
   * violates the year-count assertion or leaves a withheld year unpredicted.
   */
  lemma InfillFoldFailsIff(cfg: Config, dbAll: Panel, key: FoldKey, sqrt: real -> real)
    requires ListsAgree(cfg)
    ensures InfillFold(cfg, dbAll, key, sqrt).Err? <==>
      exists c, j :: 0 <= c < |cfg.crunchers| && 0 <= j < |cfg.vars| && Raises(cfg, dbAll, key, c, cfg.vars[j])
  {
    var grid: seq<seq<Step>> := InfillGrid(cfg, dbAll, key, sqrt);
    GridFailsIff(Fresh(cfg.vars, cfg.names), cfg.vars, cfg.names, grid);
    if InfillFold(cfg, dbAll, key, sqrt).Err? {
      var c: nat, j: nat :| c < |grid| && j < |cfg.vars| && grid[c][j].Abort?;
      StepAbortsIff(cfg, dbAll, key, sqrt, c, j);
    } else {
      forall c: nat, j: nat | c < |cfg.crunchers| && j < |cfg.vars|
        ensures !Raises(cfg, dbAll, key, c, cfg.vars[j])
      {
        StepAbortsIff(cfg, dbAll, key, sqrt, c, j);
      }
    }
  }

  /** A failing fold fails with the year-count or the mask error. */
  lemma InfillFoldFailure(cfg: Config, dbAll: Panel, key: FoldKey, sqrt: real -> real)
    requires ListsAgree(cfg)
    ensures InfillFold(cfg, dbAll, key, sqrt).Err? ==> InfillFold(cfg, dbAll, key, sqrt).failure in {YearCountMismatch, UnalignableMask}
  {
    GridFails(Fresh(cfg.vars, cfg.names), cfg.vars, cfg.names, InfillGrid(cfg, dbAll, key, sqrt), 0);
    GridSteps(cfg, dbAll, key, sqrt);
  }

  /** A fold table has exactly the (variable, cruncher name) cells, each missing or a non-negative score. */
  lemma InfillFoldShape(cfg: Config, dbAll: Panel, key: FoldKey, sqrt: real -> real)
    requires ListsAgree(cfg) && IsSqrt(sqrt)
    ensures InfillFold(cfg, dbAll, key, sqrt).Ok? ==>
      var t := InfillFold(cfg, dbAll, key, sqrt).value;
      && t.Keys == Fresh(cfg.vars, cfg.names).Keys
      && (forall v, n :: (v, n) in t <==> v in cfg.vars && n in cfg.names)
      && WellScored(t)
  {
    GridSteps(cfg, dbAll, key, sqrt);
    GridShape(Fresh(cfg.vars, cfg.names), cfg.vars, cfg.names, InfillGrid(cfg, dbAll, key, sqrt), 0);
  }

  /**
   * The fold table starts all missing, and a (variable, name) cell stays
   * missing unless some cruncher of that name passes both skips for the variable.
   */
  lemma UnwrittenCellStaysMissing(cfg: Config, dbAll: Panel, key: FoldKey, sqrt: real -> real, v: string, n: string)
    requires ListsAgree(cfg)
    requires v in cfg.vars && n in cfg.names
    requires forall c :: 0 <= c < |cfg.crunchers| && cfg.names[c] == n ==> !InfillStep(cfg, dbAll, key, sqrt, c, v).Write?
    ensures InfillFold(cfg, dbAll, key, sqrt).Ok? ==>
      (v, n) in InfillFold(cfg, dbAll, key, sqrt).value && InfillFold(cfg, dbAll, key, sqrt).value[(v, n)] == Missing
  {
    var grid: seq<seq<Step>> := InfillGrid(cfg, dbAll, key, sqrt);
    forall c: nat, j: nat | c < |cfg.names| && j < |cfg.vars| && (v, n) == (cfg.vars[j], cfg.names[c])
      ensures !grid[c][j].Write?
    {
      GridEntry(cfg, dbAll, key, sqrt, c, j);
    }
    GridKeepsCell(Fresh(cfg.vars, cfg.names), cfg.vars, cfg.names, grid, 0, (v, n));
  }

  /**
   * The written score lands in its cell: for a cruncher name and a variable
   * that each occur once, the fold's cell is the score of lines 172-182.
   */
  lemma ScoreLandsInCell(cfg: Config, dbAll: Panel, key: FoldKey, sqrt: real -> real, c: nat, j: nat)
    requires ListsAgree(cfg) && c < |cfg.crunchers| && j < |cfg.vars|
    requires forall c' :: 0 <= c' < |cfg.names| && cfg.names[c'] == cfg.names[c] ==> c' == c
    requires forall j' :: 0 <= j' < |cfg.vars| && cfg.vars[j'] == cfg.vars[j] ==> j' == j
    requires InfillStep(cfg, dbAll, key, sqrt, c, cfg.vars[j]).Write?
    ensures InfillFold(cfg, dbAll, key, sqrt).Ok? ==>
      var v := cfg.vars[j];
      var interpValues := Filter(Infilled(cfg, dbAll, key, c), [VariableIn({v})], true);
      && (v, cfg.names[c]) in InfillFold(cfg, dbAll, key, sqrt).value
      && InfillFold(cfg, dbAll, key, sqrt).value[(v, cfg.names[c])] ==
        InfillScore(interpValues, Originals(dbAll, key, v), NormFactors(dbAll, v, YearSet(interpValues), sqrt), sqrt)
  {
    GridEntry(cfg, dbAll, key, sqrt, c, j);
    GridWritesCell(Fresh(cfg.vars, cfg.names), cfg.vars, cfg.names, InfillGrid(cfg, dbAll, key, sqrt), 0, c, j);
  }

  /** With no withheld data for a variable, all of its cells stay missing. */
  lemma NoOriginalsLeavesCellsMissing(cfg: Config, dbAll: Panel, key: FoldKey, sqrt: real -> real, v: string)
    requires ListsAgree(cfg)
    requires v in cfg.vars
    requires |Originals(dbAll, key, v)| == 0
    ensures InfillFold(cfg, dbAll, key, sqrt).Ok? ==>
      forall n :: n in cfg.names ==> (v, n) in InfillFold(cfg, dbAll, key, sqrt).value && InfillFold(cfg, dbAll, key, sqrt).value[(v, n)] == Missing
  {
    forall n | n in cfg.names
      ensures InfillFold(cfg, dbAll, key, sqrt).Ok? ==> (v, n) in InfillFold(cfg, dbAll, key, sqrt).value && InfillFold(cfg, dbAll, key, sqrt).value[(v, n)] == Missing
    {
      UnwrittenCellStaysMissing(cfg, dbAll, key, sqrt, v, n);
    }
  }

  /** When every cruncher of a name returns a different number of values of v than were withheld, its cell stays missing. */
  lemma SizeMismatchLeavesCellMissing(cfg: Config, dbAll: Panel, key: FoldKey, sqrt: real -> real, v: string, n: string)
    requires ListsAgree(cfg)
    requires v in cfg.vars && n in cfg.names
    requires forall c :: 0 <= c < |cfg.crunchers| && cfg.names[c] == n ==>
      |Originals(dbAll, key, v)| != |Filter(Infilled(cfg, dbAll, key, c), [VariableIn({v})], true)|
    ensures InfillFold(cfg, dbAll, key, sqrt).Ok? ==>
      (v, n) in InfillFold(cfg, dbAll, key, sqrt).value && InfillFold(cfg, dbAll, key, sqrt).value[(v, n)] == Missing
  {
    UnwrittenCellStaysMissing(cfg, dbAll, key, sqrt, v, n);
  }

  // ---- the run --------------------------------------------------------------------------

  /** The fold tables of a run, in fold order. */
  function FoldTables(cfg: Config, dbAll: Panel, sqrt: real -> real): Result<seq<Table>>
    requires ListsAgree(cfg)
  {
    Collect(InfillResults(cfg, dbAll, FoldsToRun(cfg.toCompare, dbAll), sqrt), [], 0)
  }

  /**
   * pandas' groupby visits the folds in sorted key order, the model in order
   * of first appearance. Over any reordering of the folds the run fails or
   * succeeds alike, and a successful run gives the same summary table.
   */
  lemma FoldOrderIrrelevant(cfg: Config, dbAll: Panel, order: seq<FoldKey>, sqrt: real -> real)
    requires ListsAgree(cfg)
    requires multiset(order) == multiset(FoldsToRun(cfg.toCompare, dbAll))
    ensures
      var a := Collect(InfillResults(cfg, dbAll, order, sqrt), [], 0);
      var b := Collect(InfillResults(cfg, dbAll, FoldsToRun(cfg.toCompare, dbAll), sqrt), [], 0);
      && (a.Ok? <==> b.Ok?)
      && (a.Ok? ==> Aggregate(a.value) == Aggregate(b.value))
  {
    var folds := FoldsToRun(cfg.toCompare, dbAll);
    var f := (key: FoldKey) => InfillFold(cfg, dbAll, key, sqrt);
    assert InfillResults(cfg, dbAll, order, sqrt) == Map(order, f);
    assert InfillResults(cfg, dbAll, folds, sqrt) == Map(folds, f);
    MapPermutation(order, folds, f);
    CollectPermutation(InfillResults(cfg, dbAll, order, sqrt), InfillResults(cfg, dbAll, folds, sqrt));
    var a := Collect(InfillResults(cfg, dbAll, order, sqrt), [], 0);
    if a.Ok? {
      AggregatePermutation(a.value, Collect(InfillResults(cfg, dbAll, folds, sqrt), [], 0).value);
    }
  }

  /** The run aborts with the configuration error exactly when the three configuration lists differ in length. */
  lemma ConfigMismatchAborts(cfg: Config, raw: Panel, consistent: ConsistencyTest, sqrt: real -> real)
    ensures InfillersRun(cfg, raw, consistent, sqrt) == Err(ConfigMismatch) <==> !ListsAgree(cfg)
  {
    if ListsAgree(cfg) {
      RunFailure(cfg, raw, consistent, sqrt);
    }
  }

  /** With agreeing lists, a failing run fails with `0 / 0` (no fold) or a fold's year-count or mask error. */
  lemma RunFailure(cfg: Config, raw: Panel, consistent: ConsistencyTest, sqrt: real -> real)
    requires ListsAgree(cfg)
    ensures InfillersRun(cfg, raw, consistent, sqrt).Err? ==>
      InfillersRun(cfg, raw, consistent, sqrt).failure in {NoFolds, YearCountMismatch, UnalignableMask}
  {
    var dbAll := RunPanel(cfg, raw, consistent);
    var results := InfillResults(cfg, dbAll, FoldsToRun(cfg.toCompare, dbAll), sqrt);
    CollectAll(results);
    if Collect(results, [], 0).Err? {
      var m :| 0 <= m < |results| && results[m] == Err(Collect(results, [], 0).failure);
      InfillFoldFailure(cfg, dbAll, FoldsToRun(cfg.toCompare, dbAll)[m], sqrt);
    }
  }

  /**
   * With agreeing lists the run succeeds exactly when there is a fold and no
   * fold fails, and it ends in `0 / 0` exactly when there is no fold.
   */
  lemma InfillersRunOkIff(cfg: Config, raw: Panel, consistent: ConsistencyTest, sqrt: real -> real)
    requires ListsAgree(cfg)
    ensures
      var dbAll := RunPanel(cfg, raw, consistent);
      var folds := FoldsToRun(cfg.toCompare, dbAll);
      && (InfillersRun(cfg, raw, consistent, sqrt).Ok? <==>
            |folds| > 0 && forall m :: 0 <= m < |folds| ==> InfillFold(cfg, dbAll, folds[m], sqrt).Ok?)
      && (InfillersRun(cfg, raw, consistent, sqrt) == Err(NoFolds) <==> |folds| == 0)
  {
    var dbAll := RunPanel(cfg, raw, consistent);
    var folds := FoldsToRun(cfg.toCompare, dbAll);
    var results := InfillResults(cfg, dbAll, folds, sqrt);
    CollectAll(results);
    assert forall m :: 0 <= m < |folds| ==> results[m] == InfillFold(cfg, dbAll, folds[m], sqrt);
    if Collect(results, [], 0).Err? {
      var m :| 0 <= m < |results| && results[m] == Err(Collect(results, [], 0).failure);
      InfillFoldFailure(cfg, dbAll, folds[m], sqrt);
    }
    if |folds| == 0 {
      assert Collect(results, [], 0) == Ok([]);
    } else if Collect(results, [], 0).Ok? {
      assert |Collect(results, [], 0).value| > 0;
    }
  }

  /**
   * The summary of a successful run: one table per fold in fold order, and
   * the (variable, name) cells, each the mean of that cell's defined fold
   * values (missing when no fold defined it), so missing or non-negative.
   */
  lemma InfillersSummary(cfg: Config, raw: Panel, consistent: ConsistencyTest, sqrt: real -> real)
    requires ListsAgree(cfg) && IsSqrt(sqrt)
    ensures
      var dbAll := RunPanel(cfg, raw, consistent);
      var folds := FoldsToRun(cfg.toCompare, dbAll);
      var run := InfillersRun(cfg, raw, consistent, sqrt);
      run.Ok? ==>
        && FoldTables(cfg, dbAll, sqrt).Ok?
        && var ts := FoldTables(cfg, dbAll, sqrt).value;
        && |ts| == |folds|
        && (forall m :: 0 <= m < |folds| ==> InfillFold(cfg, dbAll, folds[m], sqrt) == Ok(ts[m]))
        && (forall v, n :: (v, n) in run.value <==> v in cfg.vars && n in cfg.names)
        && (forall k :: k in run.value ==> run.value[k] == MeanOfDefined(Column(ts, k)))
        && WellScored(run.value)
  {
    var dbAll := RunPanel(cfg, raw, consistent);
    var folds := FoldsToRun(cfg.toCompare, dbAll);
    CollectAll(InfillResults(cfg, dbAll, folds, sqrt));
    var tables := FoldTables(cfg, dbAll, sqrt);
    if tables.Ok? && |tables.value| > 0 {
      var ts := tables.value;
      var ks := Fresh(cfg.vars, cfg.names).Keys;
      forall m | 0 <= m < |ts| ensures ts[m].Keys == ks && WellScored(ts[m]) {
        InfillFoldShape(cfg, dbAll, folds[m], sqrt);
      }
      SummaryOfUniformTables(ts, ks);
      var summary := Aggregate(ts).value;
      forall k | k in summary ensures summary[k] != Unbounded {
        assert forall i :: 0 <= i < |ts| ==> Column(ts, k)[i] != Unbounded;
      }
    }
  }
}
