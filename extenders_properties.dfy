/**
 * What compare_extenders.py promises, proved about the model in
 * CompareExtenders: which rows each panel holds, the leader check, the two
 * skips (of which the zero-spread one looks at the last investigated year
 * only), the duplicate-year assertion, the score, and the summary.
 */
module ExtendersProperties {
  import opened Wrappers
  import opened Panel
  import opened Stats
  import opened Results
  import opened Normalisation
  import opened Grid
  import opened Permutations
  import opened CompareExtenders

  // ---- the investigated years and the panels ---------------------------------------------

  predicate Increasing(s: seq<int>)
  {
    forall i, j :: 0 <= i < j < |s| ==> s[i] < s[j]
  }

  /** Dropping the first element keeps a sequence increasing. */
  lemma TailIncreasing(s: seq<int>)
    requires Increasing(s) && s != []
    ensures Increasing(s[1..])
  {
    forall i, j | 0 <= i < j < |s[1..]| ensures s[1..][i] < s[1..][j] {
      assert s[1..][i] == s[i + 1] && s[1..][j] == s[j + 1];
    }
  }

  /** Prefixing an increasing sequence with something below all of it keeps it increasing. */
  lemma ConsIncreasing(x: int, s: seq<int>)
    requires Increasing(s)
    requires forall y :: y in s ==> x < y
    ensures Increasing([x] + s)
  {
    var t := [x] + s;
    forall i, j | 0 <= i < j < |t| ensures t[i] < t[j] {
      assert t[j] == s[j - 1] && t[j] in s;
      if i > 0 {
        assert t[i] == s[i - 1];
      }
    }
  }

  /** The last element of an increasing sequence is its largest. */
  lemma LastIsLargest(s: seq<int>)
    requires Increasing(s)
    ensures forall y :: y in s ==> y <= s[|s| - 1]
  {
  }

  /** With increasing `years` (a `range`), the investigated years increase, so the last is the latest. */
  lemma {:induction false} InvestigatedIncrease(years: seq<int>, testYear: int)
    requires Increasing(years)
    ensures Increasing(YearsToInvestigate(years, testYear))
    ensures forall y :: y in YearsToInvestigate(years, testYear) ==> y <= YearsToInvestigate(years, testYear)[|YearsToInvestigate(years, testYear)| - 1]
  {
    if years != [] {
      var rest := YearsToInvestigate(years[1..], testYear);
      TailIncreasing(years);
      InvestigatedIncrease(years[1..], testYear);
      if years[0] > testYear {
        forall y | y in rest ensures years[0] < y {
          assert y in years[1..];
        }
        ConsIncreasing(years[0], rest);
      }
    }
    LastIsLargest(YearsToInvestigate(years, testYear));
  }

  lemma SelectPanelRows(raw: Panel, cfg: Config)
    ensures forall r :: r in SelectPanel(raw, cfg) <==>
      r in raw && r.region == "World" && r.year in cfg.years && r.variable in cfg.vars
  {
    forall r: Row
      ensures r in SelectPanel(raw, cfg) <==> r in raw && r.region == "World" && r.year in cfg.years && r.variable in cfg.vars
    {
      MatchesTwo(RegionIs("World"), YearIn(SetOf(cfg.years)), r);
      MatchesOne(VariableIn(SetOf(cfg.vars)), r);
    }
  }

  /** `input_to_fill` holds exactly the fold's rows outside the investigated years. */
  lemma InputToFillRows(dbAll: Panel, key: FoldKey, yti: seq<int>)
    ensures forall r :: r in InputToFill(HeldOut(dbAll, key), yti) <==> r in dbAll && KeyOf(r) == key && r.year !in yti
  {
    forall r: Row {
      MatchesOne(YearIn(SetOf(yti)), r);
    }
  }

  /** The leader check passes exactly when the fold has a leader row outside the investigated years. */
  lemma LeaderPresentIff(cfg: Config, dbAll: Panel, key: FoldKey)
    ensures LeaderPresent(cfg, dbAll, key) <==>
      exists r :: r in dbAll && KeyOf(r) == key && r.year !in Investigated(cfg) && r.variable == cfg.leader
  {
    InputToFillRows(dbAll, key, Investigated(cfg));
  }

  /** The rows of `db_filter`: those of the other folds. */
  lemma TrainingRows(dbAll: Panel, key: FoldKey)
    ensures forall r :: r in Training(dbAll, key) <==> r in dbAll && KeyOf(r) != key
  {
  }

  /** `valid_scenarios`: the scenarios with a row of v. */
  lemma ValidScenarios(p: Panel, v: string)
    ensures forall sc :: sc in ScenariosOf(Filter(p, [VariableIn({v})], true)) <==> exists s :: s in p && s.variable == v && s.scenario == sc
  {
    forall s: Row {
      MatchesOne(VariableIn({v}), s);
    }
  }

  /**
   * No leakage: a projector for v is trained only on rows of other folds,
   * and only on those of scenarios that report v in some other fold.
   */
  lemma ExtendTrainingRows(dbAll: Panel, key: FoldKey, v: string)
    ensures forall r :: r in ExtendTraining(Training(dbAll, key), v) <==>
      && r in dbAll && KeyOf(r) != key
      && exists s :: s in dbAll && KeyOf(s) != key && s.variable == v && s.scenario == r.scenario
  {
    var dbFilter := Training(dbAll, key);
    var valid := ScenariosOf(Filter(dbFilter, [VariableIn({v})], true));
    TrainingRows(dbAll, key);
    ValidScenarios(dbFilter, v);
    forall r: Row {
      MatchesOne(ScenarioIn(valid), r);
    }
  }

  /** `originals` holds exactly the fold's rows of v in the investigated years. */
  lemma OriginalsRows(dbAll: Panel, key: FoldKey, v: string, yti: seq<int>)
    ensures forall r :: r in ExtendOriginals(HeldOut(dbAll, key), v, yti) <==>
      r in dbAll && KeyOf(r) == key && r.variable == v && r.year in yti
  {
    forall r: Row {
      MatchesTwo(VariableIn({v}), YearIn(SetOf(yti)), r);
    }
  }

  // ---- the score ------------------------------------------------------------------------

  lemma {:induction false} FiniteSquaresEmptyIff(pred: Panel, truth: Panel, norm: map<int, Option<real>>)
    ensures |FiniteSquares(pred, truth, norm)| == 0 <==> forall i :: 0 <= i < |pred| ==> !TermAt(pred[i], truth, norm).Finite?
  {
    if pred != [] {
      FiniteSquaresEmptyIff(pred[1..], truth, norm);
      assert forall i :: 1 <= i < |pred| ==> pred[i] == pred[1..][i - 1];
    }
  }

  lemma {:induction false} FiniteSquaresConstant(pred: Panel, truth: Panel, norm: map<int, Option<real>>, c: real)
    requires forall i :: 0 <= i < |pred| && TermAt(pred[i], truth, norm).Finite? ==> TermAt(pred[i], truth, norm).square == c
    ensures forall j :: 0 <= j < |FiniteSquares(pred, truth, norm)| ==> FiniteSquares(pred, truth, norm)[j] == c
  {
    if pred != [] {
      assert forall i :: 1 <= i < |pred| ==> pred[i] == pred[1..][i - 1];
      FiniteSquaresConstant(pred[1..], truth, norm, c);
    }
  }

  /**
   * The score is +inf exactly when some entry is, NaN exactly when every
   * entry is NaN, and otherwise a non-negative root mean square.
   */
  lemma ExtendScoreBounds(pred: Panel, truth: Panel, norm: map<int, Option<real>>, sqrt: real -> real)
    requires IsSqrt(sqrt)
    ensures ExtendScore(pred, truth, norm, sqrt) == Unbounded <==> exists i :: 0 <= i < |pred| && TermAt(pred[i], truth, norm) == Infinite
    ensures ExtendScore(pred, truth, norm, sqrt) == Missing <==> forall i :: 0 <= i < |pred| ==> TermAt(pred[i], truth, norm) == NotANumber
    ensures ExtendScore(pred, truth, norm, sqrt).Score? ==> ExtendScore(pred, truth, norm, sqrt).value >= 0.0
  {
    FiniteSquaresEmptyIff(pred, truth, norm);
    var sq := FiniteSquares(pred, truth, norm);
    if |sq| > 0 {
      MeanNonNegative(sq);
    }
  }

  /** `np.nanmean` ignores a predicted year the originals or the norm factors lack. */
  lemma UnmatchedYearIgnored(r: Row, pred: Panel, truth: Panel, norm: map<int, Option<real>>, sqrt: real -> real)
    requires r.year !in YearSet(truth) || r.year !in norm || norm[r.year].None?
    ensures ExtendScore([r] + pred, truth, norm, sqrt) == ExtendScore(pred, truth, norm, sqrt)
  {
    var p := [r] + pred;
    assert p[0] == r && p[1..] == pred;
    assert TermAt(r, truth, norm) == NotANumber;
    assert FiniteSquares(p, truth, norm) == FiniteSquares(pred, truth, norm);
    assert SomeInfinite(p, truth, norm) <==> SomeInfinite(pred, truth, norm) by {
      if SomeInfinite(p, truth, norm) {
        var i :| 0 <= i < |p| && TermAt(p[i], truth, norm).Infinite?;
        assert i > 0 && p[i] == pred[i - 1];
      }
      if SomeInfinite(pred, truth, norm) {
        var i :| 0 <= i < |pred| && TermAt(pred[i], truth, norm).Infinite?;
        assert p[i + 1] == pred[i];
      }
    }
  }

  /** A wrong value at a year whose spread is zero makes the score +inf. */
  lemma ZeroSpreadMismatchUnbounded(pred: Panel, truth: Panel, norm: map<int, Option<real>>, sqrt: real -> real, i: nat)
    requires i < |pred|
    requires ValueAt(truth, pred[i].year).Some? && pred[i].value != ValueAt(truth, pred[i].year).value
    requires pred[i].year in norm && norm[pred[i].year] == Some(0.0)
    ensures ExtendScore(pred, truth, norm, sqrt) == Unbounded
  {
    assert TermAt(pred[i], truth, norm).Infinite?;
  }

  lemma ExactTerm(r: Row, truth: Panel, norm: map<int, Option<real>>)
    requires ValueAt(truth, r.year).Some? ==> r.value == ValueAt(truth, r.year).value
    ensures !TermAt(r, truth, norm).Infinite?
    ensures TermAt(r, truth, norm).Finite? ==> TermAt(r, truth, norm).square == 0.0
  {
    if TermAt(r, truth, norm).Finite? {
      var t := ValueAt(truth, r.year).value;
      assert r.value - t == 0.0;
      assert (r.value - t) / norm[r.year].value == 0.0;
    }
  }

  /** A projector that reproduces the originals scores 0 wherever some year has a non-zero spread. */
  lemma ExactExtensionScoresZero(pred: Panel, truth: Panel, norm: map<int, Option<real>>, sqrt: real -> real)
    requires IsSqrt(sqrt)
    requires forall i :: 0 <= i < |pred| && ValueAt(truth, pred[i].year).Some? ==> pred[i].value == ValueAt(truth, pred[i].year).value
    requires exists i :: (0 <= i < |pred| && ValueAt(truth, pred[i].year).Some? && pred[i].year in norm
      && norm[pred[i].year].Some? && norm[pred[i].year].value != 0.0)
    ensures ExtendScore(pred, truth, norm, sqrt) == Score(0.0)
  {
    forall i | 0 <= i < |pred|
      ensures !TermAt(pred[i], truth, norm).Infinite?
      ensures TermAt(pred[i], truth, norm).Finite? ==> TermAt(pred[i], truth, norm).square == 0.0
    {
      ExactTerm(pred[i], truth, norm);
    }
    var i :| 0 <= i < |pred| && ValueAt(truth, pred[i].year).Some? && pred[i].year in norm
      && norm[pred[i].year].Some? && norm[pred[i].year].value != 0.0;
    assert TermAt(pred[i], truth, norm).Finite?;
    FiniteSquaresEmptyIff(pred, truth, norm);
    FiniteSquaresConstant(pred, truth, norm, 0.0);
    MeanConstant(FiniteSquares(pred, truth, norm), 0.0);
    SqrtOfZero(sqrt);
  }

  // ---- one (projector, variable) step ------------------------------------------------------

  /**
   * The step for one (projector, variable): no investigated year fails with
   * the unbound loop variable; a zero spread at the last investigated year, or
   * no withheld value, skips; a projector that returns some year twice fails
   * the assertion; otherwise the cell is written.
   */
  lemma ExtendStepCases(cfg: Config, dbAll: Panel, key: FoldKey, sqrt: real -> real, p: nat, v: string)
    requires p < |cfg.projectors| && ListsAgree(cfg)
    ensures
      var yti := Investigated(cfg);
      var step := ExtendStep(cfg, dbAll, key, sqrt, p, v);
      var originals := ExtendOriginals(HeldOut(dbAll, key), v, yti);
      var interpolated := cfg.projectors[p](ExtendTraining(Training(dbAll, key), v), v, cfg.options[p], InputToFill(HeldOut(dbAll, key), yti));
      && (step == Abort(UnboundYear) <==> |yti| == 0)
      && (|yti| > 0 && StdAt(dbAll, v, yti[|yti| - 1], sqrt) == Some(0.0) ==> step == Skip)
      && (|yti| > 0 && |originals| == 0 ==> step == Skip)
      && (step == Abort(DuplicateYears) <==>
            |yti| > 0 && StdAt(dbAll, v, yti[|yti| - 1], sqrt) != Some(0.0) && |originals| > 0 && !DistinctYears(interpolated))
      && (step.Write? <==>
            |yti| > 0 && StdAt(dbAll, v, yti[|yti| - 1], sqrt) != Some(0.0) && |originals| > 0 && DistinctYears(interpolated))
  {
    var yti := Investigated(cfg);
    var interpolated := cfg.projectors[p](ExtendTraining(Training(dbAll, key), v), v, cfg.options[p], InputToFill(HeldOut(dbAll, key), yti));
    YearCountIffDistinct(interpolated);
    if |yti| > 0 {
      assert yti[|yti| - 1] in SetOf(yti);
    }
  }

  /** A written cell is a non-negative score, NaN or +inf, never a negative value. */
  lemma StepScoresNonNegative(cfg: Config, dbAll: Panel, key: FoldKey, sqrt: real -> real, p: nat, v: string)
    requires p < |cfg.projectors| && ListsAgree(cfg) && IsSqrt(sqrt)
    ensures ExtendStep(cfg, dbAll, key, sqrt, p, v).Write? && ExtendStep(cfg, dbAll, key, sqrt, p, v).cell.Score? ==>
      ExtendStep(cfg, dbAll, key, sqrt, p, v).cell.value >= 0.0
  {
    var yti := Investigated(cfg);
    var investigated := HeldOut(dbAll, key);
    var interpolated := cfg.projectors[p](ExtendTraining(Training(dbAll, key), v), v, cfg.options[p], InputToFill(investigated, yti));
    WrittenCell(cfg, dbAll, key, sqrt, p, v);
    ExtendScoreBounds(interpolated, ExtendOriginals(investigated, v, yti), NormFactors(dbAll, v, SetOf(yti), sqrt), sqrt);
  }

  // ---- one fold -------------------------------------------------------------------------

  /** Without its leader in the input, a fold is the all-missing table, whatever the projectors. */
  lemma LeaderAbsentGivesFresh(cfg: Config, other: Config, dbAll: Panel, key: FoldKey, sqrt: real -> real)
    requires ListsAgree(cfg) && ListsAgree(other)
    requires other.vars == cfg.vars && other.names == cfg.names && other.leader == cfg.leader
    requires other.years == cfg.years && other.testYear == cfg.testYear
    requires !LeaderPresent(cfg, dbAll, key)
    ensures ExtendFold(cfg, dbAll, key, sqrt) == ExtendFold(other, dbAll, key, sqrt) == Ok(Fresh(cfg.vars, cfg.names))
  {
  }

  lemma GridEntry(cfg: Config, dbAll: Panel, key: FoldKey, sqrt: real -> real, p: nat, j: nat)
    requires ListsAgree(cfg) && p < |cfg.projectors| && j < |cfg.vars|
    ensures ExtendGrid(cfg, dbAll, key, sqrt)[p][j] == ExtendStep(cfg, dbAll, key, sqrt, p, cfg.vars[j])
  {
  }

  /** The failure of every step: the unbound loop variable without investigated years, else the duplicate-year assertion. */
  function ExpectedFailure(cfg: Config): Failure
  {
    if |Investigated(cfg)| == 0 then UnboundYear else DuplicateYears
  }

  /** Every step fails with the expected error only, and writes a cell whose score is non-negative. */
  lemma GridSteps(cfg: Config, dbAll: Panel, key: FoldKey, sqrt: real -> real)
    requires ListsAgree(cfg)
    ensures forall p, j :: 0 <= p < |cfg.projectors| && 0 <= j < |cfg.vars| && ExtendGrid(cfg, dbAll, key, sqrt)[p][j].Abort? ==>
      ExtendGrid(cfg, dbAll, key, sqrt)[p][j].failure == ExpectedFailure(cfg)
    ensures IsSqrt(sqrt) ==> WritesNonNegative(ExtendGrid(cfg, dbAll, key, sqrt))
  {
    var grid: seq<seq<Step>> := ExtendGrid(cfg, dbAll, key, sqrt);
    forall p: nat, j: nat | p < |grid| && j < |grid[p]|
      ensures grid[p][j].Abort? ==> grid[p][j].failure == ExpectedFailure(cfg)
      ensures IsSqrt(sqrt) && grid[p][j].Write? && grid[p][j].cell.Score? ==> grid[p][j].cell.value >= 0.0
    {
      GridEntry(cfg, dbAll, key, sqrt, p, j);
      if IsSqrt(sqrt) {
        StepScoresNonNegative(cfg, dbAll, key, sqrt, p, cfg.vars[j]);
      }
    }
  }

  /**
   * A fold fails exactly when its leader is present and some step aborts,
   * and then with the expected error.
   */
  lemma ExtendFoldFailsIff(cfg: Config, dbAll: Panel, key: FoldKey, sqrt: real -> real)
    requires ListsAgree(cfg)
    ensures ExtendFold(cfg, dbAll, key, sqrt).Err? <==>
      LeaderPresent(cfg, dbAll, key) &&
      exists p, j :: 0 <= p < |cfg.projectors| && 0 <= j < |cfg.vars| && ExtendStep(cfg, dbAll, key, sqrt, p, cfg.vars[j]).Abort?
    ensures ExtendFold(cfg, dbAll, key, sqrt).Err? ==> ExtendFold(cfg, dbAll, key, sqrt).failure == ExpectedFailure(cfg)
  {
    if LeaderPresent(cfg, dbAll, key) {
      var grid: seq<seq<Step>> := ExtendGrid(cfg, dbAll, key, sqrt);
      var t0 := Fresh(cfg.vars, cfg.names);
      GridFailsIff(t0, cfg.vars, cfg.names, grid);
      GridFails(t0, cfg.vars, cfg.names, grid, 0);
      GridSteps(cfg, dbAll, key, sqrt);
      if ExtendFold(cfg, dbAll, key, sqrt).Err? {
        var p: nat, j: nat :| p < |grid| && j < |cfg.vars| && grid[p][j].Abort?;
        GridEntry(cfg, dbAll, key, sqrt, p, j);
      } else {
        forall p: nat, j: nat | p < |cfg.projectors| && j < |cfg.vars|
          ensures !ExtendStep(cfg, dbAll, key, sqrt, p, cfg.vars[j]).Abort?
        {
          GridEntry(cfg, dbAll, key, sqrt, p, j);
        }
      }
    }
  }

  /** With no investigated year, a fold whose leader is present fails on its first step, at the unbound loop variable. */
  lemma UnboundYearAborts(cfg: Config, dbAll: Panel, key: FoldKey, sqrt: real -> real)
    requires ListsAgree(cfg)
    ensures LeaderPresent(cfg, dbAll, key) && |Investigated(cfg)| == 0 && |cfg.projectors| > 0 && |cfg.vars| > 0 ==>
      ExtendFold(cfg, dbAll, key, sqrt) == Err(UnboundYear)
  {
    ExtendFoldFailsIff(cfg, dbAll, key, sqrt);
    if LeaderPresent(cfg, dbAll, key) && |Investigated(cfg)| == 0 && |cfg.projectors| > 0 && |cfg.vars| > 0 {
      assert ExtendStep(cfg, dbAll, key, sqrt, 0, cfg.vars[0]).Abort?;
    }
  }

  /** A fold table has exactly the (variable, projector name) cells, and its scores are non-negative. */
  lemma ExtendFoldShape(cfg: Config, dbAll: Panel, key: FoldKey, sqrt: real -> real)
    requires ListsAgree(cfg) && IsSqrt(sqrt)
    ensures ExtendFold(cfg, dbAll, key, sqrt).Ok? ==>
      var t := ExtendFold(cfg, dbAll, key, sqrt).value;
      && t.Keys == Fresh(cfg.vars, cfg.names).Keys
      && (forall v, n :: (v, n) in t <==> v in cfg.vars && n in cfg.names)
      && ScoresNonNegative(t)
  {
    GridSteps(cfg, dbAll, key, sqrt);
    GridShape(Fresh(cfg.vars, cfg.names), cfg.vars, cfg.names, ExtendGrid(cfg, dbAll, key, sqrt), 0);
  }

  /** A (variable, name) cell stays missing unless some projector of that name writes it. */
  lemma UnwrittenCellStaysMissing(cfg: Config, dbAll: Panel, key: FoldKey, sqrt: real -> real, v: string, n: string)
    requires ListsAgree(cfg)
    requires v in cfg.vars && n in cfg.names
    requires forall p :: 0 <= p < |cfg.projectors| && cfg.names[p] == n ==> !ExtendStep(cfg, dbAll, key, sqrt, p, v).Write?
    ensures ExtendFold(cfg, dbAll, key, sqrt).Ok? ==>
      (v, n) in ExtendFold(cfg, dbAll, key, sqrt).value && ExtendFold(cfg, dbAll, key, sqrt).value[(v, n)] == Missing
  {
    if LeaderPresent(cfg, dbAll, key) {
      var grid: seq<seq<Step>> := ExtendGrid(cfg, dbAll, key, sqrt);
      forall p: nat, j: nat | p < |cfg.names| && j < |cfg.vars| && (v, n) == (cfg.vars[j], cfg.names[p])
        ensures !grid[p][j].Write?
      {
        GridEntry(cfg, dbAll, key, sqrt, p, j);
      }
      GridKeepsCell(Fresh(cfg.vars, cfg.names), cfg.vars, cfg.names, grid, 0, (v, n));
    }
  }

  /**
   * The written score lands in its cell: for a projector name and a variable
   * that each occur once, the fold's cell is the score of lines 159-163.
   */
  lemma ScoreLandsInCell(cfg: Config, dbAll: Panel, key: FoldKey, sqrt: real -> real, p: nat, j: nat)
    requires ListsAgree(cfg) && p < |cfg.projectors| && j < |cfg.vars|
    requires forall p' :: 0 <= p' < |cfg.names| && cfg.names[p'] == cfg.names[p] ==> p' == p
    requires forall j' :: 0 <= j' < |cfg.vars| && cfg.vars[j'] == cfg.vars[j] ==> j' == j
    ensures LeaderPresent(cfg, dbAll, key) && ExtendStep(cfg, dbAll, key, sqrt, p, cfg.vars[j]).Write? && ExtendFold(cfg, dbAll, key, sqrt).Ok? ==>
      var v := cfg.vars[j];
      var yti := Investigated(cfg);
      var investigated := HeldOut(dbAll, key);
      var interpolated := cfg.projectors[p](ExtendTraining(Training(dbAll, key), v), v, cfg.options[p], InputToFill(investigated, yti));
      && (v, cfg.names[p]) in ExtendFold(cfg, dbAll, key, sqrt).value
      && ExtendFold(cfg, dbAll, key, sqrt).value[(v, cfg.names[p])] ==
           ExtendScore(interpolated, ExtendOriginals(investigated, v, yti), NormFactors(dbAll, v, SetOf(yti), sqrt), sqrt)
  {
    if LeaderPresent(cfg, dbAll, key) && ExtendStep(cfg, dbAll, key, sqrt, p, cfg.vars[j]).Write? {
      var grid: seq<seq<Step>> := ExtendGrid(cfg, dbAll, key, sqrt);
      GridEntry(cfg, dbAll, key, sqrt, p, j);
      WrittenCell(cfg, dbAll, key, sqrt, p, cfg.vars[j]);
      assert ExtendFold(cfg, dbAll, key, sqrt) == WriteGrid(Fresh(cfg.vars, cfg.names), cfg.vars, cfg.names, grid, 0);
      GridWritesCell(Fresh(cfg.vars, cfg.names), cfg.vars, cfg.names, grid, 0, p, j);
    }
  }

  /** The cell a writing step carries is the score of lines 159-163. */
  lemma WrittenCell(cfg: Config, dbAll: Panel, key: FoldKey, sqrt: real -> real, p: nat, v: string)
    requires ListsAgree(cfg) && p < |cfg.projectors|
    ensures ExtendStep(cfg, dbAll, key, sqrt, p, v).Write? ==>
      var yti := Investigated(cfg);
      var investigated := HeldOut(dbAll, key);
      var interpolated := cfg.projectors[p](ExtendTraining(Training(dbAll, key), v), v, cfg.options[p], InputToFill(investigated, yti));
      ExtendStep(cfg, dbAll, key, sqrt, p, v).cell ==
        ExtendScore(interpolated, ExtendOriginals(investigated, v, yti), NormFactors(dbAll, v, SetOf(yti), sqrt), sqrt)
  {
  }

  /**
   * The zero-spread skip: when the spread of v over `db_all` at the last
   * investigated year is 0, every cell of v stays missing (a zero spread at an
   * earlier year does not skip; see ZeroSpreadMismatchUnbounded).
   */
  lemma LastYearZeroSpreadLeavesMissing(cfg: Config, dbAll: Panel, key: FoldKey, sqrt: real -> real, v: string)
    requires ListsAgree(cfg)
    requires v in cfg.vars
    requires |Investigated(cfg)| > 0 && StdAt(dbAll, v, Investigated(cfg)[|Investigated(cfg)| - 1], sqrt) == Some(0.0)
    ensures ExtendFold(cfg, dbAll, key, sqrt).Ok? ==>
      forall n :: n in cfg.names ==> (v, n) in ExtendFold(cfg, dbAll, key, sqrt).value && ExtendFold(cfg, dbAll, key, sqrt).value[(v, n)] == Missing
  {
    forall n | n in cfg.names
      ensures ExtendFold(cfg, dbAll, key, sqrt).Ok? ==> (v, n) in ExtendFold(cfg, dbAll, key, sqrt).value && ExtendFold(cfg, dbAll, key, sqrt).value[(v, n)] == Missing
    {
      forall p | 0 <= p < |cfg.projectors| ensures ExtendStep(cfg, dbAll, key, sqrt, p, v) == Skip {
        ExtendStepCases(cfg, dbAll, key, sqrt, p, v);
      }
      UnwrittenCellStaysMissing(cfg, dbAll, key, sqrt, v, n);
    }
  }

  /** With no withheld value of v in the investigated years, every cell of v stays missing. */
  lemma NoOriginalsLeavesCellsMissing(cfg: Config, dbAll: Panel, key: FoldKey, sqrt: real -> real, v: string)
    requires ListsAgree(cfg)
    requires v in cfg.vars
    requires |Investigated(cfg)| > 0 && |ExtendOriginals(HeldOut(dbAll, key), v, Investigated(cfg))| == 0
    ensures ExtendFold(cfg, dbAll, key, sqrt).Ok? ==>
      forall n :: n in cfg.names ==> (v, n) in ExtendFold(cfg, dbAll, key, sqrt).value && ExtendFold(cfg, dbAll, key, sqrt).value[(v, n)] == Missing
  {
    forall n | n in cfg.names
      ensures ExtendFold(cfg, dbAll, key, sqrt).Ok? ==> (v, n) in ExtendFold(cfg, dbAll, key, sqrt).value && ExtendFold(cfg, dbAll, key, sqrt).value[(v, n)] == Missing
    {
      forall p | 0 <= p < |cfg.projectors| ensures ExtendStep(cfg, dbAll, key, sqrt, p, v) == Skip {
        ExtendStepCases(cfg, dbAll, key, sqrt, p, v);
      }
      UnwrittenCellStaysMissing(cfg, dbAll, key, sqrt, v, n);
    }
  }

  // ---- the run --------------------------------------------------------------------------

  /** The fold tables of a run, in fold order. */
  function FoldTables(cfg: Config, dbAll: Panel, sqrt: real -> real): Result<seq<Table>>
    requires ListsAgree(cfg)
  {
    Collect(ExtendResults(cfg, dbAll, FoldsToRun(cfg.toCompare, dbAll), sqrt), [], 0)
  }

  /** With agreeing lists, a failing run fails with `0 / 0` (no fold) or the expected error of a failing fold. */
  lemma RunFailure(cfg: Config, raw: Panel, sqrt: real -> real)
    requires ListsAgree(cfg)
    ensures ExtendersRun(cfg, raw, sqrt).Err? ==>
      ExtendersRun(cfg, raw, sqrt).failure == NoFolds || ExtendersRun(cfg, raw, sqrt).failure == ExpectedFailure(cfg)
  {
    var dbAll := SelectPanel(raw, cfg);
    var folds := FoldsToRun(cfg.toCompare, dbAll);
    var results := ExtendResults(cfg, dbAll, folds, sqrt);
    CollectAll(results);
    if Collect(results, [], 0).Err? {
      var m :| 0 <= m < |results| && results[m] == Err(Collect(results, [], 0).failure);
      ExtendFoldFailsIff(cfg, dbAll, folds[m], sqrt);
    }
  }

  /**
   * pandas' groupby visits the folds in sorted key order, the model in order
   * of first appearance. Over any reordering of the folds the run fails or
   * succeeds alike, and a successful run gives the same summary table.
   */
  lemma FoldOrderIrrelevant(cfg: Config, dbAll: Panel, order: seq<FoldKey>, sqrt: real -> real)
    requires ListsAgree(cfg)
    requires multiset(order) == multiset(FoldsToRun(cfg.toCompare, dbAll))
    ensures
      var a := Collect(ExtendResults(cfg, dbAll, order, sqrt), [], 0);
      var b := Collect(ExtendResults(cfg, dbAll, FoldsToRun(cfg.toCompare, dbAll), sqrt), [], 0);
      && (a.Ok? <==> b.Ok?)
      && (a.Ok? ==> Aggregate(a.value) == Aggregate(b.value))
  {
    var folds := FoldsToRun(cfg.toCompare, dbAll);
    var f := (key: FoldKey) => ExtendFold(cfg, dbAll, key, sqrt);
    assert ExtendResults(cfg, dbAll, order, sqrt) == Map(order, f);
    assert ExtendResults(cfg, dbAll, folds, sqrt) == Map(folds, f);
    MapPermutation(order, folds, f);
    CollectPermutation(ExtendResults(cfg, dbAll, order, sqrt), ExtendResults(cfg, dbAll, folds, sqrt));
    var a := Collect(ExtendResults(cfg, dbAll, order, sqrt), [], 0);
    if a.Ok? {
      AggregatePermutation(a.value, Collect(ExtendResults(cfg, dbAll, folds, sqrt), [], 0).value);
    }
  }

  /** The run aborts with the configuration error exactly when the three configuration lists differ in length. */
  lemma ConfigMismatchAborts(cfg: Config, raw: Panel, sqrt: real -> real)
    ensures ExtendersRun(cfg, raw, sqrt) == Err(ConfigMismatch) <==> !ListsAgree(cfg)
  {
    if ListsAgree(cfg) {
      RunFailure(cfg, raw, sqrt);
    }
  }

  /**
   * With agreeing lists the run succeeds exactly when there is a fold and no
   * fold fails, and it ends in `0 / 0` exactly when there is no fold.
   */
  lemma ExtendersRunOkIff(cfg: Config, raw: Panel, sqrt: real -> real)
    requires ListsAgree(cfg)
    ensures
      var dbAll := SelectPanel(raw, cfg);
      var folds := FoldsToRun(cfg.toCompare, dbAll);
      && (ExtendersRun(cfg, raw, sqrt).Ok? <==>
            |folds| > 0 && forall m :: 0 <= m < |folds| ==> ExtendFold(cfg, dbAll, folds[m], sqrt).Ok?)
      && (ExtendersRun(cfg, raw, sqrt) == Err(NoFolds) <==> |folds| == 0)
  {
    var dbAll := SelectPanel(raw, cfg);
    var folds := FoldsToRun(cfg.toCompare, dbAll);
    var results := ExtendResults(cfg, dbAll, folds, sqrt);
    CollectAll(results);
    assert forall m :: 0 <= m < |folds| ==> results[m] == ExtendFold(cfg, dbAll, folds[m], sqrt);
    if Collect(results, [], 0).Err? {
      var m :| 0 <= m < |results| && results[m] == Err(Collect(results, [], 0).failure);
      ExtendFoldFailsIff(cfg, dbAll, folds[m], sqrt);
    }
    if |folds| == 0 {
      assert Collect(results, [], 0) == Ok([]);
    } else if Collect(results, [], 0).Ok? {
      assert |Collect(results, [], 0).value| > 0;
    }
  }

  /**
   * The summary of a successful run: one table per fold in fold order, and
   * the (variable, name) cells, each the mean of that cell's defined fold
   * values (+inf if a fold gave +inf, missing when no fold defined it).
   */
  lemma ExtendersSummary(cfg: Config, raw: Panel, sqrt: real -> real)
    requires ListsAgree(cfg) && IsSqrt(sqrt)
    ensures
      var dbAll := SelectPanel(raw, cfg);
      var folds := FoldsToRun(cfg.toCompare, dbAll);
      var run := ExtendersRun(cfg, raw, sqrt);
      run.Ok? ==>
        && FoldTables(cfg, dbAll, sqrt).Ok?
        && var ts := FoldTables(cfg, dbAll, sqrt).value;
        && |ts| == |folds|
        && (forall m :: 0 <= m < |folds| ==> ExtendFold(cfg, dbAll, folds[m], sqrt) == Ok(ts[m]))
        && (forall v, n :: (v, n) in run.value <==> v in cfg.vars && n in cfg.names)
        && (forall k :: k in run.value ==> run.value[k] == MeanOfDefined(Column(ts, k)))
        && ScoresNonNegative(run.value)
  {
    var dbAll := SelectPanel(raw, cfg);
    var folds := FoldsToRun(cfg.toCompare, dbAll);
    CollectAll(ExtendResults(cfg, dbAll, folds, sqrt));
    var tables := FoldTables(cfg, dbAll, sqrt);
    if tables.Ok? && |tables.value| > 0 {
      var ts := tables.value;
      var ks := Fresh(cfg.vars, cfg.names).Keys;
      forall m | 0 <= m < |ts| ensures ts[m].Keys == ks && ScoresNonNegative(ts[m]) {
        ExtendFoldShape(cfg, dbAll, folds[m], sqrt);
      }
      SummaryOfUniformTables(ts, ks);
    }
  }
}
