# Cross-validation of infillers and extenders

This project models the evaluation engine of two scripts in the `silicone` repository:

- `scripts/compare_mulitple_infillers.py` scores multiple-infiller crunchers;
- `scripts/compare_extenders.py` scores time projectors (extenders).

Both scripts do leave-one-out cross-validation over a long-form emissions-scenario panel.
Each row of the panel is (model, scenario, region, variable, year, value).

- **Folds.** The panel is split into folds by (model, scenario). For every fold, each
  strategy is built on the other folds only and asked to reconstruct the fold's withheld
  data.
- **Scoring.** For each (variable, strategy) the script computes the root mean square of
  the residuals. Each residual is normalised by the population standard deviation
  (`np.std`) of that variable and year over the whole panel `db_all`.
- **Summary.** The per-fold tables are averaged cell by cell: `sum(fillna(0)) / sum(notnull())`.

The modules follow the scripts' structure:

- `Permutations` (`permutations.dfy`): mapping a function over a sequence, and the fact
  that mapping preserves reorderings; used to show that fold order does not matter.
- `Panel` (`panel.dfy`): rows, pyam's `filter` with `keep=True`/`keep=False`, the fold
  split, and the fold keys.
- `Stats` (`stats.dfy`): sums, means and the population standard deviation. The square
  root is a parameter, characterised by `IsSqrt`.
- `Results` (`results.dfy`): table cells (NaN, a finite score, or +inf), fold tables,
  the failures that end a run, and the summary reduction. The summary is related to an
  independent reference definition: the mean of the defined fold values.
- `Normalisation` (`normalisation.dfy`): the per-year normalisation factors, and the loop
  that fills them.
- `Grid` (`grid.dfy`): the loop structure the two scripts share. A fold's table is filled
  method by method and, inside that, variable by variable. Each loop body skips, raises,
  or writes one cell. Its decision never depends on the table, so a fold is a grid of such
  steps applied in loop order. The run maps the folds in order.
- `CompareInfillers` and `InfillersProperties` (`infillers.dfy`,
  `infillers_properties.dfy`): the infiller script, and what is proved about it.
- `CompareExtenders` and `ExtendersProperties` (`extenders.dfy`,
  `extenders_properties.dfy`): the extender script, and what is proved about it.

The loops of `_recalc_and_compare_results` and `main` are methods. Each is proved equal
to its specification function: `RecalcAndCompare` to `InfillFold`/`ExtendFold`, and
`CompareInfillers`/`CompareExtenders` to `InfillersRun`/`ExtendersRun`. The properties
are then lemmas about those functions.

Behaviours of the code that the model reproduces on purpose:

- The docstrings of both scripts (`compare_mulitple_infillers.py:12-13`,
  `compare_extenders.py:11-12`) say the difference is normalised "by the total range of
  the data". The code divides by the population standard deviation (`np.std`) of the
  variable and year over `db_all`, which includes the fold being evaluated. The model
  follows the code (`compare_mulitple_infillers.py:171-173`, `compare_extenders.py:135-137`).
- In the extender script, `norm_factor[year] == 0` (line 138) uses the loop variable left
  over from the year loop. So it tests only the last investigated year
  (`LastYearZeroSpreadLeavesMissing`). A zero spread at an earlier year is not skipped:
  it divides by zero and gives +inf or NaN (`ZeroSpreadMismatchUnbounded`).
- With no investigated year, that `year` is never bound. The first step then raises
  (`UnboundYearAborts`, failure `UnboundYear`).
- With no fold at all, `sum([])` is the integer 0 and the final division raises
  (failure `NoFolds`).
- In the infiller script, `interp_values - originals` is indexed by the withheld and the
  predicted years together, but the mask `norm_factor > 0` only by the predicted ones.
  Pandas refuses a boolean mask that does not cover the frame it indexes, so a withheld
  year the cruncher did not predict raises (failure `UnalignableMask`,
  `UnpredictedYearRaises`).
- The infiller script masks `norm_factor > 0`, so its scores are never +inf. The
  extender script does not mask, so a cell can be +inf.

## Model

| member | source | states |
|---|---|---|
| Panel.Filter | scripts/compare_mulitple_infillers.py:135-139 | the filtered panel holds exactly the rows that meet every criterion (keep) or fail one (keep=False), never more rows than the input |
| Panel.FilterSplits | scripts/compare_mulitple_infillers.py:135-139 | filtering with keep and with keep=False splits the panel: the two multisets add up to the panel |
| Panel.KeyCriteria | scripts/compare_mulitple_infillers.py:134 | the fold criteria match a row exactly when its (model, scenario) is the fold key |
| Panel.HeldOut | scripts/compare_mulitple_infillers.py:134-135 | the held-out slice holds exactly the panel's rows of the fold |
| Panel.Training | scripts/compare_mulitple_infillers.py:139 | the training slice holds exactly the panel's rows of the other folds |
| Panel.FoldPartition | scripts/compare_mulitple_infillers.py:134-139 | no leakage: the training slice has no row of the fold, the held-out slice only rows of the fold, and together they are the panel, each row once |
| Panel.YearsOf | scripts/compare_mulitple_infillers.py:155 | the year index of a series, one year per row, whose set is the panel's year set |
| Panel.ValueAt | scripts/compare_mulitple_infillers.py:148-150 | a year-indexed lookup is NaN exactly when the year is absent, else the value of a row of that year |
| Panel.FoldKeys | scripts/compare_mulitple_infillers.py:90-95 | the groupby index lists every (model, scenario) of the panel, each once, and nothing else |
| Panel.FoldsToRun | scripts/compare_mulitple_infillers.py:87-95 | the explicit list of folds when one is given, else every fold of the panel, each once |
| Panel.YearCountIffDistinct | scripts/compare_extenders.py:155-157 | `year.size == year.unique().size` holds exactly when no year repeats |
| Stats.Variance | scripts/compare_mulitple_infillers.py:171-173 | the population variance is never negative |
| Stats.PopulationStd | scripts/compare_mulitple_infillers.py:171-173 | `np.std`, defined as NaN for no values and else the root of the population variance; its contract is stated by `Stats.StdNonNegative` and `Stats.ConstantValuesHaveZeroStd` |
| Stats.StdNonNegative | scripts/compare_mulitple_infillers.py:171-173 | `np.std` is NaN exactly for no values and otherwise never negative |
| Stats.ConstantValuesHaveZeroStd | scripts/compare_extenders.py:135-138 | values that are all equal have spread exactly 0 |
| Results.Fresh | scripts/compare_mulitple_infillers.py:137 | the new fold table has exactly the (variable, method name) cells, all NaN |
| Results.SumOfFinite | scripts/compare_mulitple_infillers.py:116-117 | without +inf, `sum(fillna(0))` is the sum of the defined values and `sum(notnull())` their number |
| Results.AggregateCell | scripts/compare_mulitple_infillers.py:116-118 | one summary cell, `sum(fillna(0)) / sum(notnull())`; its meaning is stated by `Results.AggregateIsMeanOfDefined` |
| Results.Aggregate | scripts/compare_mulitple_infillers.py:116-118 | the summary table; its contract is stated by `Results.AggregateTable` and `Results.AggregatePermutation` |
| Results.InfiniteSum | scripts/compare_extenders.py:96-97 | one +inf makes the fill-0 sum +inf, with a non-zero count |
| Results.AggregateIsMeanOfDefined | scripts/compare_mulitple_infillers.py:116-118 | summary cell = mean of the defined fold values; +inf if a fold gave +inf; NaN if no fold defined the cell |
| Results.AggregateMissingIff | scripts/compare_mulitple_infillers.py:116-118 | a summary cell is NaN exactly when every fold left it NaN; it is never a fabricated 0 |
| Results.AggregateNonNegative | scripts/compare_mulitple_infillers.py:116-118 | non-negative fold scores give a non-negative summary score |
| Results.AggregateCellPermutation | scripts/compare_mulitple_infillers.py:116-118 | any reordering of a cell's fold values reduces to the same summary cell |
| Results.AggregatePermutation | scripts/compare_mulitple_infillers.py:116-118 | any reordering of the fold tables gives the same summary table |
| Results.AggregateTable | scripts/compare_mulitple_infillers.py:116-118 | the summary fails exactly when there is no fold table; else it covers every cell of any fold table, each the mean of its defined fold values where every fold table has the cell and NaN where one lacks it |
| Results.SummaryOfUniformTables | scripts/compare_mulitple_infillers.py:116-118 | fold tables over the same cells give a summary over those cells, each the mean of its defined values, non-negative when the fold scores are |
| Normalisation.NormFactors | scripts/compare_extenders.py:130-137 | the norm series has a factor for every listed year and no other |
| Normalisation.StdAt | scripts/compare_extenders.py:135-137 | the factor of one year; its contract is stated by `Normalisation.NormFactorNonNegative`, `NormFactorDefinedIff` and `NoSpreadMeansZeroFactor` |
| Normalisation.NormFactorNonNegative | scripts/compare_mulitple_infillers.py:171-173 | every normalisation factor is NaN or at least 0 |
| Normalisation.NormFactorDefinedIff | scripts/compare_mulitple_infillers.py:171-173 | a factor is defined exactly when `db_all` has a row of that variable in that year |
| Normalisation.NoSpreadMeansZeroFactor | scripts/compare_extenders.py:135-138 | where every row of a variable and year has the same value (for example a single row), the factor is exactly 0 |
| Normalisation.FillNormFactors | scripts/compare_extenders.py:134-137 | the year loop leaves the series equal to its previous entries overwritten by the factor of every listed year |
| Grid.RowFails | scripts/compare_mulitple_infillers.py:147-182 | a variable loop fails exactly when one of its steps raises, and with that step's error |
| Grid.WriteRow | scripts/compare_mulitple_infillers.py:147-182 | the variable loop of one method applied to the table; its contract is stated by `Grid.RowFails`, `RowShape`, `RowKeepsCell` and `RowWritesCell` |
| Grid.WriteGrid | scripts/compare_mulitple_infillers.py:141-182 | the method loop of one fold applied to the fresh table; its contract is stated by `Grid.GridFails`, `GridShape`, `GridKeepsCell` and `GridWritesCell` |
| Grid.Collect | scripts/compare_mulitple_infillers.py:112-113 | the map over the folds, stopping at the first failing one; its contract is stated by `Grid.CollectAll` |
| Grid.GridFails | scripts/compare_mulitple_infillers.py:141-182 | a fold fails exactly when some step of some method raises, and with that step's error |
| Grid.GridFailsIff | scripts/compare_mulitple_infillers.py:141-182 | a fold fails exactly when some (method, variable) step raises |
| Grid.RowShape | scripts/compare_mulitple_infillers.py:147-182 | a variable loop keeps the table's cell set and its non-negative or bounded cells |
| Grid.GridShape | scripts/compare_mulitple_infillers.py:141-182 | a fold keeps the fresh table's cell set, and non-negative or bounded writes leave every cell so |
| Grid.RowKeepsCell | scripts/compare_mulitple_infillers.py:147-182 | a cell no remaining step writes keeps its value |
| Grid.GridKeepsCell | scripts/compare_mulitple_infillers.py:141-182 | a cell no step of the remaining methods writes keeps its value |
| Grid.RowWritesCell | scripts/compare_mulitple_infillers.py:174-182 | the only step writing a cell puts its value there |
| Grid.GridWritesCell | scripts/compare_mulitple_infillers.py:141-182 | the only step of the fold writing a cell puts its value in the final table |
| Grid.CollectFails | scripts/compare_mulitple_infillers.py:112-113 | mapping the folds fails exactly when some fold fails, with that fold's error |
| Grid.CollectOk | scripts/compare_mulitple_infillers.py:112-113 | a successful map holds one table per fold in fold order |
| Grid.CollectAll | scripts/compare_mulitple_infillers.py:112-113 | the map succeeds exactly when every fold does; then it holds each fold's table in order; else it carries a failing fold's error |
| Grid.CollectPermutation | scripts/compare_mulitple_infillers.py:112-113 | mapping the folds in another order fails exactly when the original order fails, and otherwise collects a reordering of the same tables |
| CompareInfillers.ConsistencyFilter | scripts/compare_mulitple_infillers.py:79-84 | the row mask keeps exactly the rows of consistently splitting cases, each once, adding none |
| CompareInfillers.SelectPanel | scripts/compare_mulitple_infillers.py:77-78 | the region, year and variable selection; its rows are stated by `InfillersProperties.SelectPanelRows` |
| CompareInfillers.RunPanel | scripts/compare_mulitple_infillers.py:77-84 | the selection followed by the consistency mask; its rows are stated by `InfillersProperties.RunPanelRows` |
| CompareInfillers.LeaderInput | scripts/compare_mulitple_infillers.py:136 | `input_to_fill`; its rows are stated by `InfillersProperties.LeaderInputRows` |
| CompareInfillers.Infilled | scripts/compare_mulitple_infillers.py:141-146 | the cruncher sees the training slice and the leader input only, whose rows `Panel.Training` and `InfillersProperties.LeaderInputRows` state |
| CompareInfillers.Originals | scripts/compare_mulitple_infillers.py:148-150 | `originals`; its rows are stated by `InfillersProperties.OriginalsRows` |
| CompareInfillers.MaskedSquares | scripts/compare_mulitple_infillers.py:175-181 | at most one square per predicted row, each non-negative (the mask's alignment error of line 177 is raised by `CompareInfillers.StepOn` before the squares are taken) |
| CompareInfillers.InfillScore | scripts/compare_mulitple_infillers.py:174-182 | the masked score is never +inf; the rest of its contract is stated by `InfillersProperties.InfillScoreBounds` |
| CompareInfillers.StepOn | scripts/compare_mulitple_infillers.py:148-182 | the loop body for one variable; its cases are stated by `InfillersProperties.StepAbortsIff`, `InfillersProperties.GridSteps` and `InfillersProperties.ScoreLandsInCell` |
| CompareInfillers.InfillFold | scripts/compare_mulitple_infillers.py:123-184 | one fold's table; its contract is stated by `InfillersProperties.InfillFoldFailsIff`, `InfillFoldFailure` and `InfillFoldShape` |
| CompareInfillers.InfillersRun | scripts/compare_mulitple_infillers.py:72-118 | the whole run; its contract is stated by `InfillersProperties.InfillersRunOkIff`, `RunFailure` and `InfillersSummary` |
| CompareInfillers.ScoreVariable | scripts/compare_mulitple_infillers.py:148-182 | one variable's skips, year-count assertion, mask alignment error, norm loop and score equal the step function |
| CompareInfillers.RunCruncher | scripts/compare_mulitple_infillers.py:147-182 | the variable loop of a cruncher equals that cruncher's row of steps applied to the table |
| CompareInfillers.RecalcAndCompare | scripts/compare_mulitple_infillers.py:123-184 | `_recalc_and_compare_results` equals the fold function |
| CompareInfillers.CompareInfillers | scripts/compare_mulitple_infillers.py:72-118 | `main` (assertions, selection, consistency mask, folds, map, summary) equals the run function |
| InfillersProperties.MaskedSquaresEmptyIff | scripts/compare_mulitple_infillers.py:175-181 | there are no squares exactly when no predicted year has an original value and a positive factor |
| InfillersProperties.SelectPanelRows | scripts/compare_mulitple_infillers.py:77-78 | `db_all` before the consistency mask holds exactly the World rows of the listed years whose variable is a listed one or the leader |
| InfillersProperties.RunPanelRows | scripts/compare_mulitple_infillers.py:77-84 | the panel the folds run on holds exactly the selected rows of consistently splitting (model, scenario, region) cases |
| InfillersProperties.LeaderInputRows | scripts/compare_mulitple_infillers.py:136 | `input_to_fill` holds exactly the fold's rows of the leader |
| InfillersProperties.OriginalsRows | scripts/compare_mulitple_infillers.py:148-150 | `originals` holds exactly the fold's withheld rows of the variable |
| InfillersProperties.MaskedSquaresConstant | scripts/compare_mulitple_infillers.py:175-181 | equal squares at every scored year give a constant list of squares |
| InfillersProperties.InfillScoreBounds | scripts/compare_mulitple_infillers.py:174-182 | the score is never +inf; it is NaN exactly when no year is scored; else it is at least 0 |
| InfillersProperties.ExactInfillScoresZero | scripts/compare_mulitple_infillers.py:174-182 | a cruncher reproducing the originals scores exactly 0 once some year is scored |
| InfillersProperties.ConstantOffsetInfillScore | scripts/compare_mulitple_infillers.py:174-182 | a constant offset d against a constant spread s scores abs(d / s) |
| InfillersProperties.GridSteps | scripts/compare_mulitple_infillers.py:141-182 | every raising step raises the year-count error or the mask alignment error; with a real square root every written cell is NaN or a non-negative score |
| InfillersProperties.StepAbortsIff | scripts/compare_mulitple_infillers.py:151-178 | past both skips, a step raises the year-count error exactly when the frame lacks two rows per distinct year, and the mask error exactly when it has them but some withheld year is not predicted; it raises in no other case |
| InfillersProperties.InfillFoldFailsIff | scripts/compare_mulitple_infillers.py:141-178 | a fold fails exactly when some cruncher, for some variable, violates the year-count assertion or leaves a withheld year unpredicted |
| InfillersProperties.InfillFoldFailure | scripts/compare_mulitple_infillers.py:165-178 | a failing fold fails with the year-count error or the mask alignment error |
| InfillersProperties.UnpredictedYearRaises | scripts/compare_mulitple_infillers.py:155-178 | withheld A@2020 and A@2030 against predicted 2020 and 2040 of A and B pass both skips and the year-count assertion, then raise the mask alignment error |
| InfillersProperties.InfillFoldShape | scripts/compare_mulitple_infillers.py:137-182 | a fold table has exactly the (variable, cruncher name) cells, each NaN or a non-negative score |
| InfillersProperties.UnwrittenCellStaysMissing | scripts/compare_mulitple_infillers.py:137-164 | a cell stays NaN unless some cruncher of that name passes both skips for that variable |
| InfillersProperties.ScoreLandsInCell | scripts/compare_mulitple_infillers.py:174-182 | for a name and a variable that each occur once, the fold cell is the RMS score of that cruncher and variable |
| InfillersProperties.NoOriginalsLeavesCellsMissing | scripts/compare_mulitple_infillers.py:151-153 | without withheld data for a variable, all its cells stay NaN |
| InfillersProperties.SizeMismatchLeavesCellMissing | scripts/compare_mulitple_infillers.py:156-164 | a cruncher that returns a different number of values than were withheld leaves its cell NaN |
| InfillersProperties.ConfigMismatchAborts | scripts/compare_mulitple_infillers.py:72-73 | the run fails with the configuration error exactly when the cruncher, option and name lists differ in length |
| InfillersProperties.FoldOrderIrrelevant | scripts/compare_mulitple_infillers.py:87-118 | over any reordering of the folds the run fails or succeeds alike, and a successful run gives the same summary table |
| InfillersProperties.RunFailure | scripts/compare_mulitple_infillers.py:112-118 | with agreeing lists a failing run fails with 0 / 0, a fold's year-count error or a fold's mask alignment error |
| InfillersProperties.InfillersRunOkIff | scripts/compare_mulitple_infillers.py:112-118 | the run succeeds exactly when there is a fold and no fold fails; it fails with 0 / 0 exactly when there is no fold |
| InfillersProperties.InfillersSummary | scripts/compare_mulitple_infillers.py:116-118 | a successful summary covers exactly the (variable, name) cells; each is the mean of its defined fold values over the fold tables in fold order, NaN or non-negative |
| CompareExtenders.YearsToInvestigate | scripts/compare_extenders.py:58 | a year is investigated exactly when it is listed and later than the test year |
| CompareExtenders.SelectPanel | scripts/compare_extenders.py:62-65 | the region, year and variable selection; its rows are stated by `ExtendersProperties.SelectPanelRows` |
| CompareExtenders.InputToFill | scripts/compare_extenders.py:115-118 | `input_to_fill`; its rows are stated by `ExtendersProperties.InputToFillRows` |
| CompareExtenders.LeaderPresent | scripts/compare_extenders.py:120 | the leader check; its meaning is stated by `ExtendersProperties.LeaderPresentIff` |
| CompareExtenders.ExtendOriginals | scripts/compare_extenders.py:140-142 | `originals`; its rows are stated by `ExtendersProperties.OriginalsRows` |
| CompareExtenders.ExtendTraining | scripts/compare_extenders.py:146-147 | the projector's training panel `db`; its rows are stated by `ExtendersProperties.ExtendTrainingRows` |
| CompareExtenders.TermAt | scripts/compare_extenders.py:161 | one aligned entry of the squared normalised difference: a finite one is a non-negative square, and +inf only arises at a year whose factor is 0 |
| CompareExtenders.ExtendScore | scripts/compare_extenders.py:159-163 | the unmasked score; its contract is stated by `ExtendersProperties.ExtendScoreBounds` |
| CompareExtenders.StepOn | scripts/compare_extenders.py:134-163 | the loop body for one variable; its cases are stated by `ExtendersProperties.ExtendStepCases` |
| CompareExtenders.ExtendFold | scripts/compare_extenders.py:114-165 | one fold's table; its contract is stated by `ExtendersProperties.ExtendFoldFailsIff`, `LeaderAbsentGivesFresh` and `ExtendFoldShape` |
| CompareExtenders.ExtendersRun | scripts/compare_extenders.py:58-98 | the whole run; its contract is stated by `ExtendersProperties.ExtendersRunOkIff`, `RunFailure` and `ExtendersSummary` |
| CompareExtenders.ExtendVariable | scripts/compare_extenders.py:134-163 | one variable's norm loop, last-year skip, empty skip, assertion and score equal the step function; the series holds the variable's factors; the loop variable is bound exactly when a year is investigated, to the last one |
| CompareExtenders.RunProjector | scripts/compare_extenders.py:133-163 | the variable loop of a projector equals that projector's row of steps applied to the table |
| CompareExtenders.RecalcAndCompare | scripts/compare_extenders.py:102-165 | `_recalc_and_compare_results` equals the fold function |
| CompareExtenders.CompareExtenders | scripts/compare_extenders.py:58-98 | `main` (assertions, selection, folds, map, summary) equals the run function |
| ExtendersProperties.InvestigatedIncrease | scripts/compare_extenders.py:53-58 | increasing years give increasing investigated years, the last being the latest |
| ExtendersProperties.SelectPanelRows | scripts/compare_extenders.py:62-65 | `db_all` holds exactly the World rows of the listed years and investigated variables |
| ExtendersProperties.InputToFillRows | scripts/compare_extenders.py:115-118 | `input_to_fill` holds exactly the fold's rows outside the investigated years |
| ExtendersProperties.LeaderPresentIff | scripts/compare_extenders.py:115-120 | the leader check passes exactly when the fold has a leader row outside the investigated years |
| ExtendersProperties.TrainingRows | scripts/compare_extenders.py:128 | `db_filter` holds exactly the rows of the other folds |
| ExtendersProperties.ValidScenarios | scripts/compare_extenders.py:146 | `valid_scenarios` are exactly the scenarios with a row of the variable |
| ExtendersProperties.ExtendTrainingRows | scripts/compare_extenders.py:146-149 | no leakage: a projector is trained exactly on the other folds' rows of scenarios that report the variable in another fold |
| ExtendersProperties.OriginalsRows | scripts/compare_extenders.py:140-142 | `originals` holds exactly the fold's rows of the variable in the investigated years |
| ExtendersProperties.FiniteSquaresEmptyIff | scripts/compare_extenders.py:161 | there are no finite squares exactly when no entry is finite |
| ExtendersProperties.FiniteSquaresConstant | scripts/compare_extenders.py:161 | equal finite entries give a constant list of squares |
| ExtendersProperties.ExtendScoreBounds | scripts/compare_extenders.py:159-163 | the score is +inf exactly when some entry is +inf, NaN exactly when every entry is NaN, else at least 0 |
| ExtendersProperties.UnmatchedYearIgnored | scripts/compare_extenders.py:159-163 | a predicted year that the originals or the norm series lack does not change the score |
| ExtendersProperties.ZeroSpreadMismatchUnbounded | scripts/compare_extenders.py:159-163 | a wrong value at a year with zero spread makes the score +inf |
| ExtendersProperties.ExactExtensionScoresZero | scripts/compare_extenders.py:159-163 | a projector reproducing the originals scores exactly 0 once some year has a non-zero spread |
| ExtendersProperties.ExtendStepCases | scripts/compare_extenders.py:134-163 | exact conditions: raises unbound-year iff nothing is investigated; skips on a last-year zero spread or empty originals; raises duplicate-year iff it reaches the assertion with a repeated year; writes iff it gets past all of them |
| ExtendersProperties.StepScoresNonNegative | scripts/compare_extenders.py:159-163 | a written score is never negative |
| ExtendersProperties.WrittenCell | scripts/compare_extenders.py:149-163 | a writing step carries the RMS score of the projector's output against the originals |
| ExtendersProperties.LeaderAbsentGivesFresh | scripts/compare_extenders.py:119-126 | without the leader in `input_to_fill` the fold is the all-NaN table, whatever the projectors |
| ExtendersProperties.GridSteps | scripts/compare_extenders.py:132-163 | every raising step raises the expected error; with a real square root every written score is non-negative |
| ExtendersProperties.ExtendFoldFailsIff | scripts/compare_extenders.py:119-157 | a fold fails exactly when its leader is present and some step raises, and then with the expected error |
| ExtendersProperties.UnboundYearAborts | scripts/compare_extenders.py:134-138 | with no investigated year, a fold whose leader is present fails with the unbound loop variable once there is a projector and a variable |
| ExtendersProperties.ExtendFoldShape | scripts/compare_extenders.py:119-163 | a fold table has exactly the (variable, projector name) cells, with non-negative scores |
| ExtendersProperties.UnwrittenCellStaysMissing | scripts/compare_extenders.py:119-145 | a cell stays NaN unless some projector of that name writes it |
| ExtendersProperties.ScoreLandsInCell | scripts/compare_extenders.py:159-163 | for a name and a variable that each occur once, with the leader present and the step writing, the fold cell is the RMS score of that projector and variable |
| ExtendersProperties.LastYearZeroSpreadLeavesMissing | scripts/compare_extenders.py:138-139 | a zero spread at the last investigated year leaves every cell of the variable NaN |
| ExtendersProperties.NoOriginalsLeavesCellsMissing | scripts/compare_extenders.py:140-145 | without withheld values in the investigated years, every cell of the variable stays NaN |
| ExtendersProperties.ConfigMismatchAborts | scripts/compare_extenders.py:59-60 | the run fails with the configuration error exactly when the projector, option and name lists differ in length |
| ExtendersProperties.FoldOrderIrrelevant | scripts/compare_extenders.py:67-98 | over any reordering of the folds the run fails or succeeds alike, and a successful run gives the same summary table |
| ExtendersProperties.RunFailure | scripts/compare_extenders.py:93-98 | with agreeing lists a failing run fails with 0 / 0 or the expected error of a failing fold |
| ExtendersProperties.ExtendersRunOkIff | scripts/compare_extenders.py:93-98 | the run succeeds exactly when there is a fold and no fold fails; it fails with 0 / 0 exactly when there is no fold |
| ExtendersProperties.ExtendersSummary | scripts/compare_extenders.py:96-98 | a successful summary covers exactly the (variable, name) cells; each is the mean of its defined fold values (+inf if a fold gave +inf) over the fold tables in fold order, with non-negative scores |

## Left out

- File input and output are not modelled: reading the CSV, downloading SR1.5 data, and writing the summary and workings files. The panel is an input and the summary a result.
- `Pool.map` over the folds is modelled as a sequential map in fold order. The first failing fold in that order supplies the error. The exception `Pool.map` re-raises when several folds fail is not modelled.
- The cruncher classes (`infill_components`), the projector classes (`derive_relationship` and its filler), and `return_cases_which_consistently_split` belong to the library and are not modelled. They are function parameters of the configuration.
- `np.sqrt` / `** 0.5` is a parameter `sqrt`. The lemmas that need it to be a square root assume `IsSqrt`: non-negative on non-negatives, and the root of a square is the absolute value.
- Floating point is modelled as exact reals. NaN and +inf are the cell states `Missing` and `Unbounded`, and rounding is not modelled.
- Pandas index alignment with repeated years is not modelled. A year-indexed series is read as its first row of that year (`ValueAt`). `(interp_values - originals)` is taken one row of the prediction at a time, against that value.
- The groupby index is sorted in pandas; the model lists the fold keys in order of first appearance. Any reordering of the folds changes neither whether the run fails nor its summary (`FoldOrderIrrelevant`, `AggregatePermutation`). It changes only which error surfaces when several folds fail.
- Repeated method names in the configuration are not modelled faithfully. With a repeated column label, `results_db[name]` returns a copy of several columns, so the write does not reach `results_db` and those cells stay NaN. The model writes the cell, and the last write wins.
- `leaders not in input_to_fill.variables(False).values` compares a one-element list with NumPy's `in`. It is modelled as membership of the single leader `leaders[0]`.
- `years` is a `range` in both scripts. The model takes any sequence. Only `InvestigatedIncrease` needs it increasing.
- `print` diagnostics and the plotting option `save_plots` are not modelled. Neither changes the results.
- The plotting script of the repository is not part of this model.
- Tables over different label sets are not modelled exactly. Pandas aligns summed frames on the union of row labels and the union of column labels, so its sum also holds (variable, method) pairs that no single table has, all NaN. The model's summary covers the union of the tables' cells, and is NaN at a cell some table lacks. Every fold table of a run has the same cells (`InfillFoldShape`, `ExtendFoldShape`), so this case does not arise in the two scripts.
- With no investigated year, `filter(year=[], keep=False)` (`compare_extenders.py:116-118`) is taken to return every row of the fold. What pyam does with an empty year list is not part of this model.
- The library strategies are total functions of the configuration. A cruncher or projector that raises is not modelled, so the lemmas that say exactly when a fold fails cover only the errors the two scripts raise themselves.
