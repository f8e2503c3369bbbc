/**
 * Fold result tables (variable x method, one float per cell) and their
 * reduction into the summary table: `sum(notnull) ` counts, `sum(fillna(0))`
 * sums, and the cell-wise quotient.
 */
module Results {
  import opened Wrappers
  import opened Permutations
  import Stats

  /** A table cell as pandas holds it: NaN (missing), a finite score, or +inf. */
  datatype Cell = Missing | Score(value: real) | Unbounded

  /** A cell is addressed by (variable, method name). */
  type CellKey = (string, string)

  type Table = map<CellKey, Cell>

  /** Keyword options handed, unchanged, to one strategy. */
  type Options = map<string, seq<string>>

  /** The exceptions that end a run. */
  datatype Failure =
    | ConfigMismatch    // the strategy, name and options lists differ in length
    | YearCountMismatch // infilled frame without exactly two entries per distinct year
    | UnalignableMask   // the boolean mask `norm_factor > 0` lacks a withheld year: pandas' IndexingError
    | DuplicateYears    // a projector returned some year twice
    | UnboundYear       // no investigated year, so the loop variable `year` is never bound
    | NoFolds           // no fold table to reduce: 0 / 0

  datatype Result<T> = Ok(value: T) | Err(failure: Failure)

  /** What the innermost loop body does for one (method, variable): skip it, fail, or write its cell. */
  datatype Step = Skip | Abort(failure: Failure) | Write(cell: Cell)

  /** `pd.DataFrame(index=vars, columns=names)`: every (variable, method) cell, all NaN. */
  function Fresh(vars: seq<string>, names: seq<string>): (t: Table)
    ensures forall v, n :: (v, n) in t <==> v in vars && n in names
    ensures forall k :: k in t ==> t[k] == Missing
  {
    map v, n | v in vars && n in names :: (v, n) := Missing
  }

  /** The values one cell takes across the fold tables (absent counts as NaN). */
  function Column(tables: seq<Table>, k: CellKey): (cells: seq<Cell>)
    ensures |cells| == |tables|
    ensures forall i :: 0 <= i < |tables| ==> cells[i] == if k in tables[i] then tables[i][k] else Missing
  {
    seq(|tables|, i requires 0 <= i < |tables| => if k in tables[i] then tables[i][k] else Missing)
  }

  /** `sum(result.notnull() ...)` for one cell. */
  function NotNullCount(cells: seq<Cell>): nat
  {
    if cells == [] then 0 else (if cells[0].Missing? then 0 else 1) + NotNullCount(cells[1..])
  }

  /** `sum(result.fillna(0) ...)` for one cell: a finite sum, or +inf once an inf is added. */
  function FillZeroSum(cells: seq<Cell>): Cell
  {
    if cells == [] then Score(0.0)
    else
      match (cells[0], FillZeroSum(cells[1..]))
      case (Unbounded, _) => Unbounded
      case (_, Unbounded) => Unbounded
      case (Score(x), Score(s)) => Score(x + s)
      case (_, rest) => rest
  }

  /** `overall_results / results_count` for one cell; 0 / 0 is NaN. */
  function Quotient(sum: Cell, count: nat): Cell
  {
    if count == 0 then Missing
    else
      match sum
      case Score(s) => Score(s / count as real)
      case _ => sum
  }

  function AggregateCell(cells: seq<Cell>): Cell
  {
    Quotient(FillZeroSum(cells), NotNullCount(cells))
  }

  /** Every cell address of any fold table. */
  function KeysOf(tables: seq<Table>): set<CellKey>
  {
    if tables == [] then {} else tables[0].Keys + KeysOf(tables[1..])
  }

  /** Every fold table has a cell at k. */
  predicate InEvery(tables: seq<Table>, k: CellKey)
  {
    forall t | t in tables :: k in t
  }

  /**
   * The summary table of lines 96-98 and 116-118. Adding two frames aligns
   * them and gives NaN at an address one of them lacks, so a cell is only
   * reduced where every fold table has it. With no fold table at all,
   * `sum([])` is the integer 0 and `0 / 0` raises.
   */
  function Aggregate(tables: seq<Table>): Result<Table>
  {
    if |tables| == 0 then Err(NoFolds)
    else Ok(map k | k in KeysOf(tables) :: if InEvery(tables, k) then AggregateCell(Column(tables, k)) else Missing)
  }

  // ---- the reference definition: the mean of the defined fold values ------------------

  /** The finite values of a column, in order. */
  function Defined(cells: seq<Cell>): seq<real>
  {
    if cells == [] then []
    else (if cells[0].Score? then [cells[0].value] else []) + Defined(cells[1..])
  }

  /** The mean over the folds that produced a value; +inf if one produced inf; NaN if none did. */
  function MeanOfDefined(cells: seq<Cell>): Cell
  {
    if Unbounded in cells then Unbounded
    else if |Defined(cells)| == 0 then Missing
    else Score(Stats.Mean(Defined(cells)))
  }

  lemma {:induction false} SumOfFinite(cells: seq<Cell>)
    requires Unbounded !in cells
    ensures FillZeroSum(cells) == Score(Stats.Sum(Defined(cells)))
    ensures NotNullCount(cells) == |Defined(cells)|
  {
    if cells != [] {
      assert Unbounded !in cells[1..] by {
        assert forall c :: c in cells[1..] ==> c in cells;
      }
      SumOfFinite(cells[1..]);
      assert Defined(cells) == (if cells[0].Score? then [cells[0].value] else []) + Defined(cells[1..]);
      if cells[0].Score? {
        var d := Defined(cells);
        assert d == [cells[0].value] + Defined(cells[1..]);
        assert d[0] == cells[0].value && d[1..] == Defined(cells[1..]);
        assert Stats.Sum(d) == cells[0].value + Stats.Sum(Defined(cells[1..]));
      } else {
        assert Defined(cells) == [] + Defined(cells[1..]) == Defined(cells[1..]);
      }
    }
  }

  lemma {:induction false} InfiniteSum(cells: seq<Cell>)
    requires Unbounded in cells
    ensures FillZeroSum(cells) == Unbounded && NotNullCount(cells) > 0
  {
    if cells[0] != Unbounded {
      assert Unbounded in cells[1..] by {
        var i :| 0 <= i < |cells| && cells[i] == Unbounded;
        assert cells[1..][i - 1] == Unbounded;
      }
      InfiniteSum(cells[1..]);
    }
  }

  /**
   * Aggregation correctness: the pandas reduction (fill-0 sum over not-null count)
   * is the mean of the defined fold values; with no defined value it is missing.
   */
  lemma AggregateIsMeanOfDefined(cells: seq<Cell>)
    ensures AggregateCell(cells) == MeanOfDefined(cells)
  {
    if Unbounded in cells {
      InfiniteSum(cells);
    } else {
      SumOfFinite(cells);
    }
  }

  lemma {:induction false} DefinedEmptyIff(cells: seq<Cell>)
    requires Unbounded !in cells
    ensures |Defined(cells)| == 0 <==> forall i :: 0 <= i < |cells| ==> cells[i] == Missing
  {
    if cells != [] {
      assert Unbounded !in cells[1..] by {
        assert forall c :: c in cells[1..] ==> c in cells;
      }
      DefinedEmptyIff(cells[1..]);
      assert forall i :: 1 <= i < |cells| ==> cells[i] == cells[1..][i - 1];
    }
  }

  /** A summary cell is missing exactly when no fold defined it; it is never a fabricated 0. */
  lemma AggregateMissingIff(cells: seq<Cell>)
    ensures AggregateCell(cells) == Missing <==> forall i :: 0 <= i < |cells| ==> cells[i] == Missing
  {
    AggregateIsMeanOfDefined(cells);
    if Unbounded !in cells {
      DefinedEmptyIff(cells);
    }
  }

  lemma {:induction false} DefinedNonNegative(cells: seq<Cell>)
    requires forall i :: 0 <= i < |cells| && cells[i].Score? ==> cells[i].value >= 0.0
    ensures forall j :: 0 <= j < |Defined(cells)| ==> Defined(cells)[j] >= 0.0
  {
    if cells != [] {
      assert forall i :: 1 <= i < |cells| ==> cells[i] == cells[1..][i - 1];
      DefinedNonNegative(cells[1..]);
    }
  }

  /** Averaging non-negative fold scores gives a non-negative summary score. */
  lemma AggregateNonNegative(cells: seq<Cell>)
    requires forall i :: 0 <= i < |cells| && cells[i].Score? ==> cells[i].value >= 0.0
    ensures AggregateCell(cells).Score? ==> AggregateCell(cells).value >= 0.0
  {
    AggregateIsMeanOfDefined(cells);
    if AggregateCell(cells).Score? {
      DefinedNonNegative(cells);
      Stats.MeanNonNegative(Defined(cells));
    }
  }

  lemma {:induction false} DefinedConcat(a: seq<Cell>, b: seq<Cell>)
    ensures Defined(a + b) == Defined(a) + Defined(b)
  {
    if a == [] {
      assert a + b == b;
    } else {
      assert (a + b)[0] == a[0] && (a + b)[1..] == a[1..] + b;
      DefinedConcat(a[1..], b);
      var h := if a[0].Score? then [a[0].value] else [];
      assert Defined(a + b) == h + Defined(a[1..] + b);
      assert Defined(a) == h + Defined(a[1..]);
    }
  }

  lemma {:induction false} SumConcat(xs: seq<real>, ys: seq<real>)
    ensures Stats.Sum(xs + ys) == Stats.Sum(xs) + Stats.Sum(ys)
  {
    if xs == [] {
      assert xs + ys == ys;
    } else {
      assert (xs + ys)[0] == xs[0] && (xs + ys)[1..] == xs[1..] + ys;
      SumConcat(xs[1..], ys);
    }
  }

  lemma {:induction false} DefinedPermutation(a: seq<Cell>, b: seq<Cell>)
    requires multiset(a) == multiset(b)
    ensures multiset(Defined(a)) == multiset(Defined(b))
    decreases |a|
  {
    if a == [] {
      assert |b| == |multiset(b)| == 0;
    } else {
      var j := Remove(a, b);
      DefinedPermutation(a[1..], b[..j] + b[j + 1..]);
      assert a == [a[0]] + a[1..];
      DefinedConcat([a[0]], a[1..]);
      DefinedConcat(b[..j], b[j + 1..]);
      DefinedConcat(b[..j] + [b[j]], b[j + 1..]);
      DefinedConcat(b[..j], [b[j]]);
      assert Defined([a[0]]) == Defined([b[j]]);
    }
  }

  lemma {:induction false} SumPermutation(xs: seq<real>, ys: seq<real>)
    requires multiset(xs) == multiset(ys)
    ensures Stats.Sum(xs) == Stats.Sum(ys)
    decreases |xs|
  {
    if xs == [] {
      assert |ys| == |multiset(ys)| == 0;
    } else {
      var j := Remove(xs, ys);
      SumPermutation(xs[1..], ys[..j] + ys[j + 1..]);
      assert xs == [xs[0]] + xs[1..];
      SumConcat([xs[0]], xs[1..]);
      SumConcat(ys[..j], ys[j + 1..]);
      SumConcat(ys[..j] + [ys[j]], ys[j + 1..]);
      SumConcat(ys[..j], [ys[j]]);
    }
  }

  /** Fold order does not matter: any reordering of a cell's fold values reduces to the same summary cell. */
  lemma AggregateCellPermutation(a: seq<Cell>, b: seq<Cell>)
    requires multiset(a) == multiset(b)
    ensures AggregateCell(a) == AggregateCell(b)
  {
    AggregateIsMeanOfDefined(a);
    AggregateIsMeanOfDefined(b);
    DefinedPermutation(a, b);
    SumPermutation(Defined(a), Defined(b));
    assert Unbounded in a <==> Unbounded in multiset(a);
    assert |Defined(a)| == |multiset(Defined(a))|;
    assert |Defined(b)| == |multiset(Defined(b))|;
  }

  lemma {:induction false} KeysOfMembers(tables: seq<Table>)
    ensures forall k :: k in KeysOf(tables) <==> exists t :: t in tables && k in t
  {
    if tables != [] {
      KeysOfMembers(tables[1..]);
      assert forall t :: t in tables <==> t == tables[0] || t in tables[1..];
    }
  }

  lemma ColumnPermutation(ts: seq<Table>, us: seq<Table>, k: CellKey)
    requires multiset(ts) == multiset(us)
    ensures multiset(Column(ts, k)) == multiset(Column(us, k))
  {
    var f := (t: Table) => if k in t then t[k] else Missing;
    assert Column(ts, k) == Map(ts, f);
    assert Column(us, k) == Map(us, f);
    MapPermutation(ts, us, f);
  }

  lemma SameMembers(ts: seq<Table>, us: seq<Table>)
    requires multiset(ts) == multiset(us)
    ensures |ts| == |us|
    ensures forall t :: t in ts <==> t in us
  {
    assert |ts| == |multiset(ts)| == |us|;
    forall t ensures t in ts <==> t in us {
      assert t in ts <==> t in multiset(ts);
    }
  }

  lemma KeysOfPermutation(ts: seq<Table>, us: seq<Table>)
    requires forall t :: t in ts <==> t in us
    ensures KeysOf(ts) == KeysOf(us)
  {
    KeysOfMembers(ts);
    KeysOfMembers(us);
    forall k ensures k in KeysOf(ts) ==> k in KeysOf(us) {
      if k in KeysOf(ts) {
        var t :| t in ts && k in t;
        assert t in us;
      }
    }
  }

  /** Fold order does not matter: any reordering of the fold tables gives the same summary table. */
  lemma AggregatePermutation(ts: seq<Table>, us: seq<Table>)
    requires multiset(ts) == multiset(us)
    ensures Aggregate(ts) == Aggregate(us)
  {
    SameMembers(ts, us);
    KeysOfPermutation(ts, us);
    if |ts| > 0 {
      var a, b := Aggregate(ts).value, Aggregate(us).value;
      forall k | k in KeysOf(ts)
        ensures a[k] == b[k]
      {
        assert InEvery(ts, k) <==> InEvery(us, k);
        ColumnPermutation(ts, us, k);
        AggregateCellPermutation(Column(ts, k), Column(us, k));
      }
      assert a == b;
    }
  }

  /**
   * The summary table: defined exactly when there is a fold, with each cell the
   * mean of its defined fold values where every fold table has the cell, and
   * missing where one lacks it.
   */
  lemma AggregateTable(tables: seq<Table>)
    ensures Aggregate(tables).Err? <==> |tables| == 0
    ensures Aggregate(tables).Ok? ==>
      && Aggregate(tables).value.Keys == KeysOf(tables)
      && forall k :: k in Aggregate(tables).value ==>
        Aggregate(tables).value[k] == if InEvery(tables, k) then MeanOfDefined(Column(tables, k)) else Missing
  {
    forall k | k in KeysOf(tables) {
      AggregateIsMeanOfDefined(Column(tables, k));
    }
  }

  /** Every score in the table is non-negative. */
  ghost predicate ScoresNonNegative(t: Table)
  {
    forall k :: k in t && t[k].Score? ==> t[k].value >= 0.0
  }

  lemma {:induction false} KeysOfUniform(ts: seq<Table>, ks: set<CellKey>)
    requires |ts| > 0
    requires forall m :: 0 <= m < |ts| ==> ts[m].Keys == ks
    ensures KeysOf(ts) == ks
  {
    if |ts| > 1 {
      KeysOfUniform(ts[1..], ks);
    }
  }

  /**
   * The summary of fold tables over the same cells: one cell per address, the
   * mean of its defined fold values, and non-negative when the fold scores are.
   */
  lemma SummaryOfUniformTables(ts: seq<Table>, ks: set<CellKey>)
    requires |ts| > 0
    requires forall m :: 0 <= m < |ts| ==> ts[m].Keys == ks && ScoresNonNegative(ts[m])
    ensures Aggregate(ts).Ok?
    ensures Aggregate(ts).value.Keys == ks
    ensures forall k :: k in ks ==> Aggregate(ts).value[k] == MeanOfDefined(Column(ts, k))
    ensures ScoresNonNegative(Aggregate(ts).value)
  {
    AggregateTable(ts);
    KeysOfUniform(ts, ks);
    var summary := Aggregate(ts).value;
    forall k | k in summary && summary[k].Score? ensures summary[k].value >= 0.0 {
      var cells := Column(ts, k);
      assert forall i :: 0 <= i < |cells| && cells[i].Score? ==> cells[i].value >= 0.0 by {
        forall i | 0 <= i < |cells| && cells[i].Score? ensures cells[i].value >= 0.0 {
          assert k in ts[i] && ScoresNonNegative(ts[i]);
        }
      }
      AggregateNonNegative(cells);
    }
  }
}
