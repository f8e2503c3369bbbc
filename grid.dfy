/**
 * The loop structure shared by both comparison scripts. A fold's result table
 * is filled method by method and, inside, variable by variable; each loop body
 * either skips, fails, or writes one cell. Its decision depends on the inputs
 * only, never on the table, so one fold is a grid of steps (a row per method,
 * a step per variable) applied to the table in loop order. The run maps the
 * folds in order and stops at the first failing one.
 */
module Grid {
  import opened Results
  import opened Permutations

  /** One row of steps per method name, one step per variable. */
  predicate IsGrid(grid: seq<seq<Step>>, vars: seq<string>, names: seq<string>)
  {
    |grid| == |names| && forall c :: 0 <= c < |grid| ==> |grid[c]| == |vars|
  }

  /** The variable loop of one method from position j on. */
  function WriteRow(t: Table, vars: seq<string>, name: string, row: seq<Step>, j: nat): Result<Table>
    requires |row| == |vars|
    decreases |vars| - j
  {
    if j >= |vars| then Ok(t)
    else
      match row[j]
      case Skip => WriteRow(t, vars, name, row, j + 1)
      case Abort(e) => Err(e)
      case Write(cell) => WriteRow(t[(vars[j], name) := cell], vars, name, row, j + 1)
  }

  /** One pass of the variable loop: what is left of the row after step j. */
  lemma RowAdvance(t: Table, vars: seq<string>, name: string, row: seq<Step>, j: nat)
    requires |row| == |vars| && j < |vars|
    ensures row[j].Skip? ==> WriteRow(t, vars, name, row, j) == WriteRow(t, vars, name, row, j + 1)
    ensures row[j].Abort? ==> WriteRow(t, vars, name, row, j) == Err(row[j].failure)
    ensures row[j].Write? ==> WriteRow(t, vars, name, row, j) == WriteRow(t[(vars[j], name) := row[j].cell], vars, name, row, j + 1)
  {
  }

  /** The method loop from position c on. */
  function WriteGrid(t: Table, vars: seq<string>, names: seq<string>, grid: seq<seq<Step>>, c: nat): Result<Table>
    requires IsGrid(grid, vars, names)
    decreases |names| - c
  {
    if c >= |names| then Ok(t)
    else
      match WriteRow(t, vars, names[c], grid[c], 0)
      case Err(e) => Err(e)
      case Ok(t') => WriteGrid(t', vars, names, grid, c + 1)
  }

  /** `pool.map` over the folds from position i on: the fold tables in order, or the first failure. */
  function Collect(results: seq<Result<Table>>, acc: seq<Table>, i: nat): Result<seq<Table>>
    decreases |results| - i
  {
    if i >= |results| then Ok(acc)
    else
      match results[i]
      case Err(e) => Err(e)
      case Ok(t) => Collect(results, acc + [t], i + 1)
  }

  // ---- failure ---------------------------------------------------------------------------

  ghost predicate RowAborts(row: seq<Step>, j: nat)
  {
    exists j' :: j <= j' < |row| && row[j'].Abort?
  }

  /** A row fails exactly when one of its remaining steps fails, and with that step's error. */
  lemma {:induction false} RowFails(t: Table, vars: seq<string>, name: string, row: seq<Step>, j: nat)
    requires |row| == |vars|
    ensures WriteRow(t, vars, name, row, j).Err? <==> RowAborts(row, j)
    ensures WriteRow(t, vars, name, row, j).Err? ==>
      exists j' :: j <= j' < |row| && row[j'] == Abort(WriteRow(t, vars, name, row, j).failure)
    decreases |vars| - j
  {
    if j < |vars| {
      match row[j]
      case Skip =>
        RowFails(t, vars, name, row, j + 1);
        assert RowAborts(row, j) ==> RowAborts(row, j + 1);
      case Abort(e) =>
      case Write(cell) =>
        RowFails(t[(vars[j], name) := cell], vars, name, row, j + 1);
        assert RowAborts(row, j) ==> RowAborts(row, j + 1);
    }
  }

  ghost predicate GridAborts(grid: seq<seq<Step>>, c: nat)
  {
    exists c' :: c <= c' < |grid| && RowAborts(grid[c'], 0)
  }

  /**
   * The fold fails exactly when some step of the grid fails; its error is the
   * error of such a step.
   */
  lemma {:induction false} GridFails(t: Table, vars: seq<string>, names: seq<string>, grid: seq<seq<Step>>, c: nat)
    requires IsGrid(grid, vars, names)
    ensures WriteGrid(t, vars, names, grid, c).Err? <==> GridAborts(grid, c)
    ensures WriteGrid(t, vars, names, grid, c).Err? ==>
      exists c', j :: c <= c' < |grid| && 0 <= j < |vars| && grid[c'][j] == Abort(WriteGrid(t, vars, names, grid, c).failure)
    decreases |names| - c
  {
    if c < |names| {
      RowFails(t, vars, names[c], grid[c], 0);
      var r := WriteRow(t, vars, names[c], grid[c], 0);
      if r.Ok? {
        GridFails(r.value, vars, names, grid, c + 1);
        assert GridAborts(grid, c) ==> GridAborts(grid, c + 1);
      }
    }
  }

  /** The first clause of GridFails, spelt out over the steps. */
  lemma GridFailsIff(t: Table, vars: seq<string>, names: seq<string>, grid: seq<seq<Step>>)
    requires IsGrid(grid, vars, names)
    ensures WriteGrid(t, vars, names, grid, 0).Err? <==>
      exists c, j :: 0 <= c < |grid| && 0 <= j < |vars| && grid[c][j].Abort?
  {
    GridFails(t, vars, names, grid, 0);
    if WriteGrid(t, vars, names, grid, 0).Err? {
      var c :| 0 <= c < |grid| && RowAborts(grid[c], 0);
      var j :| 0 <= j < |grid[c]| && grid[c][j].Abort?;
    } else {
      forall c, j | 0 <= c < |grid| && 0 <= j < |vars| ensures !grid[c][j].Abort? {
        assert !RowAborts(grid[c], 0);
      }
    }
  }

  // ---- the cells -------------------------------------------------------------------------

  /** Every cell a step of the grid writes is a non-negative score, NaN or +inf. */
  ghost predicate WritesNonNegative(grid: seq<seq<Step>>)
  {
    forall c, j :: 0 <= c < |grid| && 0 <= j < |grid[c]| && grid[c][j].Write? && grid[c][j].cell.Score? ==> grid[c][j].cell.value >= 0.0
  }

  /** No step of the grid writes +inf. */
  ghost predicate WritesBounded(grid: seq<seq<Step>>)
  {
    forall c, j :: 0 <= c < |grid| && 0 <= j < |grid[c]| && grid[c][j].Write? ==> grid[c][j].cell != Unbounded
  }

  ghost predicate Bounded(t: Table)
  {
    forall k :: k in t ==> t[k] != Unbounded
  }

  /** Every address the grid writes to. */
  ghost predicate CoversGrid(t: Table, vars: seq<string>, names: seq<string>)
  {
    forall v, n :: v in vars && n in names ==> (v, n) in t
  }

  lemma {:induction false} RowShape(t: Table, vars: seq<string>, names: seq<string>, grid: seq<seq<Step>>, c: nat, j: nat)
    requires IsGrid(grid, vars, names) && c < |names|
    requires CoversGrid(t, vars, names)
    ensures WriteRow(t, vars, names[c], grid[c], j).Ok? ==>
      var t' := WriteRow(t, vars, names[c], grid[c], j).value;
      && t'.Keys == t.Keys
      && CoversGrid(t', vars, names)
      && (WritesNonNegative(grid) && ScoresNonNegative(t) ==> ScoresNonNegative(t'))
      && (WritesBounded(grid) && Bounded(t) ==> Bounded(t'))
    decreases |vars| - j
  {
    if j < |vars| {
      match grid[c][j]
      case Skip =>
        RowShape(t, vars, names, grid, c, j + 1);
      case Abort(_) =>
      case Write(cell) =>
        var u := t[(vars[j], names[c]) := cell];
        assert (vars[j], names[c]) in t;
        assert u.Keys == t.Keys;
        RowShape(u, vars, names, grid, c, j + 1);
    }
  }

  /**
   * Filling keeps the table's addresses, and keeps its scores non-negative
   * (or its cells finite) when every written cell is.
   */
  lemma {:induction false} GridShape(t: Table, vars: seq<string>, names: seq<string>, grid: seq<seq<Step>>, c: nat)
    requires IsGrid(grid, vars, names)
    requires CoversGrid(t, vars, names)
    ensures WriteGrid(t, vars, names, grid, c).Ok? ==>
      var t' := WriteGrid(t, vars, names, grid, c).value;
      && t'.Keys == t.Keys
      && (WritesNonNegative(grid) && ScoresNonNegative(t) ==> ScoresNonNegative(t'))
      && (WritesBounded(grid) && Bounded(t) ==> Bounded(t'))
    decreases |names| - c
  {
    if c < |names| {
      RowShape(t, vars, names, grid, c, 0);
      var r := WriteRow(t, vars, names[c], grid[c], 0);
      if r.Ok? {
        GridShape(r.value, vars, names, grid, c + 1);
      }
    }
  }

  lemma {:induction false} RowKeepsCell(t: Table, vars: seq<string>, name: string, row: seq<Step>, j: nat, k: CellKey)
    requires |row| == |vars|
    requires k in t
    requires forall j' :: j <= j' < |vars| && k == (vars[j'], name) ==> !row[j'].Write?
    ensures WriteRow(t, vars, name, row, j).Ok? ==>
      k in WriteRow(t, vars, name, row, j).value && WriteRow(t, vars, name, row, j).value[k] == t[k]
    decreases |vars| - j
  {
    if j < |vars| {
      match row[j]
      case Skip =>
        RowKeepsCell(t, vars, name, row, j + 1, k);
      case Abort(_) =>
      case Write(cell) =>
        RowKeepsCell(t[(vars[j], name) := cell], vars, name, row, j + 1, k);
    }
  }

  /** A cell that no remaining step of the grid writes keeps its value. */
  lemma {:induction false} GridKeepsCell(t: Table, vars: seq<string>, names: seq<string>, grid: seq<seq<Step>>, c: nat, k: CellKey)
    requires IsGrid(grid, vars, names)
    requires k in t
    requires forall c', j :: c <= c' < |names| && 0 <= j < |vars| && k == (vars[j], names[c']) ==> !grid[c'][j].Write?
    ensures WriteGrid(t, vars, names, grid, c).Ok? ==>
      k in WriteGrid(t, vars, names, grid, c).value && WriteGrid(t, vars, names, grid, c).value[k] == t[k]
    decreases |names| - c
  {
    if c < |names| {
      RowKeepsCell(t, vars, names[c], grid[c], 0, k);
      var r := WriteRow(t, vars, names[c], grid[c], 0);
      if r.Ok? {
        GridKeepsCell(r.value, vars, names, grid, c + 1, k);
      }
    }
  }

  lemma {:induction false} RowWritesCell(t: Table, vars: seq<string>, name: string, row: seq<Step>, j: nat, j0: nat)
    requires |row| == |vars| && j <= j0 < |vars|
    requires row[j0].Write?
    requires forall j' :: j <= j' < |vars| && j' != j0 && vars[j'] == vars[j0] ==> !row[j'].Write?
    ensures WriteRow(t, vars, name, row, j).Ok? ==>
      (vars[j0], name) in WriteRow(t, vars, name, row, j).value
      && WriteRow(t, vars, name, row, j).value[(vars[j0], name)] == row[j0].cell
    decreases |vars| - j
  {
    if j < j0 {
      match row[j]
      case Skip =>
        RowWritesCell(t, vars, name, row, j + 1, j0);
      case Abort(_) =>
      case Write(cell) =>
        RowWritesCell(t[(vars[j], name) := cell], vars, name, row, j + 1, j0);
    } else {
      RowKeepsCell(t[(vars[j0], name) := row[j0].cell], vars, name, row, j0 + 1, (vars[j0], name));
    }
  }

  /**
   * The one step that writes a cell decides it: when no other remaining step
   * writes the same (variable, name), the finished table holds that step's cell.
   */
  lemma {:induction false} GridWritesCell(t: Table, vars: seq<string>, names: seq<string>, grid: seq<seq<Step>>, c: nat, c0: nat, j0: nat)
    requires IsGrid(grid, vars, names) && c <= c0 < |names| && j0 < |vars|
    requires grid[c0][j0].Write?
    requires forall c', j :: c <= c' < |names| && 0 <= j < |vars| && (c', j) != (c0, j0) && (vars[j], names[c']) == (vars[j0], names[c0]) ==>
      !grid[c'][j].Write?
    ensures WriteGrid(t, vars, names, grid, c).Ok? ==>
      (vars[j0], names[c0]) in WriteGrid(t, vars, names, grid, c).value
      && WriteGrid(t, vars, names, grid, c).value[(vars[j0], names[c0])] == grid[c0][j0].cell
    decreases |names| - c
  {
    var r := WriteRow(t, vars, names[c], grid[c], 0);
    if c < c0 {
      if r.Ok? {
        GridWritesCell(r.value, vars, names, grid, c + 1, c0, j0);
      }
    } else {
      RowWritesCell(t, vars, names[c0], grid[c0], 0, j0);
      if r.Ok? {
        GridKeepsCell(r.value, vars, names, grid, c0 + 1, (vars[j0], names[c0]));
      }
    }
  }

  // ---- the run ---------------------------------------------------------------------------

  ghost predicate SomeFails(results: seq<Result<Table>>, i: nat)
  {
    exists m :: i <= m < |results| && results[m].Err?
  }

  /** The map fails exactly when some remaining fold fails, and with such a fold's error. */
  lemma {:induction false} CollectFails(results: seq<Result<Table>>, acc: seq<Table>, i: nat)
    ensures Collect(results, acc, i).Err? <==> SomeFails(results, i)
    ensures Collect(results, acc, i).Err? ==> exists m :: i <= m < |results| && results[m] == Err(Collect(results, acc, i).failure)
    decreases |results| - i
  {
    if i < |results| && results[i].Ok? {
      CollectFails(results, acc + [results[i].value], i + 1);
      assert SomeFails(results, i) ==> SomeFails(results, i + 1);
    }
  }

  /** A successful map appends one table per fold, in fold order. */
  lemma {:induction false} CollectOk(results: seq<Result<Table>>, acc: seq<Table>, i: nat)
    requires i <= |results|
    ensures Collect(results, acc, i).Ok? ==>
      var ts := Collect(results, acc, i).value;
      && |ts| == |acc| + |results| - i
      && ts[..|acc|] == acc
      && forall m :: i <= m < |results| ==> results[m] == Ok(ts[|acc| + m - i])
    decreases |results| - i
  {
    if i < |results| && results[i].Ok? {
      var acc' := acc + [results[i].value];
      CollectOk(results, acc', i + 1);
      var res := Collect(results, acc, i);
      if res.Ok? {
        var ts := res.value;
        assert ts[..|acc'|] == acc';
        assert ts[..|acc|] == acc'[..|acc|] == acc;
        assert ts[|acc|] == acc'[|acc|] == results[i].value;
      }
    }
  }

  /** From the start: the fold tables in order when every fold succeeds, else a fold's failure. */
  lemma CollectAll(results: seq<Result<Table>>)
    ensures Collect(results, [], 0).Ok? <==> forall m :: 0 <= m < |results| ==> results[m].Ok?
    ensures Collect(results, [], 0).Ok? ==>
      && |Collect(results, [], 0).value| == |results|
      && forall m :: 0 <= m < |results| ==> results[m] == Ok(Collect(results, [], 0).value[m])
    ensures Collect(results, [], 0).Err? ==> exists m :: 0 <= m < |results| && results[m] == Err(Collect(results, [], 0).failure)
  {
    CollectFails(results, [], 0);
    CollectOk(results, [], 0);
  }

  /** The table of a successful fold result (an empty table for a failed one). */
  function TableOf(r: Result<Table>): Table
  {
    if r.Ok? then r.value else map[]
  }

  /**
   * Mapping the folds in another order: the run fails in one order exactly
   * when it fails in the other, and the collected tables are a reordering.
   */
  lemma CollectPermutation(rs: seq<Result<Table>>, qs: seq<Result<Table>>)
    requires multiset(rs) == multiset(qs)
    ensures Collect(rs, [], 0).Ok? <==> Collect(qs, [], 0).Ok?
    ensures Collect(rs, [], 0).Ok? ==> multiset(Collect(rs, [], 0).value) == multiset(Collect(qs, [], 0).value)
  {
    CollectAll(rs);
    CollectAll(qs);
    forall r ensures r in rs <==> r in qs {
      assert r in rs <==> r in multiset(rs);
    }
    if Collect(rs, [], 0).Ok? {
      forall m | 0 <= m < |qs| ensures qs[m].Ok? {
        assert qs[m] in rs;
      }
      assert Collect(rs, [], 0).value == Map(rs, TableOf);
      assert Collect(qs, [], 0).value == Map(qs, TableOf);
      MapPermutation(rs, qs, TableOf);
    } else if Collect(qs, [], 0).Ok? {
      forall m | 0 <= m < |rs| ensures rs[m].Ok? {
        assert rs[m] in qs;
      }
    }
  }
}
