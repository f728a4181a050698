/**
 * The number functions `TableAnalysis.build_function` of lib/TableAnalyser.ts
 * builds from a list of inputs. On an image, each column is rebuilt from
 * the generic functions it is made of; the function starts from every row of
 * the output column and narrows the rows down input by input — a fixed
 * value keeps the rows holding it, 'min' and 'max' keep the rows holding the
 * least or greatest number among those left, 'index' keeps the current row —
 * and returns the output at the first row left. The generic functions'
 * values are taken as given columns here.
 */
module TableFunctions {
  import opened Wrappers
  import Misc
  import opened TableColumns
  import TableAnalysis
  import TableSearch

  /** An input of a built function: a number (or null), 'min', 'max' or 'index'. */
  datatype Input = ValueInput(v: Cell) | MinInput | MaxInput | IndexInput

  // ---------------------------------------------------------------- columns

  /** `get_column`: count the columns (or take the first), then rank or inverse-rank it. */
  function GetColumn(desc: TableAnalysis.ColumnDesc, columns: seq<seq<Cell>>): (r: Result<seq<Cell>>)
    requires |columns| == |desc.indices|
    ensures r.Success? <==> |columns| > 0 && (desc.count ==> CountedArrays(columns).Success?)
  {
    var column := if desc.count then CountedArrays(columns) else if |columns| == 0 then Failure("TypeError") else Success(columns[0]);
    if column.Failure? then column
    else if desc.rank then Success(RankArray(column.value))
    else if desc.invRank then Success(InvRankArray(column.value))
    else column
  }

  /** A rebuilt column that is not counted has as many rows as its first generic function. */
  lemma GetColumnLength(desc: TableAnalysis.ColumnDesc, columns: seq<seq<Cell>>)
    requires |columns| == |desc.indices| && GetColumn(desc, columns).Success? && !desc.count
    ensures |GetColumn(desc, columns).value| == |columns[0]|
    ensures !desc.rank && !desc.invRank ==> GetColumn(desc, columns).value == columns[0]
  {
  }

  // ---------------------------------------------------------------- narrowing

  /** `Array.prototype.filter` on row indices. */
  function Filter(s: seq<nat>, keep: nat -> bool): (r: seq<nat>)
    ensures |r| <= |s|
    ensures forall x :: x in r <==> x in s && keep(x)
  {
    if |s| == 0 then [] else (if keep(s[0]) then [s[0]] else []) + Filter(s[1..], keep)
  }

  predicate Increasing(s: seq<nat>)
  {
    forall i, j :: 0 <= i < j < |s| ==> s[i] < s[j]
  }

  /** Filtering keeps the rows in their order. */
  lemma {:induction false} FilterIncreasing(s: seq<nat>, keep: nat -> bool)
    requires Increasing(s)
    ensures Increasing(Filter(s, keep))
  {
    if |s| > 0 {
      FilterIncreasing(s[1..], keep);
      var rest := Filter(s[1..], keep);
      forall j | 0 <= j < |rest|
        ensures s[0] < rest[j]
      {
        assert rest[j] in s[1..];
      }
    }
  }

  /** `[...range(n)]`. */
  function Range(n: nat): (r: seq<nat>)
    ensures |r| == n && forall i :: 0 <= i < n ==> r[i] == i
  {
    seq(n, i requires 0 <= i < n => i)
  }

  /** Every row left is a row of the column. */
  predicate InRange(column: seq<Cell>, rows: seq<nat>)
  {
    forall k :: 0 <= k < |rows| ==> rows[k] < |column|
  }

  /** `Math.min` over the rows, a null counting as +Infinity: the least number, if any. */
  function Least(column: seq<Cell>, rows: seq<nat>): (m: Option<int>)
    requires InRange(column, rows)
    ensures m.None? <==> forall k :: 0 <= k < |rows| ==> column[rows[k]].None?
    ensures m.Some? ==> exists k :: 0 <= k < |rows| && column[rows[k]] == m
    ensures m.Some? ==> forall k :: 0 <= k < |rows| && column[rows[k]].Some? ==> m.value <= column[rows[k]].value
  {
    if |rows| == 0 then None
    else
      var m := Least(column, rows[..|rows| - 1]);
      var c := column[rows[|rows| - 1]];
      assert forall k :: 0 <= k < |rows| - 1 ==> rows[..|rows| - 1][k] == rows[k];
      if c.None? then m else if m.None? || c.value < m.value then c else m
  }

  /** `Math.max` over the rows, a null counting as -Infinity: the greatest number, if any. */
  function Greatest(column: seq<Cell>, rows: seq<nat>): (m: Option<int>)
    requires InRange(column, rows)
    ensures m.None? <==> forall k :: 0 <= k < |rows| ==> column[rows[k]].None?
    ensures m.Some? ==> exists k :: 0 <= k < |rows| && column[rows[k]] == m
    ensures m.Some? ==> forall k :: 0 <= k < |rows| && column[rows[k]].Some? ==> column[rows[k]].value <= m.value
  {
    if |rows| == 0 then None
    else
      var m := Greatest(column, rows[..|rows| - 1]);
      var c := column[rows[|rows| - 1]];
      assert forall k :: 0 <= k < |rows| - 1 ==> rows[..|rows| - 1][k] == rows[k];
      if c.None? then m else if m.None? || c.value > m.value then c else m
  }

  /** The rows of `rows` whose entry is exactly `v`; a row past the column's end holds `undefined`. */
  function Holding(column: seq<Cell>, rows: seq<nat>, v: Cell): seq<nat>
  {
    Filter(rows, (i: nat) => i < |column| && column[i] == v)
  }

  /**
   * One input's filter. A row past the end of the column makes 'min' and
   * 'max' NaN, and no number equals NaN or an infinity.
   */
  function Select(input: Input, column: seq<Cell>, rows: seq<nat>, current: int): (r: seq<nat>)
    ensures forall x :: x in r ==> x in rows
  {
    match input
    case IndexInput => Filter(rows, i => i == current)
    case ValueInput(v) => Holding(column, rows, v)
    case MinInput =>
      if !InRange(column, rows) then []
      else (match Least(column, rows) case None => [] case Some(m) => Holding(column, rows, Some(m)))
    case MaxInput =>
      if !InRange(column, rows) then []
      else (match Greatest(column, rows) case None => [] case Some(m) => Holding(column, rows, Some(m)))
  }

  /** The inputs applied one after the other. */
  function Narrow(inputs: seq<Input>, columns: seq<seq<Cell>>, rows: seq<nat>, current: int): (r: seq<nat>)
    requires |columns| == |inputs|
    ensures forall x :: x in r ==> x in rows
  {
    if |inputs| == 0 then rows
    else Narrow(inputs[1..], columns[1..], Select(inputs[0], columns[0], rows, current), current)
  }

  /** The function's value: the output at the first row left, `undefined` (None) when none is left. */
  function Evaluate(inputs: seq<Input>, columns: seq<seq<Cell>>, output: seq<Cell>, current: int): Option<Cell>
    requires |columns| == |inputs|
  {
    var rows := Narrow(inputs, columns, Range(|output|), current);
    if |rows| == 0 then None
    else
      assert rows[0] in Range(|output|);
      Some(output[rows[0]])
  }

  /** `func`: the narrowing loop of a built function. */
  method EvaluateFunction(inputs: seq<Input>, columns: seq<seq<Cell>>, output: seq<Cell>, current: int) returns (r: Option<Cell>)
    requires |columns| == |inputs|
    ensures r == Evaluate(inputs, columns, output, current)
  {
    var rows: seq<nat> := Range(|output|);
    for i := 0 to |inputs|
      invariant forall x :: x in rows ==> x < |output|
      invariant Narrow(inputs[i..], columns[i..], rows, current) == Narrow(inputs, columns, Range(|output|), current)
    {
      assert inputs[i..][1..] == inputs[i + 1..] && columns[i..][1..] == columns[i + 1..];
      rows := Select(inputs[i], columns[i], rows, current);
    }
    assert inputs[|inputs|..] == [];
    if |rows| == 0 {
      r := None;
    } else {
      assert rows[0] in rows;
      r := Some(output[rows[0]]);
    }
  }

  // ---------------------------------------------------------- what is left

  /** Row i passes a fixed value or the index. */
  predicate Passes(input: Input, column: seq<Cell>, i: nat, current: int)
  {
    match input
    case IndexInput => i == current
    case ValueInput(v) => i < |column| && column[i] == v
    case MinInput => false
    case MaxInput => false
  }

  /** Only fixed values and the index. */
  predicate Plain(inputs: seq<Input>)
  {
    forall k :: 0 <= k < |inputs| ==> inputs[k].ValueInput? || inputs[k].IndexInput?
  }

  /** With fixed values and the index only, a row is left exactly when it passes every input. */
  lemma {:induction false} NarrowPlain(inputs: seq<Input>, columns: seq<seq<Cell>>, rows: seq<nat>, current: int, i: nat)
    requires |columns| == |inputs| && Plain(inputs)
    ensures i in Narrow(inputs, columns, rows, current) <==>
              i in rows && forall k :: 0 <= k < |inputs| ==> Passes(inputs[k], columns[k], i, current)
  {
    if |inputs| > 0 {
      var next := Select(inputs[0], columns[0], rows, current);
      NarrowPlain(inputs[1..], columns[1..], next, current, i);
      assert i in next <==> i in rows && Passes(inputs[0], columns[0], i, current);
      if i in rows && forall k :: 0 <= k < |inputs| ==> Passes(inputs[k], columns[k], i, current) {
        forall k | 0 <= k < |inputs| - 1
          ensures Passes(inputs[1..][k], columns[1..][k], i, current)
        {
          assert Passes(inputs[k + 1], columns[k + 1], i, current);
        }
      }
      if i in Narrow(inputs, columns, rows, current) {
        forall k | 0 <= k < |inputs|
          ensures Passes(inputs[k], columns[k], i, current)
        {
          if k > 0 {
            assert Passes(inputs[1..][k - 1], columns[1..][k - 1], i, current);
          }
        }
      }
    }
  }

  /**
   * 'min' keeps exactly the rows holding the least number among the rows
   * left, and nothing when no row left holds a number or a row is past the
   * column's end.
   */
  lemma SelectMin(column: seq<Cell>, rows: seq<nat>, current: int, i: nat)
    ensures i in Select(MinInput, column, rows, current) <==>
      && InRange(column, rows)
      && i in rows && i < |column| && column[i].Some?
      && forall k :: 0 <= k < |rows| && column[rows[k]].Some? ==> column[i].value <= column[rows[k]].value
  {
    if InRange(column, rows) && i in rows && i < |column| && column[i].Some? {
      var m := Least(column, rows);
      var k :| 0 <= k < |rows| && rows[k] == i;
      assert m.Some?;
    }
  }

  /** 'max' keeps exactly the rows holding the greatest number among the rows left. */
  lemma SelectMax(column: seq<Cell>, rows: seq<nat>, current: int, i: nat)
    ensures i in Select(MaxInput, column, rows, current) <==>
      && InRange(column, rows)
      && i in rows && i < |column| && column[i].Some?
      && forall k :: 0 <= k < |rows| && column[rows[k]].Some? ==> column[rows[k]].value <= column[i].value
  {
    if InRange(column, rows) && i in rows && i < |column| && column[i].Some? {
      var m := Greatest(column, rows);
      var k :| 0 <= k < |rows| && rows[k] == i;
      assert m.Some?;
    }
  }

  /** The rows left stay in order, so the function reads the first of them. */
  lemma {:induction false} NarrowIncreasing(inputs: seq<Input>, columns: seq<seq<Cell>>, rows: seq<nat>, current: int)
    requires |columns| == |inputs| && Increasing(rows)
    ensures Increasing(Narrow(inputs, columns, rows, current))
  {
    if |inputs| > 0 {
      var next := Select(inputs[0], columns[0], rows, current);
      assert Increasing(next) by {
        match inputs[0]
        case IndexInput => FilterIncreasing(rows, i => i == current);
        case ValueInput(v) => FilterIncreasing(rows, (i: nat) => i < |columns[0]| && columns[0][i] == v);
        case MinInput =>
          if InRange(columns[0], rows) && Least(columns[0], rows).Some? {
            FilterIncreasing(rows, (i: nat) => i < |columns[0]| && columns[0][i] == Least(columns[0], rows));
          }
        case MaxInput =>
          if InRange(columns[0], rows) && Greatest(columns[0], rows).Some? {
            FilterIncreasing(rows, (i: nat) => i < |columns[0]| && columns[0][i] == Greatest(columns[0], rows));
          }
      }
      NarrowIncreasing(inputs[1..], columns[1..], next, current);
    }
  }

  /** The function's value is the output at the lowest row that survives every input. */
  lemma EvaluateFirstRow(inputs: seq<Input>, columns: seq<seq<Cell>>, output: seq<Cell>, current: int)
    requires |columns| == |inputs|
    ensures var rows := Narrow(inputs, columns, Range(|output|), current);
      && (Evaluate(inputs, columns, output, current).None? <==> |rows| == 0)
      && (|rows| > 0 ==> rows[0] < |output| && Evaluate(inputs, columns, output, current) == Some(output[rows[0]])
                          && forall x :: x in rows ==> rows[0] <= x)
  {
    var rows := Narrow(inputs, columns, Range(|output|), current);
    NarrowIncreasing(inputs, columns, Range(|output|), current);
    if |rows| > 0 {
      assert rows[0] in Range(|output|);
      forall x | x in rows
        ensures rows[0] <= x
      {
        var j :| 0 <= j < |rows| && rows[j] == x;
      }
    }
  }

  /**
   * `build_index_dual_function`: the function with the single input 'index'
   * reads its column at the current row.
   */
  lemma IndexFunctionReadsRow(column: seq<Cell>, current: int)
    ensures Evaluate([IndexInput], [column], column, current) ==
              if 0 <= current < |column| then Some(column[current]) else None
  {
    var all := Range(|column|);
    var rows := Narrow([IndexInput], [column], all, current);
    forall x: nat
      ensures x in rows <==> x < |column| && x == current
    {
      NarrowPlain([IndexInput], [column], all, current, x);
      if x < |column| {
        assert all[x] == x;
      }
    }
    assert |rows| > 0 ==> rows[0] in rows;
    if 0 <= current < |column| {
      var c: nat := current;
      assert c in rows;
    }
  }

  /** The input columns rebuilt in order; the first that cannot be rebuilt stops the function. */
  function GetColumns(descs: seq<TableAnalysis.ColumnDesc>, columns: seq<seq<seq<Cell>>>): (r: Result<seq<seq<Cell>>>)
    requires |columns| == |descs| && forall k :: 0 <= k < |descs| ==> |columns[k]| == |descs[k].indices|
    ensures r.Success? ==> |r.value| == |descs|
  {
    if |descs| == 0 then Success([])
    else match GetColumns(descs[..|descs| - 1], columns[..|columns| - 1])
      case Failure(e) => Failure(e)
      case Success(done) =>
        match GetColumn(descs[|descs| - 1], columns[|columns| - 1])
        case Failure(e) => Failure(e)
        case Success(c) => Success(done + [c])
  }

  /** `func`: rebuild the input and output columns, then narrow. */
  function Apply(inputs: seq<Input>, inputsDesc: seq<TableAnalysis.ColumnDesc>, inputColumns: seq<seq<seq<Cell>>>,
                 outputDesc: TableAnalysis.ColumnDesc, outputColumns: seq<seq<Cell>>, current: int): Result<Option<Cell>>
    requires |inputsDesc| == |inputs| && |inputColumns| == |inputs|
    requires forall k :: 0 <= k < |inputs| ==> |inputColumns[k]| == |inputsDesc[k].indices|
    requires |outputColumns| == |outputDesc.indices|
  {
    match GetColumns(inputsDesc, inputColumns)
    case Failure(e) => Failure(e)
    case Success(columns) =>
      match GetColumn(outputDesc, outputColumns)
      case Failure(e) => Failure(e)
      case Success(output) => Success(Evaluate(inputs, columns, output, current))
  }

  /**
   * The function of `build_index_dual_function` over a column: the rebuilt
   * column at the current row, `undefined` off its end.
   */
  lemma IndexDualReadsRow(desc: TableAnalysis.ColumnDesc, columns: seq<seq<Cell>>, current: int)
    requires |columns| == |desc.indices|
    ensures var r := Apply([IndexInput], [desc], [columns], desc, columns, current);
      && (r.Success? <==> GetColumn(desc, columns).Success?)
      && (r.Success? ==> var c := GetColumn(desc, columns).value;
                          r.value == if 0 <= current < |c| then Some(c[current]) else None)
  {
    assert [desc][..0] == [] && [columns][..0] == [];
    if GetColumn(desc, columns).Success? {
      var c := GetColumn(desc, columns).value;
      assert [] + [c] == [c];
      assert GetColumns([desc], [columns]) == Success([c]);
      assert Apply([IndexInput], [desc], [columns], desc, columns, current) == Success(Evaluate([IndexInput], [c], c, current));
      IndexFunctionReadsRow(GetColumn(desc, columns).value, current);
    }
  }

  // --------------------------------------------- functions built by the search

  /** The inputs of the function built from a list of potential inputs: their values. */
  function ValueInputs(env: TableSearch.Env, indices: seq<nat>): (r: seq<Input>)
    requires TableSearch.Inputs(env, indices)
    ensures |r| == |indices| && Plain(r)
  {
    seq(|indices|, k requires 0 <= k < |indices| => ValueInput(env.inputValues[indices[k]]))
  }

  /** Their columns in example s. */
  function InputColumns(env: TableSearch.Env, indices: seq<nat>, s: nat): (r: seq<seq<Cell>>)
    requires TableSearch.WellFormed(env) && TableSearch.Inputs(env, indices) && s < |env.values|
    ensures |r| == |indices|
  {
    seq(|indices|, k requires 0 <= k < |indices| => env.inputColumns[indices[k]][s])
  }

  /** The rows the built function keeps are the rows the search's test matches. */
  lemma KeptIffMatches(env: TableSearch.Env, indices: seq<nat>, s: nat, i: nat)
    requires TableSearch.WellFormed(env) && TableSearch.Inputs(env, indices) && s < |env.values|
    ensures var inputs, columns := ValueInputs(env, indices), InputColumns(env, indices, s);
      (forall k :: 0 <= k < |inputs| ==> Passes(inputs[k], columns[k], i, 0)) <==> TableSearch.RowMatches(env, indices, s, i)
  {
    var inputs, columns := ValueInputs(env, indices), InputColumns(env, indices, s);
    forall k | 0 <= k < |indices|
      ensures Passes(inputs[k], columns[k], i, 0) <==>
        i < |env.inputColumns[indices[k]][s]| && env.inputColumns[indices[k]][s][i] == env.inputValues[indices[k]]
    {
    }
  }

  /** A row the test found holding the wanted value. */
  lemma WantedRow(env: TableSearch.Env, indices: seq<nat>, s: nat) returns (row: nat)
    requires TableSearch.WellFormed(env) && TableSearch.Inputs(env, indices) && s < |env.values|
    requires env.values[s] in TableSearch.Outputs(env, indices, s)
    ensures row < |env.output[s]| && TableSearch.RowMatches(env, indices, s, row)
  {
    row :| 0 <= row < |env.output[s]| && TableSearch.RowMatches(env, indices, s, row) && env.output[s][row] == Some(env.values[s]);
  }

  /**
   * A function built from a complete list gives a value on every example,
   * and when that value is a number it is the wanted one.
   */
  lemma CompleteFunctionAgrees(env: TableSearch.Env, indices: seq<nat>, s: nat)
    requires TableSearch.WellFormed(env) && TableSearch.Inputs(env, indices) && s < |env.values|
    requires TableSearch.VerdictOf(env, indices) == TableSearch.Complete
    ensures var r := Evaluate(ValueInputs(env, indices), InputColumns(env, indices, s), env.output[s], 0);
      r.Some? && (r.value.Some? ==> r.value.value == env.values[s])
  {
    var inputs, columns, output := ValueInputs(env, indices), InputColumns(env, indices, s), env.output[s];
    var rows := Narrow(inputs, columns, Range(|output|), 0);
    TableSearch.CompleteDetermines(env, indices, s);
    var row := WantedRow(env, indices, s);
    NarrowPlain(inputs, columns, Range(|output|), 0, row);
    KeptIffMatches(env, indices, s, row);
    assert Range(|output|)[row] == row;
    assert row in rows;
    EvaluateFirstRow(inputs, columns, output, 0);
    var first := rows[0];
    NarrowPlain(inputs, columns, Range(|output|), 0, first);
    KeptIffMatches(env, indices, s, first);
    if output[first].Some? {
      assert output[first].value in TableSearch.Outputs(env, indices, s);
    }
  }

  // --------------------------------------------- get_extended_number_functions

  /** A dual function `build_index_dual_function` makes: its generation, its column, its values. */
  datatype IndexDual = IndexDual(generation: nat, desc: TableAnalysis.ColumnDesc, values: seq<Cell>)

  /** A ranked or inverse-ranked column of a single generic function. */
  predicate Extendable(d: TableAnalysis.ColumnDesc)
  {
    (d.rank || d.invRank) && |d.indices| == 1
  }

  /** The index functions of the extendable columns among the first n, in column order. */
  function ExtendedFrom(t: TableAnalysis.Table, generation: nat, n: nat): (r: seq<IndexDual>)
    requires n <= |t.desc| && |t.samples| == |t.desc|
    ensures |r| <= n
  {
    if n == 0 then []
    else
      var r := ExtendedFrom(t, generation, n - 1);
      if Extendable(t.desc[n - 1]) then r + [IndexDual(generation + 1, t.desc[n - 1], Misc.Concat(t.samples[n - 1]))]
      else r
  }

  /**
   * Each extendable column gives one index function of the next generation,
   * whose values are the column's examples one after the other; no other
   * column gives one.
   */
  lemma {:induction false} ExtendedMeaning(t: TableAnalysis.Table, generation: nat, n: nat)
    requires n <= |t.desc| && |t.samples| == |t.desc|
    ensures forall d :: d in ExtendedFrom(t, generation, n) ==>
              d.generation == generation + 1 && Extendable(d.desc)
              && exists k :: 0 <= k < n && t.desc[k] == d.desc && d.values == Misc.Concat(t.samples[k])
    ensures forall k :: 0 <= k < n && Extendable(t.desc[k]) ==>
              IndexDual(generation + 1, t.desc[k], Misc.Concat(t.samples[k])) in ExtendedFrom(t, generation, n)
  {
    if n > 0 {
      ExtendedMeaning(t, generation, n - 1);
    }
  }

  /** `get_extended_number_functions`. */
  method ExtendedNumberFunctions(analysis: TableAnalysis.TableAnalysis, generation: nat) returns (r: seq<IndexDual>)
    requires |analysis.columnsSamples| == |analysis.columnsDesc|
    ensures r == ExtendedFrom(analysis.State(), generation, |analysis.columnsDesc|)
  {
    r := [];
    for i := 0 to |analysis.columnsDesc|
      invariant r == ExtendedFrom(analysis.State(), generation, i)
    {
      var desc := analysis.columnsDesc[i];
      if (desc.rank || desc.invRank) && |desc.indices| == 1 {
        r := r + [IndexDual(generation + 1, desc, Misc.Concat(analysis.columnsSamples[i]))];
      }
    }
  }
}
