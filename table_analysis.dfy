/**
 * `TableAnalysis.init` of lib/TableAnalyser.ts: the table of columns the
 * analyser derives from the generic number functions. Each column holds,
 * per example, the function's value on every row the mapping lets through.
 * The columns are derived in four phases:
 *   1. a basic column per generic function that is not constant and not
 *      already present;
 *   2. a count column per basic column;
 *   3. count columns over two to five basic columns together, grown in up
 *      to four rounds;
 *   4. rank and inverse-rank columns of the count columns and of the basic
 *      number columns.
 * Every phase skips a column whose `samples_values_key` it has met already.
 */
module TableAnalysis {
  import opened Wrappers
  import opened TableColumns

  datatype ColumnType = NumberColumn | ColorColumn | GridColumn

  /** `ColumnDescription`: the generic functions a column is made from, and how. */
  datatype ColumnDesc = ColumnDesc(indices: seq<nat>, count: bool, rank: bool, invRank: bool, kind: ColumnType)

  /** A column: per example, the entries of its rows. */
  type Samples = seq<seq<Cell>>

  /** The analyser's three tables: `columns_desc`, `columns_samples`, `columns_map`. */
  datatype Table = Table(desc: seq<ColumnDesc>, samples: seq<Samples>, index: map<nat, nat>)

  /** The table, and the list of column lists to grow in the next round. */
  datatype Stage = Stage(t: Table, work: seq<seq<nat>>)

  /** The type of generic function i: numbers come first, then colours, then grids. */
  function KindOf(i: nat, numberCount: nat, colorCount: nat): ColumnType
  {
    if i < numberCount then NumberColumn else if i < numberCount + colorCount then ColorColumn else GridColumn
  }

  /** The keys of the columns from `from` on: what a phase has recorded as seen. */
  function KeysFrom(samples: seq<Samples>, from: nat): set<string>
  {
    set k | from <= k < |samples| :: SamplesKey(samples[k])
  }

  function Append(t: Table, d: ColumnDesc, v: Samples): Table
  {
    Table(t.desc + [d], t.samples + [v], t.index)
  }

  /** t0's columns are the first columns of t, and the map is unchanged. */
  predicate Extends(t: Table, t0: Table)
  {
    && |t.desc| == |t.samples|
    && |t0.desc| <= |t.desc| && |t0.samples| <= |t.samples|
    && t.desc[..|t0.desc|] == t0.desc && t.samples[..|t0.samples|] == t0.samples
    && t.index == t0.index
  }

  /** Every column is made from at least one generic function and has one entry per example. */
  predicate Shaped(t: Table, examples: nat)
  {
    && |t.desc| == |t.samples|
    && (forall k :: 0 <= k < |t.desc| ==> |t.desc[k].indices| > 0)
    && (forall k :: 0 <= k < |t.samples| ==> |t.samples[k]| == examples)
  }

  // ------------------------------------------------------ phase 1: basic columns

  /** The basic columns after looking at the first n generic functions. */
  function Basic(values: seq<Samples>, numberCount: nat, colorCount: nat, n: nat): (t: Table)
    requires n <= |values|
    ensures |t.desc| == |t.samples|
  {
    if n == 0 then Table([], [], map[])
    else BasicStep(values, numberCount, colorCount, Basic(values, numberCount, colorCount, n - 1), n - 1)
  }

  /** Generic function i looked at: its column is added, and the map sends i to it, when its values vary and are new. */
  function BasicStep(values: seq<Samples>, numberCount: nat, colorCount: nat, t: Table, i: nat): (r: Table)
    requires i < |values| && |t.desc| == |t.samples|
    ensures |r.desc| == |r.samples|
  {
    var v := values[i];
    if !SameValue(v) && SamplesKey(v) !in KeysFrom(t.samples, 0) then
      Table(t.desc + [ColumnDesc([i], false, false, false, KindOf(i, numberCount, colorCount))],
            t.samples + [v], t.index[i := |t.desc|])
    else t
  }

  lemma BasicSnoc(values: seq<Samples>, numberCount: nat, colorCount: nat, i: nat)
    requires i < |values|
    ensures Basic(values, numberCount, colorCount, i + 1)
      == BasicStep(values, numberCount, colorCount, Basic(values, numberCount, colorCount, i), i)
  {
  }

  /** Column k is the basic column of generic function f. */
  predicate BasicColumn(t: Table, values: seq<Samples>, numberCount: nat, colorCount: nat, k: nat, f: nat)
    requires k < |t.desc| && k < |t.samples| && f < |values|
  {
    && t.desc[k] == ColumnDesc([f], false, false, false, KindOf(f, numberCount, colorCount))
    && t.samples[k] == values[f]
    && !SameValue(values[f])
    && f in t.index && t.index[f] == k
  }

  /**
   * Each basic column is the column of one non-constant generic function,
   * which the map sends to it; the map holds nothing else; and the
   * columns' values are pairwise distinct.
   */
  lemma BasicMeaning(values: seq<Samples>, numberCount: nat, colorCount: nat, n: nat)
    requires n <= |values|
    ensures var t := Basic(values, numberCount, colorCount, n);
            && |t.desc| == |t.samples|
            && (forall k :: 0 <= k < |t.desc| ==>
                  |t.desc[k].indices| == 1 && t.desc[k].indices[0] < n
                  && BasicColumn(t, values, numberCount, colorCount, k, t.desc[k].indices[0]))
            && (forall f :: f in t.index ==> f < n && t.index[f] < |t.desc| && t.desc[t.index[f]].indices == [f])
            && (forall k, k' :: 0 <= k < k' < |t.samples| ==> t.samples[k] != t.samples[k'])
  {
    BasicInvariant(values, numberCount, colorCount, n);
    var t := Basic(values, numberCount, colorCount, n);
    forall k | 0 <= k < |t.desc|
      ensures |t.desc[k].indices| == 1 && t.desc[k].indices[0] < n
      ensures BasicColumn(t, values, numberCount, colorCount, k, t.desc[k].indices[0])
    {
      assert BasicAt(values, numberCount, colorCount, n, t, k);
    }
    forall f | f in t.index
      ensures f < n && t.index[f] < |t.desc| && t.desc[t.index[f]].indices == [f]
    {
      assert IndexAt(n, t, f);
    }
  }

  /** Column k is the basic column of a generic function below n. */
  predicate BasicAt(values: seq<Samples>, numberCount: nat, colorCount: nat, n: nat, t: Table, k: nat)
    requires n <= |values| && k < |t.desc| == |t.samples|
  {
    |t.desc[k].indices| == 1 && t.desc[k].indices[0] < n
    && BasicColumn(t, values, numberCount, colorCount, k, t.desc[k].indices[0])
  }

  /** The map sends generic function f, below n, to its column. */
  predicate IndexAt(n: nat, t: Table, f: nat)
    requires f in t.index
  {
    f < n && t.index[f] < |t.desc| && t.desc[t.index[f]].indices == [f]
  }

  /** The meaning of the basic columns after looking at the generic functions below n. */
  predicate BasicInv(values: seq<Samples>, numberCount: nat, colorCount: nat, n: nat, t: Table)
  {
    && |t.desc| == |t.samples| && n <= |values|
    && (forall k :: 0 <= k < |t.desc| ==> BasicAt(values, numberCount, colorCount, n, t, k))
    && (forall f :: f in t.index ==> IndexAt(n, t, f))
    && DistinctFrom(t.samples, 0)
  }

  lemma {:induction false} BasicInvariant(values: seq<Samples>, numberCount: nat, colorCount: nat, n: nat)
    requires n <= |values|
    ensures BasicInv(values, numberCount, colorCount, n, Basic(values, numberCount, colorCount, n))
  {
    if n > 0 {
      BasicInvariant(values, numberCount, colorCount, n - 1);
      BasicMeaningStep(values, numberCount, colorCount, n - 1, n, Basic(values, numberCount, colorCount, n - 1));
    }
  }

  /** Looking at generic function i keeps the meaning of the basic columns, now for the functions below i + 1. */
  lemma BasicMeaningStep(values: seq<Samples>, numberCount: nat, colorCount: nat, i: nat, n: nat, t: Table)
    requires i < |values| && i + 1 == n
    requires BasicInv(values, numberCount, colorCount, i, t)
    ensures BasicInv(values, numberCount, colorCount, n, BasicStep(values, numberCount, colorCount, t, i))
  {
    var v := values[i];
    var t' := BasicStep(values, numberCount, colorCount, t, i);
    if !SameValue(v) && SamplesKey(v) !in KeysFrom(t.samples, 0) {
      AppendFresh(t.samples, 0, v);
      forall k | 0 <= k < |t'.desc|
        ensures BasicAt(values, numberCount, colorCount, n, t', k)
      {
        if k < |t.desc| {
          assert BasicAt(values, numberCount, colorCount, i, t, k);
        }
      }
      forall f | f in t'.index
        ensures IndexAt(n, t', f)
      {
        if f != i {
          assert IndexAt(i, t, f);
        }
      }
    } else {
      forall k | 0 <= k < |t.desc|
        ensures BasicAt(values, numberCount, colorCount, n, t, k)
      {
        assert BasicAt(values, numberCount, colorCount, i, t, k);
      }
      forall f | f in t.index
        ensures IndexAt(n, t, f)
      {
        assert IndexAt(i, t, f);
      }
    }
  }

  /** Every non-constant generic function has its values among the basic columns. */
  lemma {:induction false} BasicComplete(values: seq<Samples>, numberCount: nat, colorCount: nat, n: nat, f: nat)
    requires f < n <= |values| && !SameValue(values[f])
    ensures exists k :: 0 <= k < |Basic(values, numberCount, colorCount, n).samples|
                        && Basic(values, numberCount, colorCount, n).samples[k] == values[f]
  {
    var t := Basic(values, numberCount, colorCount, n - 1);
    if f < n - 1 {
      BasicComplete(values, numberCount, colorCount, n - 1, f);
      var k :| 0 <= k < |t.samples| && t.samples[k] == values[f];
      assert Basic(values, numberCount, colorCount, n).samples[k] == values[f];
    } else if SamplesKey(values[f]) in KeysFrom(t.samples, 0) {
      var k :| 0 <= k < |t.samples| && SamplesKey(t.samples[k]) == SamplesKey(values[f]);
      SamplesKeyInjective(t.samples[k], values[f]);
      assert Basic(values, numberCount, colorCount, n) == t;
    } else {
      assert Basic(values, numberCount, colorCount, n).samples[|t.samples|] == values[f];
    }
  }

  // ------------------------------------------------------ phase 2: count columns

  /** `columns_samples[i].map(count_array)`. */
  function CountedSamples(v: Samples): (r: Samples)
    ensures |r| == |v|
  {
    seq(|v|, e requires 0 <= e < |v| => Counted(v[e]))
  }

  /** The table and the single-column work list after counting basic columns 0, …, n - 1. */
  function Counts(t0: Table, basicEnd: nat, n: nat): (s: Stage)
    requires n <= basicEnd == |t0.desc| == |t0.samples|
    ensures |s.t.desc| == |s.t.samples| == basicEnd + |s.work|
  {
    if n == 0 then Stage(t0, [])
    else CountStep(t0, basicEnd, Counts(t0, basicEnd, n - 1), n - 1)
  }

  /** Basic column i counted: appended, with i added to the work list, when its counts vary and are new. */
  function CountStep(t0: Table, basicEnd: nat, s: Stage, i: nat): (r: Stage)
    requires i < basicEnd == |t0.desc| == |t0.samples|
    requires |s.t.desc| == |s.t.samples| == basicEnd + |s.work|
    ensures |r.t.desc| == |r.t.samples| == basicEnd + |r.work|
  {
    var v := CountedSamples(t0.samples[i]);
    if !SameValue(v) && SamplesKey(v) !in KeysFrom(s.t.samples, basicEnd) then
      Stage(Append(s.t, t0.desc[i].(count := true, kind := NumberColumn), v), s.work + [[i]])
    else s
  }

  lemma CountsSnoc(t0: Table, basicEnd: nat, i: nat)
    requires i < basicEnd == |t0.desc| == |t0.samples|
    ensures Counts(t0, basicEnd, i + 1) == CountStep(t0, basicEnd, Counts(t0, basicEnd, i), i)
  {
  }

  /** The count phase only appends columns to the basic ones. */
  lemma {:induction false} CountsExtend(t0: Table, basicEnd: nat, n: nat)
    requires n <= basicEnd == |t0.desc| == |t0.samples|
    ensures Extends(Counts(t0, basicEnd, n).t, t0)
  {
    if n > 0 {
      CountsExtend(t0, basicEnd, n - 1);
      var t := Counts(t0, basicEnd, n - 1).t;
      var v := CountedSamples(t0.samples[n - 1]);
      ExtendsTrans(Append(t, t0.desc[n - 1].(count := true, kind := NumberColumn), v), t, t0);
    }
  }

  /** The columns from `from` on are pairwise distinct. */
  predicate DistinctFrom(samples: seq<Samples>, from: nat)
  {
    forall k, k' :: from <= k < k' < |samples| ==> samples[k] != samples[k']
  }

  /** Appending a column whose key is not yet seen keeps the columns distinct. */
  lemma AppendFresh(samples: seq<Samples>, from: nat, v: Samples)
    requires DistinctFrom(samples, from) && SamplesKey(v) !in KeysFrom(samples, from)
    ensures DistinctFrom(samples + [v], from)
  {
    forall k | from <= k < |samples|
      ensures samples[k] != v
    {
      assert SamplesKey(samples[k]) in KeysFrom(samples, from);
    }
  }

  /**
   * Each count column counts one basic column, is not constant, is a
   * number column marked as a count, and the count columns are pairwise
   * distinct; the work list names the counted basic columns.
   */
  lemma {:induction false} CountsMeaning(t0: Table, basicEnd: nat, n: nat)
    requires n <= basicEnd == |t0.desc| == |t0.samples|
    ensures var s := Counts(t0, basicEnd, n);
            && DistinctFrom(s.t.samples, basicEnd)
            && |s.t.desc| == basicEnd + |s.work|
            && forall m :: 0 <= m < |s.work| ==>
                 |s.work[m]| == 1 && s.work[m][0] < n
                 && s.t.samples[basicEnd + m] == CountedSamples(t0.samples[s.work[m][0]])
                 && !SameValue(s.t.samples[basicEnd + m])
                 && s.t.desc[basicEnd + m] == t0.desc[s.work[m][0]].(count := true, kind := NumberColumn)
  {
    CountsDistinct(t0, basicEnd, n);
    CountsEntries(t0, basicEnd, n);
    var s := Counts(t0, basicEnd, n);
    forall m | 0 <= m < |s.work|
      ensures |s.work[m]| == 1 && s.work[m][0] < n
      ensures s.t.samples[basicEnd + m] == CountedSamples(t0.samples[s.work[m][0]])
      ensures !SameValue(s.t.samples[basicEnd + m])
      ensures s.t.desc[basicEnd + m] == t0.desc[s.work[m][0]].(count := true, kind := NumberColumn)
    {
      assert CountEntry(t0, basicEnd, n, s, m);
    }
  }

  /** The count columns are pairwise distinct. */
  lemma {:induction false} CountsDistinct(t0: Table, basicEnd: nat, n: nat)
    requires n <= basicEnd == |t0.desc| == |t0.samples|
    ensures DistinctFrom(Counts(t0, basicEnd, n).t.samples, basicEnd)
  {
    if n > 0 {
      CountsDistinct(t0, basicEnd, n - 1);
      var s := Counts(t0, basicEnd, n - 1);
      var v := CountedSamples(t0.samples[n - 1]);
      if !SameValue(v) && SamplesKey(v) !in KeysFrom(s.t.samples, basicEnd) {
        AppendFresh(s.t.samples, basicEnd, v);
      }
    }
  }

  /** Count column basicEnd + m counts the basic column the work list names at m, one below n. */
  predicate CountEntry(t0: Table, basicEnd: nat, n: nat, s: Stage, m: nat)
    requires n <= basicEnd == |t0.desc| == |t0.samples| && |s.t.desc| == |s.t.samples| == basicEnd + |s.work| && m < |s.work|
  {
    && |s.work[m]| == 1 && s.work[m][0] < n
    && s.t.samples[basicEnd + m] == CountedSamples(t0.samples[s.work[m][0]])
    && !SameValue(s.t.samples[basicEnd + m])
    && s.t.desc[basicEnd + m] == t0.desc[s.work[m][0]].(count := true, kind := NumberColumn)
  }

  predicate CountEntries(t0: Table, basicEnd: nat, n: nat, s: Stage)
    requires n <= basicEnd == |t0.desc| == |t0.samples|
  {
    |s.t.desc| == |s.t.samples| == basicEnd + |s.work|
    && forall m :: 0 <= m < |s.work| ==> CountEntry(t0, basicEnd, n, s, m)
  }

  /** A fresh count column of basic column i, appended, is the entry of the new last work item. */
  lemma EntriesAppend(t0: Table, basicEnd: nat, i: nat, n: nat, s: Stage, d: ColumnDesc, v: Samples)
    requires i < basicEnd == |t0.desc| == |t0.samples| && i + 1 == n
    requires CountEntries(t0, basicEnd, i, s)
    requires v == CountedSamples(t0.samples[i]) && !SameValue(v) && d == t0.desc[i].(count := true, kind := NumberColumn)
    ensures CountEntries(t0, basicEnd, n, Stage(Append(s.t, d, v), s.work + [[i]]))
  {
    var s' := Stage(Append(s.t, d, v), s.work + [[i]]);
    forall m | 0 <= m < |s'.work|
      ensures CountEntry(t0, basicEnd, n, s', m)
    {
      if m < |s.work| {
        assert CountEntry(t0, basicEnd, i, s, m);
        assert s'.work[m] == s.work[m];
        assert s'.t.samples[basicEnd + m] == s.t.samples[basicEnd + m];
      } else {
        assert s'.work[m] == [i];
      }
    }
  }

  /** Entries below i are entries below any larger bound. */
  lemma EntriesWiden(t0: Table, basicEnd: nat, i: nat, n: nat, s: Stage)
    requires n <= basicEnd == |t0.desc| == |t0.samples| && i <= n
    requires CountEntries(t0, basicEnd, i, s)
    ensures CountEntries(t0, basicEnd, n, s)
  {
    forall m | 0 <= m < |s.work|
      ensures CountEntry(t0, basicEnd, n, s, m)
    {
      assert CountEntry(t0, basicEnd, i, s, m);
    }
  }

  lemma {:induction false} CountsEntries(t0: Table, basicEnd: nat, n: nat)
    requires n <= basicEnd == |t0.desc| == |t0.samples|
    ensures CountEntries(t0, basicEnd, n, Counts(t0, basicEnd, n))
  {
    if n > 0 {
      CountsEntries(t0, basicEnd, n - 1);
      EntriesStep(t0, basicEnd, n - 1, n, Counts(t0, basicEnd, n - 1));
    }
  }

  /** Counting basic column i keeps the entries, now below i + 1. */
  lemma EntriesStep(t0: Table, basicEnd: nat, i: nat, n: nat, s: Stage)
    requires i < basicEnd == |t0.desc| == |t0.samples| && i + 1 == n
    requires CountEntries(t0, basicEnd, i, s)
    ensures CountEntries(t0, basicEnd, n, CountStep(t0, basicEnd, s, i))
  {
    var v := CountedSamples(t0.samples[i]);
    var d := t0.desc[i].(count := true, kind := NumberColumn);
    if !SameValue(v) && SamplesKey(v) !in KeysFrom(s.t.samples, basicEnd) {
      EntriesAppend(t0, basicEnd, i, n, s, d, v);
    } else {
      EntriesWiden(t0, basicEnd, i, n, s);
    }
  }

  /** The work list after the count phase names single basic columns. */
  lemma {:induction false} CountsWork(t0: Table, basicEnd: nat, n: nat)
    requires n <= basicEnd == |t0.desc| == |t0.samples|
    ensures ValidWork(Counts(t0, basicEnd, n).work, basicEnd)
  {
    if n > 0 {
      CountsWork(t0, basicEnd, n - 1);
    }
  }

  // --------------------------------------------- phase 3: counts over several columns

  /** The work lists name basic columns only, and none is empty. */
  predicate ValidWork(work: seq<seq<nat>>, basicEnd: nat)
  {
    forall m :: 0 <= m < |work| ==> |work[m]| > 0 && Columns(work[m], basicEnd)
  }

  /** The list names basic columns only. */
  predicate Columns(columns: seq<nat>, basicEnd: nat)
  {
    forall k :: 0 <= k < |columns| ==> columns[k] < basicEnd
  }

  /** Example e of the listed columns, counted together, for the examples before n. */
  function Combined(t0: Table, columns: seq<nat>, n: nat): (r: Result<Samples>)
    requires forall k :: 0 <= k < |columns| ==> columns[k] < |t0.samples| && n <= |t0.samples[columns[k]]|
    ensures r.Success? ==> |r.value| == n
  {
    if n == 0 then Success([])
    else match Combined(t0, columns, n - 1)
      case Failure(e) => Failure(e)
      case Success(done) =>
        match CountedArrays(seq(|columns|, k requires 0 <= k < |columns| => t0.samples[columns[k]][n - 1]))
          case Failure(e) => Failure(e)
          case Success(column) => Success(done + [column])
  }

  /** The description of a count over several basic columns: their generic functions. */
  function CombinedDesc(t0: Table, columns: seq<nat>): ColumnDesc
    requires forall k :: 0 <= k < |columns| ==> columns[k] < |t0.desc| && |t0.desc[columns[k]].indices| > 0
  {
    ColumnDesc(seq(|columns|, k requires 0 <= k < |columns| => t0.desc[columns[k]].indices[0]), true, false, false, NumberColumn)
  }

  /** One candidate list of columns: recorded if its counts vary and are new. */
  function Candidate(t0: Table, basicEnd: nat, examples: nat, s: Stage, columns: seq<nat>): (r: Result<Stage>)
    requires basicEnd == |t0.desc| && Shaped(t0, examples)
    requires |columns| > 0 && Columns(columns, basicEnd)
    requires ValidWork(s.work, basicEnd)
    ensures r.Success? ==> ValidWork(r.value.work, basicEnd)
    ensures r.Success? && |s.t.desc| == |s.t.samples| ==> |r.value.t.desc| == |r.value.t.samples|
  {
    match Combined(t0, columns, examples)
      case Failure(e) => Failure(e)
      case Success(v) =>
        if !SameValue(v) && SamplesKey(v) !in KeysFrom(s.t.samples, basicEnd) then
          Success(Stage(Append(s.t, CombinedDesc(t0, columns), v), s.work + [columns]))
        else Success(s)
  }

  /** The candidates `base + [i]` for i from `from` up to the last basic column. */
  function Extend(t0: Table, basicEnd: nat, examples: nat, s: Stage, base: seq<nat>, from: nat): (r: Result<Stage>)
    requires basicEnd == |t0.desc| && Shaped(t0, examples)
    requires Columns(base, basicEnd)
    requires ValidWork(s.work, basicEnd)
    ensures r.Success? ==> ValidWork(r.value.work, basicEnd)
    ensures r.Success? && |s.t.desc| == |s.t.samples| ==> |r.value.t.desc| == |r.value.t.samples|
    decreases basicEnd - from
  {
    if from >= basicEnd then Success(s)
    else match Candidate(t0, basicEnd, examples, s, base + [from])
      case Failure(e) => Failure(e)
      case Success(s') => Extend(t0, basicEnd, examples, s', base, from + 1)
  }

  /** One round: every list of the current work list extended, from list m on. */
  function Round(t0: Table, basicEnd: nat, examples: nat, s: Stage, current: seq<seq<nat>>, m: nat): (r: Result<Stage>)
    requires basicEnd == |t0.desc| && Shaped(t0, examples) && ValidWork(current, basicEnd)
    requires ValidWork(s.work, basicEnd)
    ensures r.Success? ==> ValidWork(r.value.work, basicEnd)
    ensures r.Success? && |s.t.desc| == |s.t.samples| ==> |r.value.t.desc| == |r.value.t.samples|
    decreases |current| - m
  {
    if m >= |current| then Success(s)
    else match Extend(t0, basicEnd, examples, s, current[m], current[m][|current[m]| - 1])
      case Failure(e) => Failure(e)
      case Success(s') => Round(t0, basicEnd, examples, s', current, m + 1)
  }

  /** The rounds, while there is work and `depth-- > 0`. */
  function Rounds(t0: Table, basicEnd: nat, examples: nat, t: Table, current: seq<seq<nat>>, depth: nat): (r: Result<Table>)
    requires basicEnd == |t0.desc| && Shaped(t0, examples) && ValidWork(current, basicEnd)
    ensures r.Success? && |t.desc| == |t.samples| ==> |r.value.desc| == |r.value.samples|
    decreases depth
  {
    if |current| == 0 || depth == 0 then Success(t)
    else match Round(t0, basicEnd, examples, Stage(t, []), current, 0)
      case Failure(e) => Failure(e)
      case Success(s) => Rounds(t0, basicEnd, examples, s.t, s.work, depth - 1)
  }

  /** One base less: a round goes on from the stage extending the base leaves, or fails as that extension does. */
  lemma RoundUnfold(t0: Table, basicEnd: nat, examples: nat, s: Stage, current: seq<seq<nat>>, m: nat)
    requires basicEnd == |t0.desc| && Shaped(t0, examples) && ValidWork(current, basicEnd)
    requires ValidWork(s.work, basicEnd) && m < |current|
    ensures var e := Extend(t0, basicEnd, examples, s, current[m], current[m][|current[m]| - 1]);
      Round(t0, basicEnd, examples, s, current, m)
        == if e.Success? then Round(t0, basicEnd, examples, e.value, current, m + 1) else Failure(e.error)
  {
  }

  /** One candidate less: the candidates after base + [from], or that candidate's failure. */
  lemma ExtendUnfold(t0: Table, basicEnd: nat, examples: nat, s: Stage, base: seq<nat>, from: nat)
    requires basicEnd == |t0.desc| && Shaped(t0, examples)
    requires Columns(base, basicEnd) && ValidWork(s.work, basicEnd) && from < basicEnd
    ensures Columns(base + [from], basicEnd)
    ensures var c := Candidate(t0, basicEnd, examples, s, base + [from]);
      Extend(t0, basicEnd, examples, s, base, from)
        == if c.Success? then Extend(t0, basicEnd, examples, c.value, base, from + 1) else Failure(c.error)
  {
  }

  /** One round less: the rounds after a round that succeeded, or that round's failure. */
  lemma RoundsUnfold(t0: Table, basicEnd: nat, examples: nat, t: Table, current: seq<seq<nat>>, rest: nat)
    requires basicEnd == |t0.desc| && Shaped(t0, examples) && ValidWork(current, basicEnd)
    requires |current| > 0
    ensures var r := Round(t0, basicEnd, examples, Stage(t, []), current, 0);
      Rounds(t0, basicEnd, examples, t, current, rest + 1)
        == if r.Success? then Rounds(t0, basicEnd, examples, r.value.t, r.value.work, rest) else Failure(r.error)
  {
  }

  /** Extending is transitive. */
  lemma ExtendsTrans(t2: Table, t1: Table, t0: Table)
    requires Extends(t2, t1) && Extends(t1, t0)
    ensures Extends(t2, t0)
  {
    assert t2.desc[..|t0.desc|] == t2.desc[..|t1.desc|][..|t0.desc|];
    assert t2.samples[..|t0.samples|] == t2.samples[..|t1.samples|][..|t0.samples|];
  }

  /** The columns from `from` on are distinct, non-constant number columns marked as counts. */
  predicate CountColumns(t: Table, from: nat)
  {
    && |t.desc| == |t.samples| && from <= |t.desc|
    && DistinctFrom(t.samples, from)
    && forall k :: from <= k < |t.desc| ==>
         t.desc[k].count && t.desc[k].kind == NumberColumn && !SameValue(t.samples[k])
  }

  lemma CandidateKeeps(t0: Table, basicEnd: nat, examples: nat, s: Stage, columns: seq<nat>)
    requires basicEnd == |t0.desc| && Shaped(t0, examples)
    requires |columns| > 0 && Columns(columns, basicEnd) && ValidWork(s.work, basicEnd)
    requires CountColumns(s.t, basicEnd)
    requires Candidate(t0, basicEnd, examples, s, columns).Success?
    ensures var s' := Candidate(t0, basicEnd, examples, s, columns).value;
            CountColumns(s'.t, basicEnd) && Extends(s'.t, s.t)
  {
    var v := Combined(t0, columns, examples).value;
    if !SameValue(v) && SamplesKey(v) !in KeysFrom(s.t.samples, basicEnd) {
      AppendFresh(s.t.samples, basicEnd, v);
    }
  }

  lemma {:induction false} ExtendKeeps(t0: Table, basicEnd: nat, examples: nat, s: Stage, base: seq<nat>, from: nat, s': Stage)
    requires basicEnd == |t0.desc| && Shaped(t0, examples)
    requires Columns(base, basicEnd) && ValidWork(s.work, basicEnd)
    requires CountColumns(s.t, basicEnd)
    requires Extend(t0, basicEnd, examples, s, base, from) == Success(s')
    ensures CountColumns(s'.t, basicEnd) && Extends(s'.t, s.t)
    decreases basicEnd - from
  {
    if from < basicEnd {
      var s1, next := FirstCandidateKeeps(t0, basicEnd, examples, s, base, from, s');
      ExtendKeeps(t0, basicEnd, examples, s1, base, next, s');
      ExtendsTrans(s'.t, s1.t, s.t);
    }
  }

  /** The first candidate of a successful extension keeps the count columns; the rest of it starts one column later. */
  lemma FirstCandidateKeeps(t0: Table, basicEnd: nat, examples: nat, s: Stage, base: seq<nat>, from: nat, s': Stage)
    returns (s1: Stage, next: nat)
    requires basicEnd == |t0.desc| && Shaped(t0, examples)
    requires Columns(base, basicEnd) && ValidWork(s.work, basicEnd) && from < basicEnd
    requires CountColumns(s.t, basicEnd)
    requires Extend(t0, basicEnd, examples, s, base, from) == Success(s')
    ensures basicEnd - next < basicEnd - from
    ensures ValidWork(s1.work, basicEnd) && CountColumns(s1.t, basicEnd) && Extends(s1.t, s.t)
    ensures Extend(t0, basicEnd, examples, s1, base, next) == Success(s')
  {
    ExtendUnfold(t0, basicEnd, examples, s, base, from);
    CandidateKeeps(t0, basicEnd, examples, s, base + [from]);
    s1 := Candidate(t0, basicEnd, examples, s, base + [from]).value;
    next := from + 1;
  }

  lemma {:induction false} RoundKeeps(t0: Table, basicEnd: nat, examples: nat, s: Stage, current: seq<seq<nat>>, m: nat)
    requires basicEnd == |t0.desc| && Shaped(t0, examples)
    requires ValidWork(current, basicEnd) && ValidWork(s.work, basicEnd)
    requires CountColumns(s.t, basicEnd)
    requires Round(t0, basicEnd, examples, s, current, m).Success?
    ensures var s' := Round(t0, basicEnd, examples, s, current, m).value;
            CountColumns(s'.t, basicEnd) && Extends(s'.t, s.t)
    decreases |current| - m
  {
    if m < |current| {
      var base := current[m];
      var s1 := Extend(t0, basicEnd, examples, s, base, base[|base| - 1]).value;
      ExtendKeeps(t0, basicEnd, examples, s, base, base[|base| - 1], s1);
      RoundKeeps(t0, basicEnd, examples, s1, current, m + 1);
      ExtendsTrans(Round(t0, basicEnd, examples, s1, current, m + 1).value.t, s1.t, s.t);
    }
  }

  /**
   * The rounds only append columns, and every column from the basic ones
   * on stays a distinct, non-constant count column.
   */
  lemma {:induction false} RoundsKeep(t0: Table, basicEnd: nat, examples: nat, t: Table, current: seq<seq<nat>>, depth: nat, t': Table)
    requires basicEnd == |t0.desc| && Shaped(t0, examples) && ValidWork(current, basicEnd)
    requires CountColumns(t, basicEnd)
    requires Rounds(t0, basicEnd, examples, t, current, depth) == Success(t')
    ensures CountColumns(t', basicEnd) && Extends(t', t)
    decreases depth
  {
    if |current| > 0 && depth > 0 {
      var s, rest := FirstRoundKeeps(t0, basicEnd, examples, t, current, depth, t');
      RoundsKeep(t0, basicEnd, examples, s.t, s.work, rest, t');
      ExtendsTrans(t', s.t, t);
    } else {
      NoRounds(t0, basicEnd, examples, t, current, depth);
    }
  }

  /** Without work or rounds left, the rounds change nothing. */
  lemma NoRounds(t0: Table, basicEnd: nat, examples: nat, t: Table, current: seq<seq<nat>>, depth: nat)
    requires basicEnd == |t0.desc| && Shaped(t0, examples) && ValidWork(current, basicEnd)
    requires |current| == 0 || depth == 0
    requires |t.desc| == |t.samples|
    ensures Rounds(t0, basicEnd, examples, t, current, depth) == Success(t) && Extends(t, t)
  {
  }

  /** The first of the rounds that succeeded keeps the count columns, and the rest go on from it. */
  lemma FirstRoundKeeps(t0: Table, basicEnd: nat, examples: nat, t: Table, current: seq<seq<nat>>, depth: nat, t': Table)
    returns (s: Stage, rest: nat)
    requires basicEnd == |t0.desc| && Shaped(t0, examples) && ValidWork(current, basicEnd)
    requires CountColumns(t, basicEnd) && |current| > 0 && depth > 0
    requires Rounds(t0, basicEnd, examples, t, current, depth) == Success(t')
    ensures Round(t0, basicEnd, examples, Stage(t, []), current, 0) == Success(s) && rest < depth
    ensures ValidWork(s.work, basicEnd) && Rounds(t0, basicEnd, examples, s.t, s.work, rest) == Success(t')
    ensures CountColumns(s.t, basicEnd) && Extends(s.t, t)
  {
    s := Round(t0, basicEnd, examples, Stage(t, []), current, 0).value;
    rest := depth - 1;
    RoundsUnfold(t0, basicEnd, examples, t, current, rest);
    RoundKeeps(t0, basicEnd, examples, Stage(t, []), current, 0);
  }

  // ------------------------------------------------------- phase 4: rank columns

  function RankedSamples(v: Samples): (r: Samples)
    ensures |r| == |v|
  {
    seq(|v|, e requires 0 <= e < |v| => RankArray(v[e]))
  }

  function InvRankedSamples(v: Samples): (r: Samples)
    ensures |r| == |v|
  {
    seq(|v|, e requires 0 <= e < |v| => InvRankArray(v[e]))
  }

  /** The first rank loop takes the count columns; the second the other number columns. */
  predicate Rankable(d: ColumnDesc, counted: bool)
  {
    if counted then d.count else !d.count && d.kind == NumberColumn
  }

  /** Column i's rank column, then its inverse-rank column, each only if its key is new since `countEnd`. */
  function RankStep(t: Table, countEnd: nat, i: nat, counted: bool): (r: Table)
    requires i < countEnd <= |t.desc| == |t.samples|
    ensures Extends(r, t)
  {
    if !Rankable(t.desc[i], counted) then t
    else
      var rv := RankedSamples(t.samples[i]);
      var t1 := if SamplesKey(rv) !in KeysFrom(t.samples, countEnd) then Append(t, t.desc[i].(rank := true, kind := NumberColumn), rv) else t;
      var iv := InvRankedSamples(t.samples[i]);
      if SamplesKey(iv) !in KeysFrom(t1.samples, countEnd) then Append(t1, t.desc[i].(invRank := true, kind := NumberColumn), iv) else t1
  }

  /** One rank loop over columns 0, …, n - 1. */
  function Ranks(t0: Table, countEnd: nat, n: nat, counted: bool): (t: Table)
    requires n <= countEnd <= |t0.desc| == |t0.samples|
    ensures |t.desc| == |t.samples| && |t0.desc| <= |t.desc|
  {
    if n == 0 then t0
    else RankStep(Ranks(t0, countEnd, n - 1, counted), countEnd, n - 1, counted)
  }

  /** A rank loop only appends columns. */
  lemma {:induction false} RanksExtend(t0: Table, countEnd: nat, n: nat, counted: bool)
    requires n <= countEnd <= |t0.desc| == |t0.samples|
    ensures Extends(Ranks(t0, countEnd, n, counted), t0)
  {
    if n > 0 {
      var m := RanksLast(t0, countEnd, n, counted);
      RanksExtend(t0, countEnd, m, counted);
      ExtendsTrans(Ranks(t0, countEnd, n, counted), Ranks(t0, countEnd, m, counted), t0);
    }
  }

  /** Column k is the rank or the inverse-rank column of a column before `countEnd`. */
  predicate RankColumn(t: Table, countEnd: nat, k: nat)
    requires countEnd <= k < |t.desc| == |t.samples|
  {
    exists i :: 0 <= i < countEnd
      && ((t.desc[k] == t.desc[i].(rank := true, kind := NumberColumn) && t.samples[k] == RankedSamples(t.samples[i]))
          || (t.desc[k] == t.desc[i].(invRank := true, kind := NumberColumn) && t.samples[k] == InvRankedSamples(t.samples[i])))
  }

  /** The columns from `countEnd` on are distinct rank and inverse-rank columns. */
  predicate RankColumns(t: Table, countEnd: nat)
  {
    && |t.desc| == |t.samples| && countEnd <= |t.desc|
    && DistinctFrom(t.samples, countEnd)
    && forall k :: countEnd <= k < |t.desc| ==> RankColumn(t, countEnd, k)
  }

  lemma RankColumnKept(t: Table, t': Table, countEnd: nat, k: nat)
    requires Extends(t', t) && countEnd <= k < |t.desc| == |t.samples| && RankColumn(t, countEnd, k)
    ensures RankColumn(t', countEnd, k)
  {
    var i :| 0 <= i < countEnd
      && ((t.desc[k] == t.desc[i].(rank := true, kind := NumberColumn) && t.samples[k] == RankedSamples(t.samples[i]))
          || (t.desc[k] == t.desc[i].(invRank := true, kind := NumberColumn) && t.samples[k] == InvRankedSamples(t.samples[i])));
    assert t'.desc[k] == t.desc[k] && t'.desc[i] == t.desc[i];
    assert t'.samples[k] == t.samples[k] && t'.samples[i] == t.samples[i];
  }

  lemma AppendRank(t: Table, countEnd: nat, i: nat, d: ColumnDesc, v: Samples)
    requires RankColumns(t, countEnd) && i < countEnd && SamplesKey(v) !in KeysFrom(t.samples, countEnd)
    requires (d == t.desc[i].(rank := true, kind := NumberColumn) && v == RankedSamples(t.samples[i]))
             || (d == t.desc[i].(invRank := true, kind := NumberColumn) && v == InvRankedSamples(t.samples[i]))
    ensures RankColumns(Append(t, d, v), countEnd)
  {
    var t' := Append(t, d, v);
    AppendFresh(t.samples, countEnd, v);
    forall k | countEnd <= k < |t'.desc|
      ensures RankColumn(t', countEnd, k)
    {
      if k < |t.desc| {
        RankColumnKept(t, t', countEnd, k);
      } else {
        assert t'.desc[i] == t.desc[i] && t'.samples[i] == t.samples[i];
      }
    }
  }

  lemma RankStepKeeps(t: Table, countEnd: nat, i: nat, counted: bool)
    requires i < countEnd && RankColumns(t, countEnd)
    ensures RankColumns(RankStep(t, countEnd, i, counted), countEnd)
  {
    if Rankable(t.desc[i], counted) {
      var rv := RankedSamples(t.samples[i]);
      var t1 := if SamplesKey(rv) !in KeysFrom(t.samples, countEnd) then Append(t, t.desc[i].(rank := true, kind := NumberColumn), rv) else t;
      if SamplesKey(rv) !in KeysFrom(t.samples, countEnd) {
        AppendRank(t, countEnd, i, t.desc[i].(rank := true, kind := NumberColumn), rv);
      }
      var iv := InvRankedSamples(t.samples[i]);
      assert t1.desc[i] == t.desc[i] && t1.samples[i] == t.samples[i];
      if SamplesKey(iv) !in KeysFrom(t1.samples, countEnd) {
        AppendRank(t1, countEnd, i, t.desc[i].(invRank := true, kind := NumberColumn), iv);
      }
    }
  }

  /** A rank loop appends only distinct rank and inverse-rank columns of the columns before `countEnd`. */
  lemma {:induction false} RanksKeep(t0: Table, countEnd: nat, n: nat, counted: bool)
    requires n <= countEnd <= |t0.desc| == |t0.samples| && RankColumns(t0, countEnd)
    ensures RankColumns(Ranks(t0, countEnd, n, counted), countEnd)
    decreases n
  {
    if n > 0 {
      var m := RanksLast(t0, countEnd, n, counted);
      RanksKeep(t0, countEnd, m, counted);
      RankStepKeeps(Ranks(t0, countEnd, m, counted), countEnd, m, counted);
    }
  }

  /** The loop up to n is the loop up to its last index m followed by the step at m. */
  lemma RanksLast(t0: Table, countEnd: nat, n: nat, counted: bool) returns (m: nat)
    requires 0 < n <= countEnd <= |t0.desc| == |t0.samples|
    ensures m < n && Ranks(t0, countEnd, n, counted) == RankStep(Ranks(t0, countEnd, m, counted), countEnd, m, counted)
  {
    m := n - 1;
  }

  // ------------------------------------------------------------------- init

  /** Every generic function gives one column entry per example. */
  predicate Uniform(values: seq<Samples>, examples: nat)
  {
    forall f :: 0 <= f < |values| ==> |values[f]| == examples
  }

  lemma BasicShaped(values: seq<Samples>, numberCount: nat, colorCount: nat, examples: nat)
    requires Uniform(values, examples)
    ensures Shaped(Basic(values, numberCount, colorCount, |values|), examples)
  {
    BasicMeaning(values, numberCount, colorCount, |values|);
    var t := Basic(values, numberCount, colorCount, |values|);
    forall k | 0 <= k < |t.samples|
      ensures |t.samples[k]| == examples
    {
      assert BasicColumn(t, values, numberCount, colorCount, k, t.desc[k].indices[0]);
    }
  }

  /** `init`: the four phases; a `count_arrays` that throws makes `init` throw. */
  function InitTable(values: seq<Samples>, numberCount: nat, colorCount: nat, examples: nat): Result<Table>
    requires Uniform(values, examples)
  {
    var t1 := Basic(values, numberCount, colorCount, |values|);
    BasicShaped(values, numberCount, colorCount, examples);
    var b := |t1.desc|;
    var s2 := Counts(t1, b, b);
    CountsWork(t1, b, b);
    match Rounds(t1, b, examples, s2.t, s2.work, 4)
      case Failure(e) => Failure(e)
      case Success(t3) =>
        var c := |t3.desc|;
        Success(Ranks(Ranks(t3, c, c, true), c, c, false))
  }

  /** CountsMeaning in the form the later phases keep. */
  lemma CountsAreCountColumns(t0: Table, basicEnd: nat)
    requires basicEnd == |t0.desc| == |t0.samples|
    ensures CountColumns(Counts(t0, basicEnd, basicEnd).t, basicEnd)
  {
    CountsMeaning(t0, basicEnd, basicEnd);
    var s := Counts(t0, basicEnd, basicEnd);
    forall k | basicEnd <= k < |s.t.desc|
      ensures s.t.desc[k].count && s.t.desc[k].kind == NumberColumn && !SameValue(s.t.samples[k])
    {
      var m := k - basicEnd;
      assert s.t.desc[basicEnd + m] == t0.desc[s.work[m][0]].(count := true, kind := NumberColumn);
    }
  }

  /**
   * What `init` builds, when it does not throw: the basic columns first, then
   * distinct non-constant count columns, then distinct rank and
   * inverse-rank columns of the columns before them.
   */
  lemma InitMeaning(values: seq<Samples>, numberCount: nat, colorCount: nat, examples: nat)
    requires Uniform(values, examples)
    requires InitTable(values, numberCount, colorCount, examples).Success?
    ensures var t := InitTable(values, numberCount, colorCount, examples).value;
            var t1 := Basic(values, numberCount, colorCount, |values|);
            var b := |t1.desc|;
            && Extends(t, Table(t1.desc, t1.samples, t.index)) && t.index == t1.index
            && exists c :: b <= c <= |t.desc|
                 && CountColumns(Table(t.desc[..c], t.samples[..c], t.index), b)
                 && RankColumns(t, c)
  {
    var t1 := Basic(values, numberCount, colorCount, |values|);
    BasicShaped(values, numberCount, colorCount, examples);
    var b := |t1.desc|;
    var s2 := Counts(t1, b, b);
    CountsWork(t1, b, b);
    CountsAreCountColumns(t1, b);
    CountsExtend(t1, b, b);
    var t3 := Rounds(t1, b, examples, s2.t, s2.work, 4).value;
    RoundsKeep(t1, b, examples, s2.t, s2.work, 4, t3);
    ExtendsTrans(t3, s2.t, t1);
    var c := |t3.desc|;
    var t4 := Ranks(t3, c, c, true);
    RanksKeep(t3, c, c, true);
    RanksKeep(t4, c, c, false);
    var t := Ranks(t4, c, c, false);
    RanksExtend(t3, c, c, true);
    RanksExtend(t4, c, c, false);
    ExtendsTrans(t, t4, t3);
    ExtendsTrans(t, t3, t1);
    assert Table(t.desc[..c], t.samples[..c], t.index) == t3;
  }

  /** Appending a column adds its key to the keys seen since `from`. */
  lemma KeysAppend(samples: seq<Samples>, from: nat, v: Samples)
    requires from <= |samples|
    ensures KeysFrom(samples + [v], from) == KeysFrom(samples, from) + {SamplesKey(v)}
  {
    var s' := samples + [v];
    assert SamplesKey(s'[|samples|]) in KeysFrom(s', from);
    forall x | x in KeysFrom(s', from)
      ensures x in KeysFrom(samples, from) + {SamplesKey(v)}
    {
      var k :| from <= k < |s'| && SamplesKey(s'[k]) == x;
      if k < |samples| {
        assert SamplesKey(samples[k]) in KeysFrom(samples, from);
      }
    }
    forall x | x in KeysFrom(samples, from)
      ensures x in KeysFrom(s', from)
    {
      var k :| from <= k < |samples| && SamplesKey(samples[k]) == x;
      assert s'[k] == samples[k];
    }
  }

  lemma {:induction false} CombinedFails(t0: Table, columns: seq<nat>, m: nat, n: nat, e: string)
    requires forall k :: 0 <= k < |columns| ==> columns[k] < |t0.samples| && n <= |t0.samples[columns[k]]|
    requires m <= n && Combined(t0, columns, m) == Failure(e)
    ensures Combined(t0, columns, n) == Failure(e)
    decreases n - m
  {
    if m < n {
      CombinedFails(t0, columns, m + 1, n, e);
    }
  }

  /** `TableAnalysis`: the columns, their descriptions, and the column of each generic function. */
  class TableAnalysis {
    var columnsDesc: seq<ColumnDesc>
    var columnsSamples: seq<Samples>
    var columnsMap: map<nat, nat>

    function State(): Table
      reads this
    {
      Table(columnsDesc, columnsSamples, columnsMap)
    }

    constructor()
      ensures State() == Table([], [], map[])
    {
      columnsDesc, columnsSamples, columnsMap := [], [], map[];
    }

    /** Appends a column (the index map is left alone). */
    method Push(d: ColumnDesc, v: Samples)
      modifies this
      ensures State() == Append(old(State()), d, v)
    {
      columnsDesc := columnsDesc + [d];
      columnsSamples := columnsSamples + [v];
    }

    /** Phase 1: a column per non-constant generic function whose values are new. */
    method AddBasicColumns(values: seq<Samples>, numberCount: nat, colorCount: nat)
      requires State() == Table([], [], map[])
      modifies this
      ensures State() == Basic(values, numberCount, colorCount, |values|)
    {
      var seen: set<string> := {};
      for i := 0 to |values|
        invariant State() == Basic(values, numberCount, colorCount, i)
        invariant |columnsDesc| == |columnsSamples|
        invariant seen == KeysFrom(columnsSamples, 0)
      {
        BasicSnoc(values, numberCount, colorCount, i);
        var same := ArraysSameValue(values[i]);
        if !same {
          var key := SamplesKey(values[i]);
          if key !in seen {
            KeysAppend(columnsSamples, 0, values[i]);
            seen := seen + {key};
            columnsMap := columnsMap[i := |columnsDesc|];
            Push(ColumnDesc([i], false, false, false, KindOf(i, numberCount, colorCount)), values[i]);
          }
        }
      }
    }

    /** `columns_samples[i].map(count_array)`. */
    method CountSamples(v: Samples) returns (r: Samples)
      ensures r == CountedSamples(v)
    {
      r := [];
      for e := 0 to |v|
        invariant r == CountedSamples(v)[..e]
      {
        var counted := CountArray(v[e]);
        r := r + [counted];
      }
    }

    /** Phase 2: a count column per basic column, returning the work list and the keys seen. */
    method AddCountColumns(ghost t0: Table, basicEnd: nat) returns (work: seq<seq<nat>>, seen: set<string>)
      requires State() == t0 && basicEnd == |t0.desc| == |t0.samples|
      modifies this
      ensures Stage(State(), work) == Counts(t0, basicEnd, basicEnd)
      ensures seen == KeysFrom(columnsSamples, basicEnd)
    {
      work, seen := [], {};
      for i := 0 to basicEnd
        invariant Stage(State(), work) == Counts(t0, basicEnd, i)
        invariant seen == KeysFrom(columnsSamples, basicEnd)
      {
        CountsExtend(t0, basicEnd, i);
        CountsSnoc(t0, basicEnd, i);
        work, seen := AddCountColumn(t0, basicEnd, i, work, seen);
      }
    }

    /** The body of the count loop for basic column i. */
    method AddCountColumn(ghost t0: Table, basicEnd: nat, i: nat, work0: seq<seq<nat>>, seen0: set<string>)
      returns (work: seq<seq<nat>>, seen: set<string>)
      requires i < basicEnd == |t0.desc| == |t0.samples| && Extends(State(), t0)
      requires |columnsDesc| == |columnsSamples| == basicEnd + |work0| && seen0 == KeysFrom(columnsSamples, basicEnd)
      modifies this
      ensures Stage(State(), work) == CountStep(t0, basicEnd, Stage(old(State()), work0), i)
      ensures seen == KeysFrom(columnsSamples, basicEnd)
    {
      work, seen := work0, seen0;
      assert columnsSamples[i] == t0.samples[i] && columnsDesc[i] == t0.desc[i];
      var v := CountSamples(columnsSamples[i]);
      var same := ArraysSameValue(v);
      if !same {
        var key := SamplesKey(v);
        if key !in seen {
          KeysAppend(columnsSamples, basicEnd, v);
          seen := seen + {key};
          work := work + [[i]];
          Push(columnsDesc[i].(count := true, kind := NumberColumn), v);
        }
      }
    }

    /** Counts the listed basic columns together, example by example. */
    method CombineColumns(ghost t0: Table, columns: seq<nat>, ghost examples: nat) returns (r: Result<Samples>)
      requires Shaped(t0, examples) && |columns| > 0 && Columns(columns, |t0.desc|) && Extends(State(), t0)
      ensures r == Combined(t0, columns, examples)
    {
      var samples := columnsSamples;
      var done: Samples := [];
      assert samples[columns[0]] == t0.samples[columns[0]];
      for e := 0 to |samples[columns[0]]|
        invariant Combined(t0, columns, e) == Success(done)
      {
        var arrays := seq(|columns|, k requires 0 <= k < |columns| => samples[columns[k]][e]);
        assert arrays == seq(|columns|, k requires 0 <= k < |columns| => t0.samples[columns[k]][e]);
        var column := CountArrays(arrays);
        if column.Failure? {
          CombinedFails(t0, columns, e + 1, examples, column.error);
          return Failure(column.error);
        }
        done := done + [column.value];
      }
      r := Success(done);
    }

    /** One candidate of phase 3. */
    method TryCandidate(ghost t0: Table, basicEnd: nat, ghost examples: nat, columns: seq<nat>, seen0: set<string>, work0: seq<seq<nat>>)
      returns (ok: bool, seen: set<string>, work: seq<seq<nat>>)
      requires basicEnd == |t0.desc| && Shaped(t0, examples)
      requires |columns| > 0 && Columns(columns, basicEnd) && ValidWork(work0, basicEnd)
      requires Extends(State(), t0) && seen0 == KeysFrom(columnsSamples, basicEnd)
      modifies this
      ensures var r := Candidate(t0, basicEnd, examples, Stage(old(State()), work0), columns);
              (ok <==> r.Success?) && (ok ==> r.value == Stage(State(), work))
      ensures ok ==> Extends(State(), t0) && seen == KeysFrom(columnsSamples, basicEnd)
    {
      var v := CombineColumns(t0, columns, examples);
      if v.Failure? {
        return false, seen0, work0;
      }
      seen, work := seen0, work0;
      var same := ArraysSameValue(v.value);
      if !same {
        var key := SamplesKey(v.value);
        if key !in seen {
          KeysAppend(columnsSamples, basicEnd, v.value);
          seen := seen + {key};
          work := work + [columns];
          ghost var before := State();
          PushCandidate(t0, basicEnd, examples, columns, v.value);
          ExtendsTrans(State(), before, t0);
        }
      }
      ok := true;
    }

    /** Records a new candidate: its description names the first index of each listed column. */
    method PushCandidate(ghost t0: Table, basicEnd: nat, ghost examples: nat, columns: seq<nat>, v: Samples)
      requires basicEnd == |t0.desc| && Shaped(t0, examples)
      requires Columns(columns, basicEnd) && Extends(State(), t0)
      modifies this
      ensures State() == Append(old(State()), CombinedDesc(t0, columns), v)
    {
      var desc := columnsDesc;
      var d := ColumnDesc(seq(|columns|, k requires 0 <= k < |columns| => desc[columns[k]].indices[0]), true, false, false, NumberColumn);
      assert d == CombinedDesc(t0, columns);
      Push(d, v);
    }

    /** The candidate `base + [i]`, as the first step of the candidates from i on. */
    method ExtendOnce(ghost t0: Table, basicEnd: nat, ghost examples: nat, base: seq<nat>, i: nat, seen0: set<string>, work0: seq<seq<nat>>)
      returns (ok: bool, seen: set<string>, work: seq<seq<nat>>)
      requires basicEnd == |t0.desc| && Shaped(t0, examples)
      requires Columns(base, basicEnd) && ValidWork(work0, basicEnd) && i < basicEnd
      requires Extends(State(), t0) && seen0 == KeysFrom(columnsSamples, basicEnd)
      modifies this
      ensures ok ==> Extends(State(), t0) && seen == KeysFrom(columnsSamples, basicEnd) && ValidWork(work, basicEnd)
      ensures var r := Extend(t0, basicEnd, examples, Stage(old(State()), work0), base, i);
              if ok then r == Extend(t0, basicEnd, examples, Stage(State(), work), base, i + 1) else r.Failure?
    {
      ExtendUnfold(t0, basicEnd, examples, Stage(State(), work0), base, i);
      ok, seen, work := TryCandidate(t0, basicEnd, examples, base + [i], seen0, work0);
    }

    /** The candidates `base + [i]` for every i from the last column of base on. */
    method ExtendBase(ghost t0: Table, basicEnd: nat, ghost examples: nat, base: seq<nat>, seen0: set<string>, work0: seq<seq<nat>>)
      returns (ok: bool, seen: set<string>, work: seq<seq<nat>>)
      requires basicEnd == |t0.desc| && Shaped(t0, examples)
      requires |base| > 0 && Columns(base, basicEnd) && ValidWork(work0, basicEnd)
      requires Extends(State(), t0) && seen0 == KeysFrom(columnsSamples, basicEnd)
      modifies this
      ensures var r := Extend(t0, basicEnd, examples, Stage(old(State()), work0), base, base[|base| - 1]);
              (ok <==> r.Success?) && (ok ==> r.value == Stage(State(), work))
      ensures ok ==> Extends(State(), t0) && seen == KeysFrom(columnsSamples, basicEnd) && ValidWork(work, basicEnd)
    {
      seen, work := seen0, work0;
      var i := base[|base| - 1];
      ghost var goal := Extend(t0, basicEnd, examples, Stage(State(), work), base, i);
      while i < basicEnd
        invariant Extends(State(), t0) && seen == KeysFrom(columnsSamples, basicEnd) && ValidWork(work, basicEnd)
        invariant goal == Extend(t0, basicEnd, examples, Stage(State(), work), base, i)
        decreases basicEnd - i
      {
        var found;
        found, seen, work := ExtendOnce(t0, basicEnd, examples, base, i, seen, work);
        if !found {
          return false, seen, work;
        }
        i := i + 1;
      }
      ok := true;
    }

    /** One round of phase 3 over the current work list; returns the next one. */
    method RunRound(ghost t0: Table, basicEnd: nat, ghost examples: nat, current: seq<seq<nat>>, seen0: set<string>)
      returns (ok: bool, seen: set<string>, next: seq<seq<nat>>)
      requires basicEnd == |t0.desc| && Shaped(t0, examples) && ValidWork(current, basicEnd)
      requires Extends(State(), t0) && seen0 == KeysFrom(columnsSamples, basicEnd)
      modifies this
      ensures var r := Round(t0, basicEnd, examples, Stage(old(State()), []), current, 0);
              (ok <==> r.Success?) && (ok ==> r.value == Stage(State(), next))
      ensures ok ==> Extends(State(), t0) && seen == KeysFrom(columnsSamples, basicEnd) && ValidWork(next, basicEnd)
    {
      ghost var start := Stage(State(), []);
      seen, next := seen0, [];
      for m := 0 to |current|
        invariant Extends(State(), t0) && seen == KeysFrom(columnsSamples, basicEnd) && ValidWork(next, basicEnd)
        invariant Round(t0, basicEnd, examples, start, current, 0) == Round(t0, basicEnd, examples, Stage(State(), next), current, m)
      {
        RoundUnfold(t0, basicEnd, examples, Stage(State(), next), current, m);
        var extended;
        extended, seen, next := ExtendBase(t0, basicEnd, examples, current[m], seen, next);
        if !extended {
          return false, seen, next;
        }
      }
      ok := true;
    }

    /** The body of the phase 3 loop: `depth--`, then one round; the rounds left after it are those still to run. */
    method NextRound(ghost t0: Table, basicEnd: nat, ghost examples: nat, current: seq<seq<nat>>, seen0: set<string>, depth: nat)
      returns (ok: bool, seen: set<string>, next: seq<seq<nat>>, depth': nat)
      requires basicEnd == |t0.desc| && Shaped(t0, examples) && ValidWork(current, basicEnd)
      requires Extends(State(), t0) && seen0 == KeysFrom(columnsSamples, basicEnd)
      requires |current| > 0 && depth > 0
      modifies this
      ensures depth' == depth - 1
      ensures ok ==> Extends(State(), t0) && seen == KeysFrom(columnsSamples, basicEnd) && ValidWork(next, basicEnd)
      ensures !ok ==> Rounds(t0, basicEnd, examples, old(State()), current, depth).Failure?
      ensures ok ==> Rounds(t0, basicEnd, examples, old(State()), current, depth)
                     == Rounds(t0, basicEnd, examples, State(), next, depth')
    {
      depth' := depth - 1;
      RoundsUnfold(t0, basicEnd, examples, State(), current, depth');
      ok, seen, next := RunRound(t0, basicEnd, examples, current, seen0);
    }

    /** Phase 3: rounds while there is work, at most four. */
    method AddCombinedColumns(ghost t0: Table, basicEnd: nat, ghost examples: nat, work: seq<seq<nat>>, seen0: set<string>) returns (ok: bool)
      requires basicEnd == |t0.desc| && Shaped(t0, examples) && ValidWork(work, basicEnd)
      requires Extends(State(), t0) && seen0 == KeysFrom(columnsSamples, basicEnd)
      modifies this
      ensures var r := Rounds(t0, basicEnd, examples, old(State()), work, 4);
              (ok <==> r.Success?) && (ok ==> r.value == State())
    {
      ghost var goal := Rounds(t0, basicEnd, examples, State(), work, 4);
      var current := work;
      var seen := seen0;
      var depth: nat := 4;
      while |current| > 0 && depth > 0
        invariant ValidWork(current, basicEnd) && Extends(State(), t0) && seen == KeysFrom(columnsSamples, basicEnd)
        invariant goal == Rounds(t0, basicEnd, examples, State(), current, depth)
        decreases depth
      {
        var done;
        done, seen, current, depth := NextRound(t0, basicEnd, examples, current, seen, depth);
        if !done {
          return false;
        }
      }
      ok := true;
    }

    /** Phase 4, one loop: rank and inverse-rank columns of the columns before `countEnd`. */
    method AddRankColumns(countEnd: nat, counted: bool, seen0: set<string>) returns (seen: set<string>)
      requires countEnd <= |columnsDesc| == |columnsSamples| && seen0 == KeysFrom(columnsSamples, countEnd)
      modifies this
      ensures State() == Ranks(old(State()), countEnd, countEnd, counted)
      ensures seen == KeysFrom(columnsSamples, countEnd)
    {
      ghost var start := State();
      seen := seen0;
      for i := 0 to countEnd
        invariant State() == Ranks(start, countEnd, i, counted)
        invariant seen == KeysFrom(columnsSamples, countEnd)
      {
        var d := columnsDesc[i];
        var v := columnsSamples[i];
        if (counted && d.count) || (!counted && !d.count && d.kind == NumberColumn) {
          var rv := RankedSamples(v);
          var key := SamplesKey(rv);
          if key !in seen {
            KeysAppend(columnsSamples, countEnd, rv);
            seen := seen + {key};
            Push(d.(rank := true, kind := NumberColumn), rv);
          }
          var iv := InvRankedSamples(v);
          var invKey := SamplesKey(iv);
          if invKey !in seen {
            KeysAppend(columnsSamples, countEnd, iv);
            seen := seen + {invKey};
            Push(d.(invRank := true, kind := NumberColumn), iv);
          }
        }
      }
    }

    /** `init`: the four phases, one after the other; false when `count_arrays` throws. */
    method Init(values: seq<Samples>, numberCount: nat, colorCount: nat, ghost examples: nat) returns (ok: bool)
      requires Uniform(values, examples) && State() == Table([], [], map[])
      modifies this
      ensures ok <==> InitTable(values, numberCount, colorCount, examples).Success?
      ensures ok ==> State() == InitTable(values, numberCount, colorCount, examples).value
    {
      var basicEnd, work, seen := AddSingleColumns(values, numberCount, colorCount, examples);
      ghost var t1 := Basic(values, numberCount, colorCount, |values|);
      ok := AddCombinedColumns(t1, basicEnd, examples, work, seen);
      if !ok {
        return;
      }
      AddAllRankColumns();
    }

    /** The first two phases of `init`: the basic columns, then the count columns over single basic columns. */
    method AddSingleColumns(values: seq<Samples>, numberCount: nat, colorCount: nat, ghost examples: nat)
      returns (basicEnd: nat, work: seq<seq<nat>>, seen: set<string>)
      requires Uniform(values, examples) && State() == Table([], [], map[])
      modifies this
      ensures var t1 := Basic(values, numberCount, colorCount, |values|);
              && basicEnd == |t1.desc| && Shaped(t1, examples)
              && Stage(State(), work) == Counts(t1, basicEnd, basicEnd)
              && ValidWork(work, basicEnd) && Extends(State(), t1)
              && seen == KeysFrom(columnsSamples, basicEnd)
    {
      AddBasicColumns(values, numberCount, colorCount);
      BasicShaped(values, numberCount, colorCount, examples);
      ghost var t1 := State();
      basicEnd := |columnsDesc|;
      work, seen := AddCountColumns(t1, basicEnd);
      CountsWork(t1, basicEnd, basicEnd);
      CountsExtend(t1, basicEnd, basicEnd);
    }

    /** The last phase of `init`: the ranks of every column so far, with counts, then without. */
    method AddAllRankColumns()
      requires |columnsDesc| == |columnsSamples|
      modifies this
      ensures var c := |old(columnsDesc)|;
              State() == Ranks(Ranks(old(State()), c, c, true), c, c, false)
    {
      var countEnd := |columnsDesc|;
      var rankSeen := AddRankColumns(countEnd, true, {});
      rankSeen := AddRankColumns(countEnd, false, rankSeen);
    }
  }
}
