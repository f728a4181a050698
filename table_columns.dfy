/**
 * The column algebra of lib/TableAnalyser.ts. A column holds, for each row
 * of one example, a number or `null` (a row the example's mapping leaves
 * out); `count_array`, `count_arrays`, `rank_array` and `inv_rank_array`
 * derive new columns from old ones, `arrays_same_value` tells a column
 * that carries no information, and `samples_values_key` writes the
 * per-example columns as the string under which they are deduplicated.
 */
module TableColumns {
  import opened Wrappers
  import GridText
  import Solver

  /** A table entry: a number, or `null`. */
  type Cell = Option<int>

  // ---------------------------------------------------------------- counting

  /** How many entries of a equal x. */
  function Occ<X(==)>(a: seq<X>, x: X): nat
  {
    if |a| == 0 then 0 else Occ(a[..|a| - 1], x) + (if a[|a| - 1] == x then 1 else 0)
  }

  /** Occ is the multiplicity of x in the multiset of a's entries. */
  lemma {:induction false} OccIsMultiplicity<X>(a: seq<X>, x: X)
    ensures Occ(a, x) == multiset(a)[x]
  {
    if |a| > 0 {
      OccIsMultiplicity(a[..|a| - 1], x);
      assert a == a[..|a| - 1] + [a[|a| - 1]];
    }
  }

  /** Two sequences whose entries match x and y at the same positions hold them equally often. */
  lemma {:induction false} OccAlike<X, Y>(a: seq<X>, x: X, b: seq<Y>, y: Y)
    requires |a| == |b|
    requires forall j :: 0 <= j < |a| ==> (a[j] == x <==> b[j] == y)
    ensures Occ(a, x) == Occ(b, y)
  {
    if |a| > 0 {
      OccAlike(a[..|a| - 1], x, b[..|b| - 1], y);
    }
  }

  /** `count_array`: nulls stay, every other entry becomes how often it occurs. */
  function Counted<X(==)>(a: seq<Option<X>>): (r: seq<Cell>)
    ensures |r| == |a|
  {
    seq(|a|, i requires 0 <= i < |a| => if a[i].None? then None else Some(Occ(a, a[i]) as int))
  }

  /** Each non-null entry is counted by its multiplicity, which is at least one; nulls stay null. */
  lemma CountedMeaning<X>(a: seq<Option<X>>, i: nat)
    requires i < |a|
    ensures Counted(a)[i].None? <==> a[i].None?
    ensures a[i].Some? ==> Counted(a)[i] == Some(multiset(a)[a[i]] as int) && multiset(a)[a[i]] >= 1
  {
    OccIsMultiplicity(a, a[i]);
  }

  /** `count_array`: counts the non-null entries in a map, then looks each entry up. */
  method CountArray<X(==)>(a: seq<Option<X>>) returns (r: seq<Cell>)
    ensures r == Counted(a)
  {
    var counts: map<X, nat> := map[];
    for i := 0 to |a|
      invariant forall x :: x in counts <==> Occ(a[..i], Some(x)) > 0
      invariant forall x :: x in counts ==> counts[x] == Occ(a[..i], Some(x))
    {
      assert a[..i + 1][..i] == a[..i];
      if a[i].Some? {
        var x := a[i].value;
        if x in counts {
          counts := counts[x := counts[x] + 1];
        } else {
          counts := counts[x := 1];
        }
      }
    }
    assert a[..|a|] == a;
    r := [];
    for i := 0 to |a|
      invariant |r| == i
      invariant forall k :: 0 <= k < i ==> r[k] == Counted(a)[k]
    {
      if a[i].None? {
        r := r + [None];
      } else {
        CountedMeaning(a, i);
        r := r + [Some(counts[a[i].value] as int)];
      }
    }
  }

  // ------------------------------------------------- counting several columns

  /** Entry j of column a, `undefined` (here: none) past its end. */
  function At(a: seq<Cell>, j: nat): Cell
  {
    if j < |a| then a[j] else None
  }

  /** The entries of row j across the columns. */
  function Tuple(arrays: seq<seq<Cell>>, j: nat): (t: seq<Cell>)
    ensures |t| == |arrays|
  {
    seq(|arrays|, k requires 0 <= k < |arrays| => At(arrays[k], j))
  }

  /** Row j holds a number in every column. */
  predicate Full(arrays: seq<seq<Cell>>, j: nat)
  {
    forall k :: 0 <= k < |arrays| ==> At(arrays[k], j).Some?
  }

  function Numbers(t: seq<Cell>): (v: seq<int>)
    requires forall k :: 0 <= k < |t| ==> t[k].Some?
    ensures |v| == |t|
  {
    seq(|t|, k requires 0 <= k < |t| => t[k].value)
  }

  /** `arrays.map(a => a[i]!.toString()).join(',')`. */
  function RowKey(arrays: seq<seq<Cell>>, j: nat): string
    requires Full(arrays, j)
  {
    GridText.Join(Solver.ValueTexts(Numbers(Tuple(arrays, j))))
  }

  /** The keys of the rows: null where the first column is null; a `TypeError` where another column has no number. */
  function RowKeys(arrays: seq<seq<Cell>>, n: nat): Result<seq<Option<string>>>
    requires 0 < |arrays| && n <= |arrays[0]|
  {
    if n == 0 then Success([])
    else match RowKeys(arrays, n - 1)
      case Failure(e) => Failure(e)
      case Success(keys) =>
        if arrays[0][n - 1].None? then Success(keys + [None])
        else if Full(arrays, n - 1) then Success(keys + [Some(RowKey(arrays, n - 1))])
        else Failure("TypeError")
  }

  /** `count_arrays`: one column is counted alone; several are counted by the tuples of their rows. */
  function CountedArrays(arrays: seq<seq<Cell>>): Result<seq<Cell>>
  {
    if |arrays| == 0 then Failure("TypeError")
    else if |arrays| == 1 then Success(Counted(arrays[0]))
    else match RowKeys(arrays, |arrays[0]|)
      case Failure(e) => Failure(e)
      case Success(keys) => Success(Counted(keys))
  }

  /** `count_arrays`: pushes the key of each row, then counts the keys. */
  method CountArrays(arrays: seq<seq<Cell>>) returns (r: Result<seq<Cell>>)
    ensures r == CountedArrays(arrays)
  {
    if |arrays| == 0 {
      return Failure("TypeError");
    } else if |arrays| == 1 {
      var counted := CountArray(arrays[0]);
      return Success(counted);
    }
    var keys: seq<Option<string>> := [];
    for i := 0 to |arrays[0]|
      invariant RowKeys(arrays, i) == Success(keys)
    {
      if arrays[0][i].None? {
        keys := keys + [None];
      } else if Full(arrays, i) {
        keys := keys + [Some(RowKey(arrays, i))];
      } else {
        assert RowKeys(arrays, i + 1) == Failure("TypeError");
        FailureStays(arrays, i + 1, |arrays[0]|);
        return Failure("TypeError");
      }
    }
    var counted := CountArray(keys);
    r := Success(counted);
  }

  /** Once a row fails, every longer prefix fails. */
  lemma {:induction false} FailureStays(arrays: seq<seq<Cell>>, m: nat, n: nat)
    requires 0 < |arrays| && m <= n <= |arrays[0]|
    requires RowKeys(arrays, m) == Failure("TypeError")
    ensures RowKeys(arrays, n) == Failure("TypeError")
    decreases n - m
  {
    if m < n {
      FailureStays(arrays, m + 1, n);
    }
  }

  /** The keys found for a prefix of the rows: one per row, null exactly where the first column is. */
  lemma {:induction false} RowKeysShape(arrays: seq<seq<Cell>>, n: nat)
    requires 0 < |arrays| && n <= |arrays[0]|
    requires RowKeys(arrays, n).Success?
    ensures var keys := RowKeys(arrays, n).value;
            |keys| == n
            && forall j :: 0 <= j < n ==>
                 (keys[j].None? <==> arrays[0][j].None?)
                 && (keys[j].Some? ==> Full(arrays, j) && keys[j] == Some(RowKey(arrays, j)))
  {
    if n > 0 {
      RowKeysShape(arrays, n - 1);
    }
  }

  /** A full row's key gives back its numbers. */
  lemma RowKeyInjective(arrays: seq<seq<Cell>>, i: nat, j: nat)
    requires Full(arrays, i) && Full(arrays, j)
    ensures RowKey(arrays, i) == RowKey(arrays, j) <==> Tuple(arrays, i) == Tuple(arrays, j)
  {
    var u, v := Numbers(Tuple(arrays, i)), Numbers(Tuple(arrays, j));
    if RowKey(arrays, i) == RowKey(arrays, j) {
      Solver.ValuesFromList(u, v);
      forall k | 0 <= k < |arrays|
        ensures Tuple(arrays, i)[k] == Tuple(arrays, j)[k]
      {
        assert u[k] == v[k];
      }
    }
  }

  /**
   * Counting several columns gives, for a row whose first entry is a
   * number, how many rows hold the very same tuple of entries; a row whose
   * first entry is null stays null.
   */
  lemma CountArraysCountsTuples(arrays: seq<seq<Cell>>, i: nat)
    requires |arrays| >= 2 && i < |arrays[0]|
    requires CountedArrays(arrays).Success?
    ensures var r := CountedArrays(arrays).value;
            var tuples := seq(|arrays[0]|, j requires 0 <= j < |arrays[0]| => Tuple(arrays, j));
            |r| == |arrays[0]|
            && (r[i].None? <==> arrays[0][i].None?)
            && (arrays[0][i].Some? ==> r[i] == Some(Occ(tuples, Tuple(arrays, i)) as int))
  {
    var n := |arrays[0]|;
    var keys := RowKeys(arrays, n).value;
    RowKeysShape(arrays, n);
    var tuples := seq(|arrays[0]|, j requires 0 <= j < |arrays[0]| => Tuple(arrays, j));
    if arrays[0][i].Some? {
      forall j | 0 <= j < n
        ensures keys[j] == keys[i] <==> tuples[j] == Tuple(arrays, i)
      {
        assert Tuple(arrays, j)[0] == arrays[0][j];
        assert Tuple(arrays, i)[0] == arrays[0][i];
        if keys[j].Some? {
          RowKeyInjective(arrays, i, j);
        }
      }
      OccAlike(keys, keys[i], tuples, Tuple(arrays, i));
    }
  }

  // ------------------------------------------------------------------ ranking

  predicate StrictlyAscending(l: seq<int>)
  {
    forall i, j :: 0 <= i < j < |l| ==> l[i] < l[j]
  }

  /** x put into its place in a strictly ascending list, unless already there. */
  function Insert(l: seq<int>, x: int): (r: seq<int>)
    requires StrictlyAscending(l)
    ensures StrictlyAscending(r)
    ensures forall y :: y in r <==> y in l || y == x
  {
    if |l| == 0 then [x]
    else if x < l[0] then [x] + l
    else if x == l[0] then l
    else
      var rest := Insert(l[1..], x);
      ConsAscending(l[0], rest);
      [l[0]] + rest
  }

  /** A number below every element of a strictly ascending list stays so in front of it. */
  lemma ConsAscending(a: int, r: seq<int>)
    requires StrictlyAscending(r) && forall y :: y in r ==> a < y
    ensures StrictlyAscending([a] + r)
  {
    forall i, j | 0 <= i < j < |[a] + r|
      ensures ([a] + r)[i] < ([a] + r)[j]
    {
      assert ([a] + r)[j] == r[j - 1] && r[j - 1] in r;
      if i > 0 {
        assert ([a] + r)[i] == r[i - 1];
      }
    }
  }

  /** `[...new Set(array.filter(x => x !== null))].sort((a, b) => a - b)`. */
  function SortedValues(a: seq<Cell>): (l: seq<int>)
    ensures StrictlyAscending(l)
    ensures forall x :: x in l <==> Some(x) in a
  {
    if |a| == 0 then []
    else
      var l := SortedValues(a[..|a| - 1]);
      assert forall c :: c in a <==> c in a[..|a| - 1] || c == a[|a| - 1];
      if a[|a| - 1].None? then l else Insert(l, a[|a| - 1].value)
  }

  /** The position of x in l. */
  function IndexOf(l: seq<int>, x: int): (i: nat)
    requires x in l
    ensures i < |l| && l[i] == x
  {
    if l[0] == x then 0 else 1 + IndexOf(l[1..], x)
  }

  /** `rank_array`: each number becomes its position among the sorted distinct numbers. */
  function RankArray(a: seq<Cell>): (r: seq<Cell>)
    ensures |r| == |a|
  {
    var l := SortedValues(a);
    seq(|a|, i requires 0 <= i < |a| => if a[i].None? then None else Some(IndexOf(l, a[i].value) as int))
  }

  /** `inv_rank_array`: each number becomes its position counted from the largest. */
  function InvRankArray(a: seq<Cell>): (r: seq<Cell>)
    ensures |r| == |a|
  {
    var l := SortedValues(a);
    seq(|a|, i requires 0 <= i < |a| => if a[i].None? then None else Some(|l| - IndexOf(l, a[i].value) - 1))
  }

  /** In a strictly ascending list, positions compare as the values do. */
  lemma IndexOrder(l: seq<int>, x: int, y: int)
    requires StrictlyAscending(l) && x in l && y in l
    ensures x < y <==> IndexOf(l, x) < IndexOf(l, y)
    ensures x == y <==> IndexOf(l, x) == IndexOf(l, y)
  {
  }

  /**
   * Ranks keep nulls, lie between 0 and the number of distinct numbers
   * less one, and compare exactly as the numbers do.
   */
  lemma RankMeaning(a: seq<Cell>, i: nat, j: nat)
    requires i < |a| && j < |a|
    ensures RankArray(a)[i].None? <==> a[i].None?
    ensures a[i].Some? ==> 0 <= RankArray(a)[i].value < |SortedValues(a)|
    ensures a[i].Some? && a[j].Some? ==>
              (a[i].value < a[j].value <==> RankArray(a)[i].value < RankArray(a)[j].value)
              && (a[i].value == a[j].value <==> RankArray(a)[i].value == RankArray(a)[j].value)
  {
    if a[i].Some? && a[j].Some? {
      IndexOrder(SortedValues(a), a[i].value, a[j].value);
    }
  }

  /** Every rank below the number of distinct numbers is taken by some entry. */
  lemma RanksOnto(a: seq<Cell>, k: nat)
    requires k < |SortedValues(a)|
    ensures exists i :: 0 <= i < |a| && RankArray(a)[i] == Some(k as int)
  {
    var l := SortedValues(a);
    assert Some(l[k]) in a;
    var i :| 0 <= i < |a| && a[i] == Some(l[k]);
    IndexOfAt(l, k);
    assert RankArray(a)[i] == Some(k as int);
  }

  lemma IndexOfAt(l: seq<int>, k: nat)
    requires StrictlyAscending(l) && k < |l|
    ensures IndexOf(l, l[k]) == k
  {
    IndexOrder(l, l[k], l[IndexOf(l, l[k])]);
  }

  /** The inverse rank is the rank counted from the other end, so it reverses the order. */
  lemma InvRankMeaning(a: seq<Cell>, i: nat, j: nat)
    requires i < |a| && j < |a|
    ensures InvRankArray(a)[i].None? <==> a[i].None?
    ensures a[i].Some? ==> InvRankArray(a)[i] == Some(|SortedValues(a)| - 1 - RankArray(a)[i].value)
    ensures a[i].Some? && a[j].Some? ==>
              (a[i].value < a[j].value <==> InvRankArray(a)[i].value > InvRankArray(a)[j].value)
  {
    RankMeaning(a, i, j);
  }

  // ------------------------------------------------------------- same value

  /** All the numbers of all the columns are equal (so, too, when there are none). */
  predicate SameValue(arrays: seq<seq<Cell>>)
  {
    forall p, q, p', q' ::
      (0 <= p < |arrays| && 0 <= q < |arrays[p]| && 0 <= p' < |arrays| && 0 <= q' < |arrays[p']|
       && arrays[p][q].Some? && arrays[p'][q'].Some?) ==> arrays[p][q] == arrays[p'][q']
  }

  /** Entry (p, q) comes before entry (i, j) in the scan. */
  predicate Earlier(p: int, q: int, i: int, j: int)
  {
    p < i || (p == i && q < j)
  }

  /** After scanning up to (i, j): `seen` says a number was met, and every number met is `value`. */
  predicate Scanned(arrays: seq<seq<Cell>>, i: nat, j: nat, seen: bool, value: int)
  {
    && (seen <==> exists p, q :: 0 <= p < |arrays| && 0 <= q < |arrays[p]| && Earlier(p, q, i, j) && arrays[p][q].Some?)
    && (seen ==> forall p, q :: 0 <= p < |arrays| && 0 <= q < |arrays[p]| && Earlier(p, q, i, j) && arrays[p][q].Some?
                  ==> arrays[p][q] == Some(value))
  }

  /** The inner loop of `arrays_same_value` over column i. */
  method ScanColumn(arrays: seq<seq<Cell>>, i: nat, seen0: bool, value0: int) returns (ok: bool, seen: bool, value: int)
    requires i < |arrays| && Scanned(arrays, i, 0, seen0, value0)
    ensures ok ==> Scanned(arrays, i + 1, 0, seen, value)
    ensures !ok ==> !SameValue(arrays)
  {
    seen, value := seen0, value0;
    for j := 0 to |arrays[i]|
      invariant Scanned(arrays, i, j, seen, value)
    {
      if arrays[i][j].Some? {
        if !seen {
          value := arrays[i][j].value;
          seen := true;
        } else if value != arrays[i][j].value {
          var p, q :| 0 <= p < |arrays| && 0 <= q < |arrays[p]| && Earlier(p, q, i, j) && arrays[p][q].Some?;
          assert arrays[p][q] == Some(value);
          return false, seen, value;
        }
      }
    }
    ok := true;
  }

  /** `arrays_same_value`: scans every entry, stopping at the first number that differs from the first one met. */
  method ArraysSameValue(arrays: seq<seq<Cell>>) returns (same: bool)
    ensures same <==> SameValue(arrays)
  {
    var seen := false;
    var value := 0;
    for i := 0 to |arrays|
      invariant Scanned(arrays, i, 0, seen, value)
    {
      var ok;
      ok, seen, value := ScanColumn(arrays, i, seen, value);
      if !ok {
        return false;
      }
    }
    return true;
  }

  // -------------------------------------------------------------------- keys

  /** An entry as `samples_values_key` writes it. */
  function CellKeyText(c: Cell): (s: string)
    ensures |s| > 0 && GridText.NoChar(s, ',') && GridText.NoChar(s, ']')
  {
    if c.None? then "null" else Solver.ValueText(c.value)
  }

  function CellKeyTexts(values: seq<Cell>): (r: seq<string>)
    ensures |r| == |values|
  {
    seq(|values|, i requires 0 <= i < |values| => CellKeyText(values[i]))
  }

  /** One example's column, bracketed. */
  function SampleKey(values: seq<Cell>): string
  {
    "[" + GridText.Join(CellKeyTexts(values)) + "]"
  }

  /** `samples_values_key`: the examples' columns, bracketed and joined with commas. */
  function SamplesKey(samples: seq<seq<Cell>>): string
  {
    GridText.Join(seq(|samples|, i requires 0 <= i < |samples| => SampleKey(samples[i])))
  }

  lemma CellKeyTextInjective(a: Cell, b: Cell)
    requires CellKeyText(a) == CellKeyText(b)
    ensures a == b
  {
    if a.Some? && b.Some? {
      Solver.ValueTextInjective(a.value, b.value);
    } else if a.Some? {
      ValueTextNotNull(a.value);
    } else if b.Some? {
      ValueTextNotNull(b.value);
    }
  }

  /** A number is never written as `null`. */
  lemma ValueTextNotNull(v: int)
    ensures Solver.ValueText(v) != "null"
  {
    assert Solver.ValueText(v)[0] != 'n';
  }

  lemma SampleKeyBracketed(values: seq<Cell>)
    ensures GridText.Bracketed(SampleKey(values))
  {
    GridText.JoinNoChar(CellKeyTexts(values), ']');
    assert SampleKey(values)[..|SampleKey(values)| - 1] == "[" + GridText.Join(CellKeyTexts(values));
  }

  lemma SampleKeyInjective(a: seq<Cell>, b: seq<Cell>)
    requires SampleKey(a) == SampleKey(b)
    ensures a == b
  {
    var ta, tb := CellKeyTexts(a), CellKeyTexts(b);
    GridText.Unbracket(GridText.Join(ta));
    GridText.Unbracket(GridText.Join(tb));
    GridText.JoinInjective(ta, tb);
    forall i | 0 <= i < |a|
      ensures a[i] == b[i]
    {
      assert ta[i] == tb[i];
      CellKeyTextInjective(a[i], b[i]);
    }
  }

  /** The key tells the examples' columns apart, so deduplicating by key is deduplicating by value. */
  lemma SamplesKeyInjective(a: seq<seq<Cell>>, b: seq<seq<Cell>>)
    ensures SamplesKey(a) == SamplesKey(b) <==> a == b
  {
    if SamplesKey(a) == SamplesKey(b) {
      var ka := seq(|a|, i requires 0 <= i < |a| => SampleKey(a[i]));
      var kb := seq(|b|, i requires 0 <= i < |b| => SampleKey(b[i]));
      forall i | 0 <= i < |a|
        ensures GridText.Bracketed(ka[i])
      {
        SampleKeyBracketed(a[i]);
      }
      forall i | 0 <= i < |b|
        ensures GridText.Bracketed(kb[i])
      {
        SampleKeyBracketed(b[i]);
      }
      GridText.JoinBracketedInjective(ka, kb);
      forall i | 0 <= i < |a|
        ensures a[i] == b[i]
      {
        assert ka[i] == kb[i];
        SampleKeyInjective(a[i], b[i]);
      }
    }
  }
}
