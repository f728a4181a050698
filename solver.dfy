/**
 * The state the `Solver` class of lib/Solver.ts keeps between searches:
 * the samples mask, the interned grids, the keys of the duals already
 * seen, the table of boolean predicates by bit field, and the memo tables
 * of `select_*`/`build_*`. A tracked function is represented by its path;
 * a dual is its vector of values, one per sample.
 */
module Solver {
  import opened Wrappers
  import opened Bits
  import opened GridValues
  import GridText
  import Misc
  import opened SolverPaths

  // ------------------------------------------------------------------ duals

  datatype DualType = NumberDual | ColorDual | GridDual

  function TypeName(t: DualType): string
  {
    match t
    case NumberDual => "number"
    case ColorDual => "color"
    case GridDual => "grid"
  }

  /** `DualFunction`: a tracked function with its value on every sample. */
  datatype Dual = Dual(generation: nat, path: string, values: seq<int>, kind: DualType)

  /** `value.toString()` for an integer: a minus sign for negatives, then the decimal digits. */
  function ValueText(n: int): (s: string)
    ensures |s| > 0 && GridText.NoChar(s, ',')
  {
    if n < 0 then "-" + GridText.Decimal(-n) else GridText.Decimal(n)
  }

  function ValueTexts(values: seq<int>): (r: seq<string>)
    ensures |r| == |values| && forall i :: 0 <= i < |values| ==> r[i] == ValueText(values[i])
  {
    if |values| == 0 then [] else [ValueText(values[0])] + ValueTexts(values[1..])
  }

  /** `dual_function_key`: `type: generation = [v0,v1,…]`. */
  function DualKey(d: Dual): string
  {
    TypeName(d.kind) + (": " + GenerationPart(d))
  }

  /** The key after the type: the generation, then the bracketed values. */
  function GenerationPart(d: Dual): string
  {
    GridText.Decimal(d.generation) + ValuesPart(d.values)
  }

  function ValuesPart(values: seq<int>): string
  {
    " = [" + (GridText.Join(ValueTexts(values)) + "]")
  }

  /** A written value reads back as the value. */
  lemma ValueRoundTrip(n: int)
    ensures GridText.CellValue(ValueText(n)) == n
  {
    if n < 0 {
      GridText.NegativeValue(GridText.Decimal(-n));
      GridText.DecimalRoundTrip(-n);
    } else {
      GridText.DigitsValue(GridText.Decimal(n));
      GridText.DecimalRoundTrip(n);
    }
  }

  predicate Digits(s: string)
  {
    forall i :: 0 <= i < |s| ==> '0' <= s[i] <= '9'
  }

  /** A run of digits followed by a non-digit is determined by the string it starts. */
  lemma DigitRun(a: string, s: string, b: string, t: string)
    requires Digits(a) && Digits(b) && |s| > 0 && |t| > 0
    requires !('0' <= s[0] <= '9') && !('0' <= t[0] <= '9')
    requires a + s == b + t
    ensures a == b && s == t
  {
    var i := if |a| < |b| then |a| else |b|;
    assert '0' <= (a + s)[i] <= '9' <==> i < |a|;
    assert '0' <= (b + t)[i] <= '9' <==> i < |b|;
    assert |a| == |b|;
    assert a == (a + s)[..|a|] == (b + t)[..|b|] == b;
    assert s == (a + s)[|a|..] == (b + t)[|b|..] == t;
  }

  lemma ValueTextInjective(m: int, n: int)
    requires ValueText(m) == ValueText(n)
    ensures m == n
  {
    ValueRoundTrip(m);
    ValueRoundTrip(n);
  }

  /** The bracketed value list of a key determines the values. */
  lemma ValuesFromList(u: seq<int>, v: seq<int>)
    requires GridText.Join(ValueTexts(u)) == GridText.Join(ValueTexts(v))
    ensures u == v
  {
    GridText.JoinInjective(ValueTexts(u), ValueTexts(v));
    forall i | 0 <= i < |u|
      ensures u[i] == v[i]
    {
      ValueTextInjective(u[i], v[i]);
    }
  }

  /** The first character of a key names the type. */
  lemma KindFromKey(d: Dual, e: Dual)
    requires DualKey(d) == DualKey(e)
    ensures d.kind == e.kind
  {
    assert DualKey(d)[0] == TypeName(d.kind)[0];
    assert DualKey(e)[0] == TypeName(e.kind)[0];
  }

  /** The bracketed values determine the values. */
  lemma ValuesFromPart(u: seq<int>, v: seq<int>)
    requires ValuesPart(u) == ValuesPart(v)
    ensures u == v
  {
    var ju, jv := GridText.Join(ValueTexts(u)), GridText.Join(ValueTexts(v));
    assert |ju| == |jv|;
    assert ju == ValuesPart(u)[4..4 + |ju|];
    assert jv == ValuesPart(v)[4..4 + |jv|];
    ValuesFromList(u, v);
  }

  /** The generation part determines the generation and the values. */
  lemma GenerationFromPart(d: Dual, e: Dual)
    requires GenerationPart(d) == GenerationPart(e)
    ensures d.generation == e.generation && d.values == e.values
  {
    DigitRun(GridText.Decimal(d.generation), ValuesPart(d.values), GridText.Decimal(e.generation), ValuesPart(e.values));
    GridText.DecimalRoundTrip(d.generation);
    GridText.DecimalRoundTrip(e.generation);
    ValuesFromPart(d.values, e.values);
  }

  /**
   * Two duals have the same key exactly when they have the same type,
   * generation and values, so the seen-duals set lets through one dual per
   * value vector.
   */
  lemma DualKeyInjective(d: Dual, e: Dual)
    ensures DualKey(d) == DualKey(e) <==> d.kind == e.kind && d.generation == e.generation && d.values == e.values
  {
    if DualKey(d) == DualKey(e) {
      KindFromKey(d, e);
      GenerationPartFromKey(d, e);
      GenerationFromPart(d, e);
    }
  }

  /** Past the type name, equal keys of one type have equal generation parts. */
  lemma GenerationPartFromKey(d: Dual, e: Dual)
    requires DualKey(d) == DualKey(e) && d.kind == e.kind
    ensures GenerationPart(d) == GenerationPart(e)
  {
    var p := TypeName(d.kind);
    SamePrefix(p, ": " + GenerationPart(d), ": " + GenerationPart(e));
    SamePrefix(": ", GenerationPart(d), GenerationPart(e));
  }

  /** A common prefix can be dropped from equal strings. */
  lemma SamePrefix(p: string, a: string, b: string)
    requires p + a == p + b
    ensures a == b
  {
    assert a == (p + a)[|p|..];
    assert b == (p + b)[|p|..];
  }

  // ------------------------------------------------------------ the solver

  /** A memo entry of `output_dual_*`: the function found, or `'failed'`. */
  datatype Memo = Found(path: string) | Failed

  /** `CantBuildNumberFunction`, `CantBuildColorFunction`, `CantBuildGridFunction`. */
  function CantBuild(t: DualType): string
  {
    match t
    case NumberDual => "CantBuildNumberFunction"
    case ColorDual => "CantBuildColorFunction"
    case GridDual => "CantBuildGridFunction"
  }

  /** `add_boolean_function`'s test: a fresh, non-trivial bit field with at least two bits. */
  predicate Admissible(output: nat, samplesMask: nat, table: map<nat, string>)
  {
    output != 0 && output != samplesMask && output !in table && And(output, output - 1) != 0
  }

  /** The test reads: not empty, not every sample, not a single sample, and not already present. */
  lemma AdmissibleMeaning(output: nat, samplesMask: nat, table: map<nat, string>)
    ensures Admissible(output, samplesMask, table)
            <==> output != samplesMask && output !in table && PopCount(output) >= 2
  {
    if output != 0 {
      SeveralBits(output);
    } else {
      PopCountZero(output);
    }
  }

  class Solver {
    var seenDual: set<string>
    var outputDualNumber: map<string, Memo>
    var outputDualColor: map<string, Memo>
    var outputDualGrid: map<string, Memo>
    var booleanFunctions: map<nat, string>
    var grids: seq<Raster>
    var gridIndex: map<string, nat>
    var samplesMask: nat
    var samplesCount: nat

    constructor ()
      ensures seenDual == {} && outputDualNumber == map[] && outputDualColor == map[] && outputDualGrid == map[]
      ensures booleanFunctions == map[] && grids == [] && gridIndex == map[]
      ensures samplesMask == 0 && samplesCount == 0
      ensures Interned() && TableValid()
    {
      seenDual := {};
      outputDualNumber, outputDualColor, outputDualGrid := map[], map[], map[];
      booleanFunctions := map[];
      grids, gridIndex := [], map[];
      samplesMask, samplesCount := 0, 0;
    }

    /** Every key names the grid stored at its index, and every grid is found under its own key. */
    predicate Interned()
      reads this
    {
      Interning(grids, gridIndex)
    }

    /** Every predicate in the table tells apart at least two samples from the rest. */
    predicate TableValid()
      reads this
    {
      forall output :: output in booleanFunctions ==> PopCount(output) >= 2
    }

    /** The memo table of one dual type. */
    function Memos(t: DualType): map<string, Memo>
      reads this
    {
      match t
      case NumberDual => outputDualNumber
      case ColorDual => outputDualColor
      case GridDual => outputDualGrid
    }

    /** `compute_samples_mask`: counts the samples and sets one bit per sample. */
    method ComputeSamplesMask<I>(samples: seq<Sample<I>>)
      modifies this
      ensures samplesCount == |samples| && samplesMask == Pow2(|samples|) - 1
      ensures forall i: nat :: Bit(samplesMask, i) <==> i < samplesCount
      ensures seenDual == old(seenDual) && booleanFunctions == old(booleanFunctions)
      ensures grids == old(grids) && gridIndex == old(gridIndex)
      ensures forall t :: Memos(t) == old(Memos(t))
    {
      var index := 0;
      for k := 0 to |samples|
        invariant index == k
      {
        index := index + 1;
      }
      samplesMask := Pow2(index) - 1;
      samplesCount := index;
      forall i: nat
        ensures Bit(samplesMask, i) <==> i < samplesCount
      {
        BitOfLowMask(index, i);
      }
    }

    /** The interning step of `raise_grid_number_function`: the index of the grid's text, added if new. */
    method AddGrid(g: Raster) returns (index: nat)
      requires Interned()
      modifies this
      ensures Interned()
      ensures index < |grids| && GridText.Text(grids[index]) == GridText.Text(g)
      ensures GridText.Text(g) in old(gridIndex) ==>
                grids == old(grids) && gridIndex == old(gridIndex) && index == old(gridIndex)[GridText.Text(g)]
      ensures GridText.Text(g) !in old(gridIndex) ==>
                grids == old(grids) + [g] && gridIndex == old(gridIndex)[GridText.Text(g) := index] && index == |old(grids)|
      ensures seenDual == old(seenDual) && booleanFunctions == old(booleanFunctions)
      ensures samplesMask == old(samplesMask) && samplesCount == old(samplesCount)
      ensures forall t :: Memos(t) == old(Memos(t))
    {
      var key := GridText.Text(g);
      if key in gridIndex {
        index := gridIndex[key];
      } else {
        index := |grids|;
        InternNew(grids, gridIndex, g);
        grids := grids + [g];
        gridIndex := gridIndex[key := index];
      }
    }

    /** The function `raise_grid_number_function` builds: `-1` for a missing grid, else its interned index. */
    method GridNumber(g: Option<Raster>) returns (index: int)
      requires Interned()
      modifies this
      ensures Interned()
      ensures g.None? ==> index == -1 && grids == old(grids) && gridIndex == old(gridIndex)
      ensures g.Some? ==> 0 <= index < |grids| && GridText.Text(grids[index]) == GridText.Text(g.value)
      ensures |old(grids)| <= |grids| && grids[..|old(grids)|] == old(grids)
      ensures seenDual == old(seenDual) && booleanFunctions == old(booleanFunctions)
      ensures samplesMask == old(samplesMask) && samplesCount == old(samplesCount)
      ensures forall t :: Memos(t) == old(Memos(t))
    {
      if g.None? {
        index := -1;
      } else {
        index := AddGrid(g.value);
      }
    }

    /** `filter_dual`: true the first time a key is met, and the key is remembered. */
    method FilterDual(d: Dual) returns (isNew: bool)
      modifies this
      ensures isNew <==> DualKey(d) !in old(seenDual)
      ensures seenDual == old(seenDual) + {DualKey(d)}
      ensures booleanFunctions == old(booleanFunctions) && grids == old(grids) && gridIndex == old(gridIndex)
      ensures samplesMask == old(samplesMask) && samplesCount == old(samplesCount)
      ensures forall t :: Memos(t) == old(Memos(t))
    {
      var key := DualKey(d);
      if key !in seenDual {
        seenDual := seenDual + {key};
        isNew := true;
      } else {
        isNew := false;
      }
    }

    /** `add_boolean_function`: the bit field of the values, kept under that field if admissible and new. */
    method AddBooleanFunction(path: string, values: seq<bool>)
      requires TableValid()
      modifies this
      ensures TableValid()
      ensures booleanFunctions == if Admissible(Misc.BooleansValue(values), samplesMask, old(booleanFunctions))
                                  then old(booleanFunctions)[Misc.BooleansValue(values) := path]
                                  else old(booleanFunctions)
      ensures Misc.BooleansValue(values) in old(booleanFunctions) ==> booleanFunctions == old(booleanFunctions)
      ensures seenDual == old(seenDual) && grids == old(grids) && gridIndex == old(gridIndex)
      ensures samplesMask == old(samplesMask) && samplesCount == old(samplesCount)
      ensures forall t :: Memos(t) == old(Memos(t))
    {
      var output := Misc.BooleansToBitfield(values);
      if output != 0 && output != samplesMask && output !in booleanFunctions && And(output, output - 1) != 0 {
        AdmissibleMeaning(output, samplesMask, booleanFunctions);
        booleanFunctions := booleanFunctions[output := path];
      }
    }

    /** Stores a memo entry in the table of the given type. */
    method Remember(t: DualType, key: string, m: Memo)
      modifies this
      ensures Memos(t) == old(Memos(t))[key := m]
      ensures forall u :: u != t ==> Memos(u) == old(Memos(u))
      ensures seenDual == old(seenDual) && booleanFunctions == old(booleanFunctions)
      ensures grids == old(grids) && gridIndex == old(gridIndex)
      ensures samplesMask == old(samplesMask) && samplesCount == old(samplesCount)
    {
      match t
      case NumberDual => outputDualNumber := outputDualNumber[key := m];
      case ColorDual => outputDualColor := outputDualColor[key := m];
      case GridDual => outputDualGrid := outputDualGrid[key := m];
    }

    /**
     * `select_number_function`, `select_color_function`, `select_grid_function`:
     * the memo entry under the key of the target's dual if there is one,
     * otherwise the outcome of the search, remembered. `search` is the first
     * function the enumeration yields, or none when it yields nothing or
     * throws; it is consulted only when the key is new.
     */
    method SelectFunction(target: Dual, search: Option<string>) returns (r: Option<string>)
      modifies this
      ensures var key := DualKey(target);
              && key in Memos(target.kind)
              && (Memos(target.kind)[key] == Failed <==> r.None?)
              && (r.Some? ==> Memos(target.kind)[key] == Found(r.value))
      ensures var key := DualKey(target);
              key in old(Memos(target.kind)) ==> Memos(target.kind) == old(Memos(target.kind))
      ensures var key := DualKey(target);
              key !in old(Memos(target.kind)) ==>
                r == search && Memos(target.kind) == old(Memos(target.kind))[key := if search.Some? then Found(search.value) else Failed]
      ensures forall u :: u != target.kind ==> Memos(u) == old(Memos(u))
      ensures seenDual == old(seenDual) && booleanFunctions == old(booleanFunctions)
      ensures grids == old(grids) && gridIndex == old(gridIndex)
      ensures samplesMask == old(samplesMask) && samplesCount == old(samplesCount)
    {
      var key := DualKey(target);
      var memos := Memos(target.kind);
      if key in memos {
        match memos[key]
        case Failed => r := None;
        case Found(p) => r := Some(p);
      } else {
        r := search;
        Remember(target.kind, key, if search.Some? then Found(search.value) else Failed);
      }
    }

    /**
     * `build_number_function`, `build_color_function`, `build_grid_function`:
     * as `SelectFunction`, but a failed search, remembered or new, throws
     * the matching `CantBuild…Function`.
     */
    method BuildFunction(target: Dual, search: Option<string>) returns (r: Result<string>)
      modifies this
      ensures var key := DualKey(target);
              && key in Memos(target.kind)
              && (Memos(target.kind)[key] == Failed <==> r == Failure(CantBuild(target.kind)))
              && (r.Success? ==> Memos(target.kind)[key] == Found(r.value))
      ensures var key := DualKey(target);
              key in old(Memos(target.kind)) ==> Memos(target.kind) == old(Memos(target.kind))
      ensures var key := DualKey(target);
              key !in old(Memos(target.kind)) ==>
                Memos(target.kind) == old(Memos(target.kind))[key := if search.Some? then Found(search.value) else Failed]
      ensures forall u :: u != target.kind ==> Memos(u) == old(Memos(u))
      ensures seenDual == old(seenDual) && booleanFunctions == old(booleanFunctions)
      ensures grids == old(grids) && gridIndex == old(gridIndex)
      ensures samplesMask == old(samplesMask) && samplesCount == old(samplesCount)
    {
      var key := DualKey(target);
      var memos := Memos(target.kind);
      if key in memos {
        match memos[key]
        case Failed => r := Failure(CantBuild(target.kind));
        case Found(p) => r := Success(p);
      } else {
        if search.Some? {
          r := Success(search.value);
        } else {
          r := Failure(CantBuild(target.kind));
        }
        Remember(target.kind, key, if search.Some? then Found(search.value) else Failed);
      }
    }
  }

  /** Every key names the grid stored at its index, and every grid is found under its own key. */
  predicate Interning(grids: seq<Raster>, gridIndex: map<string, nat>)
  {
    (forall key :: key in gridIndex ==> gridIndex[key] < |grids| && GridText.Text(grids[gridIndex[key]]) == key)
    && (forall i :: 0 <= i < |grids| ==> GridText.Text(grids[i]) in gridIndex && gridIndex[GridText.Text(grids[i])] == i)
  }

  /** Appending a grid whose text is new, under the next index, keeps the interning. */
  lemma InternNew(grids: seq<Raster>, gridIndex: map<string, nat>, g: Raster)
    requires Interning(grids, gridIndex) && GridText.Text(g) !in gridIndex
    ensures Interning(grids + [g], gridIndex[GridText.Text(g) := |grids|])
  {
    var grids', gridIndex' := grids + [g], gridIndex[GridText.Text(g) := |grids|];
    forall i | 0 <= i < |grids'|
      ensures GridText.Text(grids'[i]) in gridIndex' && gridIndex'[GridText.Text(grids'[i])] == i
    {
      if i < |grids| {
        assert grids'[i] == grids[i];
      }
    }
  }

  /** Interning by text is sound for grids whose cells are all defined: the index names the same rows. */
  lemma InternedGridIsTheGrid(s: seq<Raster>, index: nat, g: Raster)
    requires index < |s| && GridText.Text(s[index]) == GridText.Text(g)
    requires GridText.Defined(s[index]) && GridText.Defined(g)
    ensures s[index].rows == g.rows
  {
    GridText.TextInjective(s[index], g);
  }
}
