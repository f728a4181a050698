/**
 * The tests the search of lib/Solver.ts applies to bit fields and value
 * vectors: the classification of a boolean predicate against positive and
 * negative samples (`enum_boolean_functions`), the grouping of samples by
 * example and the classification of selectors (`enum_boolean_selectors`),
 * and the acceptance of a value table (`enum_mapping_functions`).
 */
module SolverClassify {
  import opened Bits
  import opened SolverPaths

  // ------------------------------------------------- boolean classification

  /** A bit field, or the complement `~n` of one (a negative bigint). */
  datatype Mask = Bits(n: nat) | Complement(n: nat)

  /** What `classify_function` does with a predicate. */
  datatype Verdict =
    | Yield(negated: bool)
    | NoteAllTruePositive(key: Mask, negated: bool)
    | NoteAllFalseNegative(missed: nat, negated: bool)
    | NoteMixed
    | Ignore

  /**
   * `classify_function` on the bit field `output` of a predicate: yield it
   * (or its negation) when it separates the positives from the negatives,
   * otherwise note it under the samples it gets wrong.
   */
  function BooleanVerdict(positives: nat, negatives: nat, output: nat): Verdict
  {
    var truePositive := And(positives, output);
    var falseNegative := AndNot(negatives, output);
    var allTruePositive := truePositive == positives;
    var noneTruePositive := truePositive == 0;
    var allFalseNegative := falseNegative == negatives;
    var noneFalseNegative := falseNegative == 0;
    if (allTruePositive && noneFalseNegative) || (noneTruePositive && allFalseNegative) then Ignore
    else if allTruePositive && allFalseNegative then Yield(false)
    else if noneTruePositive && noneFalseNegative then Yield(true)
    else if allTruePositive then NoteAllTruePositive(Bits(falseNegative), false)
    else if noneTruePositive then NoteAllTruePositive(Complement(Or(negatives, output)), true)
    else if allFalseNegative then NoteAllFalseNegative(truePositive, false)
    else if noneFalseNegative then NoteAllFalseNegative(AndNot(output, positives), true)
    else NoteMixed
  }

  /** The predicate holds on every sample of `mask`. */
  ghost predicate TrueOn(mask: nat, output: nat)
  {
    forall i: nat :: Bit(mask, i) ==> Bit(output, i)
  }

  /** The predicate fails on every sample of `mask`. */
  ghost predicate FalseOn(mask: nat, output: nat)
  {
    forall i: nat :: Bit(mask, i) ==> !Bit(output, i)
  }

  lemma AndMeaning(p: nat, o: nat)
    ensures And(p, o) == p <==> TrueOn(p, o)
    ensures And(p, o) == 0 <==> FalseOn(p, o)
  {
    forall i: nat
      ensures Bit(And(p, o), i) <==> Bit(p, i) && Bit(o, i)
    {
      BitOfAnd(p, o, i);
    }
    if TrueOn(p, o) {
      BitsDetermine(And(p, o), p);
    }
    if FalseOn(p, o) {
      NoBitIsZero(And(p, o));
    }
    if And(p, o) == 0 {
      forall i: nat
        ensures !Bit(And(p, o), i)
      {
        BitOfZero(i);
      }
    }
  }

  lemma AndNotMeaning(n: nat, o: nat)
    ensures AndNot(n, o) == n <==> FalseOn(n, o)
    ensures AndNot(n, o) == 0 <==> TrueOn(n, o)
  {
    forall i: nat
      ensures Bit(AndNot(n, o), i) <==> Bit(n, i) && !Bit(o, i)
    {
      BitOfAndNot(n, o, i);
    }
    if FalseOn(n, o) {
      BitsDetermine(AndNot(n, o), n);
    }
    if TrueOn(n, o) {
      NoBitIsZero(AndNot(n, o));
    }
    if AndNot(n, o) == 0 {
      forall i: nat
        ensures !Bit(AndNot(n, o), i)
      {
        BitOfZero(i);
      }
    }
  }

  /**
   * A predicate is yielded as it is exactly when there are positives and
   * negatives and it holds on every positive and on no negative; it is
   * yielded negated in the mirrored case.
   */
  lemma BooleanVerdictYields(positives: nat, negatives: nat, output: nat)
    ensures BooleanVerdict(positives, negatives, output) == Yield(false)
            <==> positives != 0 && negatives != 0 && TrueOn(positives, output) && FalseOn(negatives, output)
    ensures BooleanVerdict(positives, negatives, output) == Yield(true)
            <==> positives != 0 && negatives != 0 && FalseOn(positives, output) && TrueOn(negatives, output)
  {
    AndMeaning(positives, output);
    AndNotMeaning(negatives, output);
  }

  /** The tables `classify_function` fills: the first predicate noted under a key stays. */
  datatype Notes = Notes(allTruePositive: map<Mask, string>, allFalseNegative: map<nat, string>, mixed: set<nat>)

  /**
   * The notes after classifying the predicate with path `path` and bit
   * field `output`; `keepMixed` says whether a set for mixed predicates was
   * passed (the one call of `classify_function` passes one).
   */
  function Note(notes: Notes, v: Verdict, path: string, output: nat, keepMixed: bool): (r: Notes)
    ensures r.allTruePositive.Keys == notes.allTruePositive.Keys + (if v.NoteAllTruePositive? then {v.key} else {})
    ensures r.allFalseNegative.Keys == notes.allFalseNegative.Keys + (if v.NoteAllFalseNegative? then {v.missed} else {})
    ensures r.mixed == notes.mixed + (if v.NoteMixed? && keepMixed then {output} else {})
    ensures forall k :: k in notes.allTruePositive ==> r.allTruePositive[k] == notes.allTruePositive[k]
    ensures forall k :: k in notes.allFalseNegative ==> r.allFalseNegative[k] == notes.allFalseNegative[k]
    ensures v.NoteAllTruePositive? && v.key !in notes.allTruePositive ==>
      r.allTruePositive[v.key] == if v.negated then NotPath(path) else path
    ensures v.NoteAllFalseNegative? && v.missed !in notes.allFalseNegative ==>
      r.allFalseNegative[v.missed] == if v.negated then NotPath(path) else path
  {
    match v
    case NoteAllTruePositive(key, negated) =>
      if key in notes.allTruePositive then notes
      else notes.(allTruePositive := notes.allTruePositive[key := if negated then NotPath(path) else path])
    case NoteAllFalseNegative(key, negated) =>
      if key in notes.allFalseNegative then notes
      else notes.(allFalseNegative := notes.allFalseNegative[key := if negated then NotPath(path) else path])
    case NoteMixed => if keepMixed then notes.(mixed := notes.mixed + {output}) else notes
    case _ => notes
  }

  // ------------------------------------------------------- sample groups

  predicate Sorted(firsts: seq<nat>)
  {
    forall i, j :: 0 <= i < j < |firsts| ==> firsts[i] <= firsts[j]
  }

  /** How many entries equal `g`. */
  function Occurrences(s: seq<nat>, g: nat): nat
  {
    if |s| == 0 then 0 else Occurrences(s[..|s| - 1], g) + (if s[|s| - 1] == g then 1 else 0)
  }

  /** The group sizes: one count per example index from 0 up to the last one met (a single 0 without samples). */
  function GroupCountsOf(firsts: seq<nat>): (r: seq<nat>)
    ensures |r| == if |firsts| == 0 then 1 else firsts[|firsts| - 1] + 1
  {
    var n := if |firsts| == 0 then 1 else firsts[|firsts| - 1] + 1;
    seq(n, g requires 0 <= g < n => Occurrences(firsts, g))
  }

  /**
   * The loop of `enum_boolean_selectors` that counts, for each example,
   * the samples whose first index is that example, given the first
   * indices of the samples in order. The samples come example by example,
   * so the indices never decrease; otherwise the loop would not end.
   */
  method GroupCounts(firsts: seq<nat>) returns (counts: seq<nat>)
    requires Sorted(firsts)
    ensures counts == GroupCountsOf(firsts)
  {
    counts := [];
    var groupIndex: nat := 0;
    var groupCount: nat := 0;
    for k := 0 to |firsts|
      invariant k > 0 ==> groupIndex == firsts[k - 1]
      invariant k == 0 ==> groupIndex == 0
      invariant |counts| == groupIndex
      invariant forall g :: 0 <= g < groupIndex ==> counts[g] == Occurrences(firsts[..k], g)
      invariant groupCount == Occurrences(firsts[..k], groupIndex)
    {
      assert firsts[..k + 1][..k] == firsts[..k];
      OccurrencesBeyond(firsts[..k], groupIndex);
      if firsts[k] == groupIndex {
        groupCount := groupCount + 1;
      } else {
        counts := counts + [groupCount];
        groupIndex := groupIndex + 1;
        while groupIndex != firsts[k]
          invariant groupIndex <= firsts[k]
          invariant |counts| == groupIndex
          invariant forall g :: 0 <= g < groupIndex ==> counts[g] == Occurrences(firsts[..k + 1], g)
          decreases firsts[k] - groupIndex
        {
          counts := counts + [0];
          groupIndex := groupIndex + 1;
        }
        groupCount := 1;
      }
    }
    counts := counts + [groupCount];
    assert firsts[..|firsts|] == firsts;
  }

  /** Entries above every entry of a sorted prefix do not occur in it. */
  lemma {:induction false} OccurrencesBeyond(s: seq<nat>, x: nat)
    requires forall i :: 0 <= i < |s| ==> s[i] <= x
    ensures forall g :: g > x ==> Occurrences(s, g) == 0
  {
    if |s| > 0 {
      OccurrencesBeyond(s[..|s| - 1], x);
    }
  }

  // ---------------------------------------------------- selector classes

  datatype SelectorClass = FailedSelector | SuccessSelector | PartialSelector

  /** Sample i is selected by the bit field, or by its complement when `negated`. */
  predicate Chosen(output: nat, negated: bool, i: nat)
  {
    Bit(output, i) != negated
  }

  /** How many of the samples from, …, from + n - 1 are selected. */
  function Selected(output: nat, negated: bool, from: nat, n: nat): nat
  {
    if n == 0 then 0 else Selected(output, negated, from, n - 1) + (if Chosen(output, negated, from + n - 1) then 1 else 0)
  }

  function Sum(s: seq<nat>): nat
  {
    if |s| == 0 then 0 else Sum(s[..|s| - 1]) + s[|s| - 1]
  }

  /** The index of the first sample of group g: the sizes of the groups before it added up. */
  function Start(counts: seq<nat>, g: nat): nat
    requires g <= |counts|
  {
    Sum(counts[..g])
  }

  /** How many samples of group g are selected. */
  function GroupSelected(counts: seq<nat>, output: nat, negated: bool, g: nat): nat
    requires g < |counts|
  {
    Selected(output, negated, Start(counts, g), counts[g])
  }

  /** 'failed' if some group has no selected sample, 'success' if each has exactly one, 'partial' otherwise. */
  function SelectorClassOf(counts: seq<nat>, output: nat, negated: bool): SelectorClass
  {
    if exists g :: 0 <= g < |counts| && GroupSelected(counts, output, negated, g) == 0 then FailedSelector
    else if forall g :: 0 <= g < |counts| ==> GroupSelected(counts, output, negated, g) == 1 then SuccessSelector
    else PartialSelector
  }

  /** The inner loop of `classify`: counts the selected samples among n samples from `start`. */
  method CountSelected(output: nat, negated: bool, start: nat, n: nat) returns (count: nat)
    ensures count == Selected(output, negated, start, n)
  {
    count := 0;
    for i := 0 to n
      invariant count == Selected(output, negated, start, i)
    {
      if Chosen(output, negated, start + i) {
        count := count + 1;
      }
    }
  }

  /** `classify` of `enum_boolean_selectors` on `output`, or on `~output` when `negated`. */
  method ClassifySelector(counts: seq<nat>, output: nat, negated: bool) returns (r: SelectorClass)
    ensures r == SelectorClassOf(counts, output, negated)
  {
    var index: nat := 0;
    var partial := false;
    for g := 0 to |counts|
      invariant index == Start(counts, g)
      invariant forall h :: 0 <= h < g ==> GroupSelected(counts, output, negated, h) > 0
      invariant partial <==> exists h :: 0 <= h < g && GroupSelected(counts, output, negated, h) > 1
    {
      var count := CountSelected(output, negated, index, counts[g]);
      assert count == GroupSelected(counts, output, negated, g);
      assert counts[..g + 1][..g] == counts[..g];
      index := index + counts[g];
      if count == 0 {
        return FailedSelector;
      } else if count > 1 {
        partial := true;
      }
    }
    r := if partial then PartialSelector else SuccessSelector;
  }

  // ------------------------------------- groups are the examples' samples

  /** How many of the first n samples belong to example g and are selected. */
  function ChosenIn(firsts: seq<nat>, g: nat, output: nat, negated: bool, n: nat): nat
    requires n <= |firsts|
  {
    if n == 0 then 0
    else ChosenIn(firsts, g, output, negated, n - 1) + (if firsts[n - 1] == g && Chosen(output, negated, n - 1) then 1 else 0)
  }

  /** How many samples belong to an example before g. */
  function Below(s: seq<nat>, g: nat): nat
  {
    if |s| == 0 then 0 else Below(s[..|s| - 1], g) + (if s[|s| - 1] < g then 1 else 0)
  }

  /** The occurrences of the examples before g, added up. */
  function SumOccurrences(s: seq<nat>, g: nat): nat
  {
    if g == 0 then 0 else SumOccurrences(s, g - 1) + Occurrences(s, g - 1)
  }

  lemma {:induction false} SumOccurrencesSnoc(t: seq<nat>, x: nat, g: nat)
    ensures SumOccurrences(t + [x], g) == SumOccurrences(t, g) + (if x < g then 1 else 0)
  {
    if g > 0 {
      SumOccurrencesSnoc(t, x, g - 1);
      assert (t + [x])[..|t|] == t;
    }
  }

  lemma {:induction false} SumOccurrencesIsBelow(s: seq<nat>, g: nat)
    ensures SumOccurrences(s, g) == Below(s, g)
  {
    if |s| == 0 {
      SumOccurrencesEmpty(s, g);
    } else {
      var t := s[..|s| - 1];
      assert s == t + [s[|s| - 1]];
      SumOccurrencesSnoc(t, s[|s| - 1], g);
      SumOccurrencesIsBelow(t, g);
    }
  }

  lemma {:induction false} SumOccurrencesEmpty(s: seq<nat>, g: nat)
    requires |s| == 0
    ensures SumOccurrences(s, g) == 0
  {
    if g > 0 {
      SumOccurrencesEmpty(s, g - 1);
    }
  }

  /** The group sizes before g add up to the number of samples of earlier examples. */
  lemma {:induction false} StartIsBelow(s: seq<nat>, g: nat)
    requires g <= |GroupCountsOf(s)|
    ensures Start(GroupCountsOf(s), g) == Below(s, g)
  {
    StartIsSumOccurrences(s, g);
    SumOccurrencesIsBelow(s, g);
  }

  lemma {:induction false} StartIsSumOccurrences(s: seq<nat>, g: nat)
    requires g <= |GroupCountsOf(s)|
    ensures Start(GroupCountsOf(s), g) == SumOccurrences(s, g)
  {
    var counts := GroupCountsOf(s);
    if g > 0 {
      StartIsSumOccurrences(s, g - 1);
      assert counts[..g][..g - 1] == counts[..g - 1];
    }
  }

  /** In a sorted list, the entries below g are exactly the first `Below(s, g)` ones. */
  lemma {:induction false} SortedBelow(s: seq<nat>, g: nat, k: nat)
    requires Sorted(s) && k < |s|
    ensures s[k] < g <==> k < Below(s, g)
  {
    var t := s[..|s| - 1];
    var x := s[|s| - 1];
    BelowBound(t, g);
    if x < g {
      AllBelow(t, g, x);
    }
    if k < |t| {
      SortedBelow(t, g, k);
    }
  }

  lemma {:induction false} BelowBound(s: seq<nat>, g: nat)
    ensures Below(s, g) <= |s|
  {
    if |s| > 0 {
      BelowBound(s[..|s| - 1], g);
    }
  }

  /** When every entry is at most x < g, every entry is below g. */
  lemma {:induction false} AllBelow(s: seq<nat>, g: nat, x: nat)
    requires x < g
    requires forall i :: 0 <= i < |s| ==> s[i] <= x
    ensures Below(s, g) == |s|
  {
    if |s| > 0 {
      AllBelow(s[..|s| - 1], g, x);
    }
  }

  /** The selected samples of example g among the first n are those of the clamped range of its group. */
  lemma {:induction false} ChosenInRange(s: seq<nat>, g: nat, output: nat, negated: bool, n: nat)
    requires Sorted(s) && n <= |s|
    requires Below(s, g) <= Below(s, g + 1)
    ensures var a, b := Below(s, g), Below(s, g + 1);
            var c := if n < a then a else if n > b then b else n;
            ChosenIn(s, g, output, negated, n) == Selected(output, negated, a, c - a)
  {
    if n > 0 {
      ChosenInRange(s, g, output, negated, n - 1);
      SortedBelow(s, g, n - 1);
      SortedBelow(s, g + 1, n - 1);
    }
  }

  /** Group g of the counts holds exactly the samples of example g. */
  lemma GroupSelectedIsExample(s: seq<nat>, g: nat, output: nat, negated: bool)
    requires Sorted(s) && g < |GroupCountsOf(s)|
    ensures GroupSelected(GroupCountsOf(s), output, negated, g) == ChosenIn(s, g, output, negated, |s|)
  {
    StartIsBelow(s, g);
    StartIsBelow(s, g + 1);
    var counts := GroupCountsOf(s);
    assert counts[..g + 1][..g] == counts[..g];
    assert Start(counts, g + 1) == Start(counts, g) + counts[g];
    BelowBound(s, g + 1);
    ChosenInRange(s, g, output, negated, |s|);
  }

  /**
   * A selector succeeds exactly when it selects one sample of every example
   * up to the last, and fails exactly when some example has none selected.
   */
  lemma SelectorClassByExample(s: seq<nat>, output: nat, negated: bool)
    requires Sorted(s)
    ensures SelectorClassOf(GroupCountsOf(s), output, negated) == FailedSelector
            <==> exists g: nat :: g < |GroupCountsOf(s)| && ChosenIn(s, g, output, negated, |s|) == 0
    ensures SelectorClassOf(GroupCountsOf(s), output, negated) == SuccessSelector
            <==> forall g: nat :: g < |GroupCountsOf(s)| ==> ChosenIn(s, g, output, negated, |s|) == 1
  {
    var counts := GroupCountsOf(s);
    if exists g: nat :: g < |counts| && ChosenIn(s, g, output, negated, |s|) == 0 {
      var g: nat :| g < |counts| && ChosenIn(s, g, output, negated, |s|) == 0;
      GroupSelectedIsExample(s, g, output, negated);
    }
    if exists g :: 0 <= g < |counts| && GroupSelected(counts, output, negated, g) == 0 {
      var g :| 0 <= g < |counts| && GroupSelected(counts, output, negated, g) == 0;
      GroupSelectedIsExample(s, g, output, negated);
    }
    if forall g: nat :: g < |counts| ==> ChosenIn(s, g, output, negated, |s|) == 1 {
      forall g | 0 <= g < |counts|
        ensures GroupSelected(counts, output, negated, g) == 1
      {
        GroupSelectedIsExample(s, g, output, negated);
      }
    }
    if forall g :: 0 <= g < |counts| ==> GroupSelected(counts, output, negated, g) == 1 {
      forall g: nat | g < |counts|
        ensures ChosenIn(s, g, output, negated, |s|) == 1
      {
        GroupSelectedIsExample(s, g, output, negated);
      }
    } else {
      var g :| 0 <= g < |counts| && GroupSelected(counts, output, negated, g) != 1;
      GroupSelectedIsExample(s, g, output, negated);
    }
  }

  // ------------------------------------------------- mapping acceptance

  /** Equal inputs come with equal outputs. */
  predicate Functional(inputs: seq<int>, outputs: seq<int>)
    requires |inputs| == |outputs|
  {
    forall i, j :: 0 <= i < |inputs| && 0 <= j < |inputs| && inputs[i] == inputs[j] ==> outputs[i] == outputs[j]
  }

  /**
   * The loop of `enum_mapping_functions` over one input dual: builds the
   * table from input value to output value, and gives up at the first
   * input value that comes with a second output value.
   */
  method MappingTable(inputs: seq<int>, outputs: seq<int>) returns (ok: bool, mapping: map<int, int>)
    requires |inputs| == |outputs|
    ensures ok <==> Functional(inputs, outputs)
    ensures ok ==> mapping.Keys == set i | 0 <= i < |inputs| :: inputs[i]
    ensures ok ==> forall i :: 0 <= i < |inputs| ==> mapping[inputs[i]] == outputs[i]
  {
    mapping := map[];
    ok := true;
    var k := 0;
    while k < |inputs|
      invariant 0 <= k <= |inputs|
      invariant mapping.Keys == set i | 0 <= i < k :: inputs[i]
      invariant forall i :: 0 <= i < k ==> mapping[inputs[i]] == outputs[i]
    {
      if inputs[k] in mapping {
        if mapping[inputs[k]] != outputs[k] {
          var i :| 0 <= i < k && inputs[i] == inputs[k];
          assert !Functional(inputs, outputs) by {
            assert outputs[i] != outputs[k];
          }
          return false, mapping;
        }
      } else {
        mapping := mapping[inputs[k] := outputs[k]];
      }
      k := k + 1;
    }
  }

  /**
   * The acceptance test: a functional table with fewer entries than 0.7
   * times the number of samples (`10 * size < 7 * count` is the same test
   * on whole numbers).
   */
  predicate MappingAccepted(ok: bool, mapping: map<int, int>, samplesCount: nat)
  {
    ok && 10 * |mapping| < 7 * samplesCount
  }
}
