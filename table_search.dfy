/**
 * The search for input columns in `TableAnalysis.enum_functions` of
 * lib/TableAnalyser.ts. For one output column, each example has a value
 * the learned function must produce. A potential input is a column together
 * with one value of it; a set of potential inputs selects, in each example,
 * the rows where every chosen column holds its chosen value.
 * `test_potential_inputs` tells whether those rows always carry the wanted
 * output ('complete'), sometimes carry other outputs as well ('incomplete'),
 * or miss it in some example ('invalid'). The search tries single inputs
 * first, then grows the incomplete ones into larger sets, keeping only sets
 * whose every one-smaller subset was incomplete.
 */
module TableSearch {
  import opened Wrappers
  import GridText
  import opened TableColumns

  type Samples = seq<seq<Cell>>

  /** The data `test_potential_inputs` reads: wanted values, output column, potential inputs. */
  datatype Env = Env(values: seq<int>, output: Samples, inputValues: seq<Cell>, inputColumns: seq<Samples>)

  /** One output and one input column per potential input, each with an entry per example. */
  predicate WellFormed(env: Env)
  {
    && |env.output| >= |env.values|
    && |env.inputColumns| == |env.inputValues|
    && forall i :: 0 <= i < |env.inputColumns| ==> |env.inputColumns[i]| >= |env.values|
  }

  /** The list names potential inputs only. */
  predicate Inputs(env: Env, indices: seq<nat>)
  {
    forall k :: 0 <= k < |indices| ==> indices[k] < |env.inputValues|
  }

  datatype Verdict = Invalid | Complete | Incomplete

  // ------------------------------------------------------- test_potential_inputs

  /** Row r of example s holds the chosen value in every chosen column (a missing entry never does). */
  predicate RowMatches(env: Env, indices: seq<nat>, s: nat, r: nat)
    requires WellFormed(env) && Inputs(env, indices) && s < |env.values|
  {
    forall k :: 0 <= k < |indices| ==>
      r < |env.inputColumns[indices[k]][s]| && env.inputColumns[indices[k]][s][r] == env.inputValues[indices[k]]
  }

  /** The numbers the output column holds on the selected rows of example s. */
  function Outputs(env: Env, indices: seq<nat>, s: nat): set<int>
    requires WellFormed(env) && Inputs(env, indices) && s < |env.values|
  {
    set r | 0 <= r < |env.output[s]| && RowMatches(env, indices, s, r) && env.output[s][r].Some? :: env.output[s][r].value
  }

  /** The verdict on a list of potential inputs. */
  function VerdictOf(env: Env, indices: seq<nat>): Verdict
    requires WellFormed(env) && Inputs(env, indices)
  {
    if exists s :: 0 <= s < |env.values| && env.values[s] !in Outputs(env, indices, s) then Invalid
    else if exists s :: 0 <= s < |env.values| && |Outputs(env, indices, s)| > 1 then Incomplete
    else Complete
  }

  /**
   * A complete list of inputs determines the output: in every example the
   * selected rows hold the wanted value and no other number.
   */
  lemma CompleteDetermines(env: Env, indices: seq<nat>, s: nat)
    requires WellFormed(env) && Inputs(env, indices) && s < |env.values|
    requires VerdictOf(env, indices) == Complete
    ensures Outputs(env, indices, s) == {env.values[s]}
  {
    var o := Outputs(env, indices, s);
    assert env.values[s] in o && |o| <= 1;
    OnlyElement(o, env.values[s]);
  }

  lemma OnlyElement(o: set<int>, v: int)
    requires v in o && |o| <= 1
    ensures o == {v}
  {
    assert |o - {v}| == |o| - 1 == 0;
    assert o - {v} == {};
  }

  /** The inner test: does row r match every chosen input (no early exit, as in the source). */
  method RowMatch(env: Env, indices: seq<nat>, s: nat, r: nat) returns (matched: bool)
    requires WellFormed(env) && Inputs(env, indices) && s < |env.values|
    ensures matched <==> RowMatches(env, indices, s, r)
  {
    matched := true;
    for k := 0 to |indices|
      invariant matched <==> forall k' :: 0 <= k' < k ==>
        r < |env.inputColumns[indices[k']][s]| && env.inputColumns[indices[k']][s][r] == env.inputValues[indices[k']]
    {
      var column := env.inputColumns[indices[k]][s];
      if r >= |column| || column[r] != env.inputValues[indices[k]] {
        matched := false;
      }
    }
  }

  /** The set `output_values` of example s. */
  method CollectOutputs(env: Env, indices: seq<nat>, s: nat) returns (outputs: set<int>)
    requires WellFormed(env) && Inputs(env, indices) && s < |env.values|
    ensures outputs == Outputs(env, indices, s)
  {
    outputs := {};
    var column := env.output[s];
    for r := 0 to |column|
      invariant outputs == set r' | 0 <= r' < r && RowMatches(env, indices, s, r') && column[r'].Some? :: column[r'].value
    {
      var matched := RowMatch(env, indices, s, r);
      if matched && column[r].Some? {
        outputs := outputs + {column[r].value};
      }
    }
  }

  /** `test_potential_inputs`: the first example missing its value makes the list invalid. */
  method TestPotentialInputs(env: Env, indices: seq<nat>) returns (v: Verdict)
    requires WellFormed(env) && Inputs(env, indices)
    ensures v == VerdictOf(env, indices)
  {
    var incomplete := false;
    for s := 0 to |env.values|
      invariant forall s' :: 0 <= s' < s ==> env.values[s'] in Outputs(env, indices, s')
      invariant incomplete <==> exists s' :: 0 <= s' < s && |Outputs(env, indices, s')| > 1
    {
      var outputs := CollectOutputs(env, indices, s);
      if env.values[s] !in outputs {
        return Invalid;
      }
      if |outputs| > 1 {
        incomplete := true;
      }
    }
    v := if incomplete then Incomplete else Complete;
  }

  // ----------------------------------------------------------------- index keys

  /** `key_of_array`: the indices in decimal, joined with commas. */
  function KeyOf(indices: seq<nat>): string
  {
    GridText.Join(seq(|indices|, k requires 0 <= k < |indices| => GridText.Decimal(indices[k])))
  }

  /** Different lists have different keys, so the set of keys is a set of lists. */
  lemma KeyOfInjective(a: seq<nat>, b: seq<nat>)
    ensures KeyOf(a) == KeyOf(b) <==> a == b
  {
    if KeyOf(a) == KeyOf(b) {
      var da := seq(|a|, k requires 0 <= k < |a| => GridText.Decimal(a[k]));
      var db := seq(|b|, k requires 0 <= k < |b| => GridText.Decimal(b[k]));
      GridText.JoinInjective(da, db);
      forall k | 0 <= k < |a|
        ensures a[k] == b[k]
      {
        assert da[k] == db[k];
        GridText.DecimalRoundTrip(a[k]);
        GridText.DecimalRoundTrip(b[k]);
      }
    }
  }

  /** `[...s.slice(0, i), ...s.slice(i + 1)]`. */
  function Without(s: seq<nat>, i: nat): seq<nat>
    requires i < |s|
  {
    s[..i] + s[i + 1..]
  }

  /** Every list one shorter than the candidate was found incomplete. */
  predicate SubsetsSeen(candidate: seq<nat>, keys: set<string>)
  {
    forall i :: 0 <= i < |candidate| ==> KeyOf(Without(candidate, i)) in keys
  }

  method CheckSubsets(candidate: seq<nat>, keys: set<string>) returns (ok: bool)
    ensures ok <==> SubsetsSeen(candidate, keys)
  {
    ok := true;
    var i := 0;
    while ok && i < |candidate|
      invariant 0 <= i <= |candidate|
      invariant ok <==> forall i' :: 0 <= i' < i ==> KeyOf(Without(candidate, i')) in keys
    {
      if KeyOf(Without(candidate, i)) !in keys {
        ok := false;
      }
      i := i + 1;
    }
  }

  // ----------------------------------------------------------------- the search

  predicate Increasing(s: seq<nat>)
  {
    forall i, j :: 0 <= i < j < |s| ==> s[i] < s[j]
  }

  /** A strictly increasing list of k potential inputs, each below bound. */
  predicate Chain(s: seq<nat>, k: nat, bound: nat)
  {
    |s| == k && Increasing(s) && forall i :: 0 <= i < |s| ==> s[i] < bound
  }

  predicate Chains(lists: seq<seq<nat>>, k: nat, bound: nat)
  {
    forall m :: 0 <= m < |lists| ==> Chain(lists[m], k, bound)
  }

  lemma {:induction false} ChainAbove(s: seq<nat>, i: nat)
    requires Increasing(s) && i < |s|
    ensures s[i] >= i
  {
    if i > 0 {
      ChainAbove(s, i - 1);
    }
  }

  /** Lists grow by one input per round, and no list is longer than the number of inputs. */
  lemma ChainLength(s: seq<nat>, k: nat, bound: nat)
    requires Chain(s, k, bound)
    ensures k <= bound
  {
    if k > 0 {
      ChainAbove(s, k - 1);
    }
  }

  /** The local variables of the search: the recorded keys, the next round, the yields, `max_count`. */
  datatype SearchState = SearchState(keys: set<string>, next: seq<seq<nat>>, yielded: seq<seq<nat>>, maxCount: int)

  /** The search goes on, or has thrown 'Table analysis failed!' after yielding some lists. */
  datatype Outcome = Running(st: SearchState) | Thrown(yielded: seq<seq<nat>>, maxCount: int)

  function Yielded(r: Outcome): seq<seq<nat>>
  {
    if r.Running? then r.st.yielded else r.yielded
  }

  function MaxCount(r: Outcome): int
  {
    if r.Running? then r.st.maxCount else r.maxCount
  }

  /**
   * The guard in front of each candidate that passed the subset check: as
   * written `max_count-- > 500` throws while the count is above 500, which it
   * is from the start; corrected, the search gives up once the count is down
   * to 500, after 9500 candidates.
   */
  predicate GuardThrows(corrected: bool, maxCount: int)
  {
    if corrected then maxCount <= 500 else maxCount > 500
  }

  /** Every list yielded names potential inputs and is complete. */
  predicate Sound(env: Env, lists: seq<seq<nat>>)
    requires WellFormed(env)
  {
    forall m :: 0 <= m < |lists| ==> Inputs(env, lists[m]) && VerdictOf(env, lists[m]) == Complete
  }

  /** One candidate list. */
  function Try(env: Env, corrected: bool, st: SearchState, candidate: seq<nat>): (r: Outcome)
    requires WellFormed(env) && Chain(candidate, |candidate|, |env.inputValues|)
    requires Chains(st.next, |candidate|, |env.inputValues|)
    ensures r.Running? ==> Chains(r.st.next, |candidate|, |env.inputValues|)
  {
    if !SubsetsSeen(candidate, st.keys) then Running(st)
    else if GuardThrows(corrected, st.maxCount) then Thrown(st.yielded, st.maxCount)
    else
      var st1 := st.(maxCount := st.maxCount - 1);
      match VerdictOf(env, candidate)
      case Complete => Running(st1.(yielded := st1.yielded + [candidate]))
      case Incomplete => Running(st1.(keys := st1.keys + {KeyOf(candidate)}, next := st1.next + [candidate]))
      case Invalid => Running(st1)
  }

  /** The candidates that extend `base` by a later incomplete input, from position p of that list. */
  function Grow(env: Env, corrected: bool, incomplete: seq<nat>, st: SearchState, base: seq<nat>, p: nat): (r: Outcome)
    requires WellFormed(env) && Inputs(env, incomplete)
    requires |base| > 0 && Chain(base, |base|, |env.inputValues|)
    requires Chains(st.next, |base| + 1, |env.inputValues|)
    ensures r.Running? ==> Chains(r.st.next, |base| + 1, |env.inputValues|)
    decreases |incomplete| - p
  {
    if p >= |incomplete| then Running(st)
    else
      var o := if incomplete[p] > base[|base| - 1] then Try(env, corrected, st, base + [incomplete[p]]) else Running(st);
      if o.Thrown? then o else Grow(env, corrected, incomplete, o.st, base, p + 1)
  }

  /** One round over the current lists, from position m. */
  function Sweep(env: Env, corrected: bool, incomplete: seq<nat>, st: SearchState, current: seq<seq<nat>>, k: nat, m: nat): (r: Outcome)
    requires WellFormed(env) && Inputs(env, incomplete)
    requires k > 0 && Chains(current, k, |env.inputValues|) && Chains(st.next, k + 1, |env.inputValues|)
    ensures r.Running? ==> Chains(r.st.next, k + 1, |env.inputValues|)
    decreases |current| - m
  {
    if m >= |current| then Running(st)
    else
      var o := Grow(env, corrected, incomplete, st, current[m], 0);
      if o.Thrown? then o else Sweep(env, corrected, incomplete, o.st, current, k, m + 1)
  }

  /** Rounds until no list of length k is incomplete; each round's lists are one longer. */
  function Search(env: Env, corrected: bool, incomplete: seq<nat>, st: SearchState, current: seq<seq<nat>>, k: nat): (r: Outcome)
    requires WellFormed(env) && Inputs(env, incomplete)
    requires k > 0 && Chains(current, k, |env.inputValues|)
    decreases |env.inputValues| + 1 - k
  {
    if |current| == 0 then Running(st)
    else
      ChainLength(current[0], k, |env.inputValues|);
      var o := Sweep(env, corrected, incomplete, st.(next := []), current, k, 0);
      if o.Thrown? then o else Search(env, corrected, incomplete, o.st, o.st.next, k + 1)
  }

  /** What the loop over single inputs leaves behind. */
  datatype Singles = Singles(yielded: seq<seq<nat>>, incomplete: seq<nat>, keys: set<string>)

  /** The verdict on each potential input alone. */
  function SingleVerdicts(env: Env): seq<Verdict>
    requires WellFormed(env)
  {
    seq(|env.inputValues|, i requires 0 <= i < |env.inputValues| => VerdictOf(env, [i]))
  }

  /** The loop over the first n single inputs, given their verdicts. */
  function SinglesFrom(verdicts: seq<Verdict>, n: nat): (r: Singles)
    requires n <= |verdicts|
    ensures forall i :: 0 <= i < |r.incomplete| ==> r.incomplete[i] < n
  {
    if n == 0 then Singles([], [], {})
    else
      var r := SinglesFrom(verdicts, n - 1);
      match verdicts[n - 1]
      case Complete => r.(yielded := r.yielded + [[n - 1]])
      case Incomplete => r.(incomplete := r.incomplete + [n - 1], keys := r.keys + {KeyOf([n - 1])})
      case Invalid => r
  }

  /** `[[i] for i in incomplete]`: the first round's lists. */
  function Units(incomplete: seq<nat>): (r: seq<seq<nat>>)
    ensures |r| == |incomplete|
  {
    seq(|incomplete|, i requires 0 <= i < |incomplete| => [incomplete[i]])
  }

  /** The lists of potential inputs for which a function is built, in order, and how the search ends. */
  function Enumerate(env: Env, corrected: bool): (r: Outcome)
    requires WellFormed(env)
  {
    var s := SinglesFrom(SingleVerdicts(env), |env.inputValues|);
    Search(env, corrected, s.incomplete, SearchState(s.keys, [], s.yielded, 10000), Units(s.incomplete), 1)
  }

  // -------------------------------------------------------- what gets yielded

  lemma TrySound(env: Env, corrected: bool, st: SearchState, candidate: seq<nat>)
    requires WellFormed(env) && Chain(candidate, |candidate|, |env.inputValues|)
    requires Chains(st.next, |candidate|, |env.inputValues|)
    ensures var r := Try(env, corrected, st, candidate);
      st.yielded <= Yielded(r) && (Sound(env, st.yielded) ==> Sound(env, Yielded(r)))
  {
  }

  lemma {:induction false} GrowSound(env: Env, corrected: bool, incomplete: seq<nat>, st: SearchState, base: seq<nat>, p: nat)
    requires WellFormed(env) && Inputs(env, incomplete)
    requires |base| > 0 && Chain(base, |base|, |env.inputValues|)
    requires Chains(st.next, |base| + 1, |env.inputValues|)
    ensures var r := Grow(env, corrected, incomplete, st, base, p);
      st.yielded <= Yielded(r) && (Sound(env, st.yielded) ==> Sound(env, Yielded(r)))
    decreases |incomplete| - p
  {
    if p < |incomplete| {
      var o := if incomplete[p] > base[|base| - 1] then Try(env, corrected, st, base + [incomplete[p]]) else Running(st);
      if incomplete[p] > base[|base| - 1] {
        TrySound(env, corrected, st, base + [incomplete[p]]);
      }
      if o.Running? {
        GrowSound(env, corrected, incomplete, o.st, base, p + 1);
      }
    }
  }

  lemma {:induction false} SweepSound(env: Env, corrected: bool, incomplete: seq<nat>, st: SearchState, current: seq<seq<nat>>, k: nat, m: nat)
    requires WellFormed(env) && Inputs(env, incomplete)
    requires k > 0 && Chains(current, k, |env.inputValues|) && Chains(st.next, k + 1, |env.inputValues|)
    ensures var r := Sweep(env, corrected, incomplete, st, current, k, m);
      st.yielded <= Yielded(r) && (Sound(env, st.yielded) ==> Sound(env, Yielded(r)))
    decreases |current| - m
  {
    if m < |current| {
      var o := Grow(env, corrected, incomplete, st, current[m], 0);
      GrowSound(env, corrected, incomplete, st, current[m], 0);
      if o.Running? {
        SweepSound(env, corrected, incomplete, o.st, current, k, m + 1);
      }
    }
  }

  lemma {:induction false} SearchSound(env: Env, corrected: bool, incomplete: seq<nat>, st: SearchState, current: seq<seq<nat>>, k: nat)
    requires WellFormed(env) && Inputs(env, incomplete)
    requires k > 0 && Chains(current, k, |env.inputValues|)
    ensures var r := Search(env, corrected, incomplete, st, current, k);
      st.yielded <= Yielded(r) && (Sound(env, st.yielded) ==> Sound(env, Yielded(r)))
    decreases |env.inputValues| + 1 - k
  {
    if |current| > 0 {
      ChainLength(current[0], k, |env.inputValues|);
      var o := Sweep(env, corrected, incomplete, st.(next := []), current, k, 0);
      SweepSound(env, corrected, incomplete, st.(next := []), current, k, 0);
      if o.Running? {
        SearchSound(env, corrected, incomplete, o.st, o.st.next, k + 1);
      }
    }
  }

  /** The singles loop yields input i exactly when it is complete on its own. */
  lemma {:induction false} SinglesYields(verdicts: seq<Verdict>, n: nat)
    requires n <= |verdicts|
    ensures var r := SinglesFrom(verdicts, n);
      && (forall m :: 0 <= m < |r.yielded| ==> |r.yielded[m]| == 1 && r.yielded[m][0] < n && verdicts[r.yielded[m][0]] == Complete)
      && forall i :: 0 <= i < n ==> ([i] in r.yielded <==> verdicts[i] == Complete)
  {
    if n > 0 {
      SinglesYields(verdicts, n - 1);
    }
  }

  /** The singles loop keeps input i, and records its key, exactly when it is incomplete; in increasing order. */
  lemma {:induction false} SinglesIncomplete(verdicts: seq<Verdict>, n: nat)
    requires n <= |verdicts|
    ensures var r := SinglesFrom(verdicts, n);
      && (forall i :: 0 <= i < n ==> (i in r.incomplete <==> verdicts[i] == Incomplete))
      && Increasing(r.incomplete)
      && forall i :: 0 <= i < |r.incomplete| ==> KeyOf([r.incomplete[i]]) in r.keys
  {
    SinglesMembers(verdicts, n);
    SinglesIncreasing(verdicts, n);
    SinglesKeys(verdicts, n);
  }

  /** The incomplete singles are exactly the inputs whose verdict is incomplete. */
  lemma {:induction false} SinglesMembers(verdicts: seq<Verdict>, n: nat)
    requires n <= |verdicts|
    ensures var r := SinglesFrom(verdicts, n);
      forall i :: 0 <= i < n ==> (i in r.incomplete <==> verdicts[i] == Incomplete)
  {
    if n > 0 {
      SinglesMembers(verdicts, n - 1);
    }
  }

  /** The incomplete singles are listed in increasing order. */
  lemma {:induction false} SinglesIncreasing(verdicts: seq<Verdict>, n: nat)
    requires n <= |verdicts|
    ensures Increasing(SinglesFrom(verdicts, n).incomplete)
  {
    if n > 0 {
      SinglesIncreasing(verdicts, n - 1);
    }
  }

  /** The key of every incomplete single has been seen. */
  lemma {:induction false} SinglesKeys(verdicts: seq<Verdict>, n: nat)
    requires n <= |verdicts|
    ensures KeysSeen(SinglesFrom(verdicts, n))
  {
    if n > 0 {
      SinglesKeys(verdicts, n - 1);
      var r0, r := SinglesFrom(verdicts, n - 1), SinglesFrom(verdicts, n);
      forall i | 0 <= i < |r.incomplete|
        ensures KeyOf([r.incomplete[i]]) in r.keys
      {
        if i < |r0.incomplete| {
          assert r.incomplete[i] == r0.incomplete[i];
          assert KeyOf([r0.incomplete[i]]) in r0.keys;
        }
      }
    }
  }

  /** The key of each incomplete single is among the keys seen. */
  predicate KeysSeen(r: Singles)
  {
    forall i :: 0 <= i < |r.incomplete| ==> KeyOf([r.incomplete[i]]) in r.keys
  }

  lemma UnitsChains(incomplete: seq<nat>, bound: nat)
    requires forall i :: 0 <= i < |incomplete| ==> incomplete[i] < bound
    ensures Chains(Units(incomplete), 1, bound)
  {
  }

  /**
   * Every list for which a function is built is complete, and the single
   * inputs come first, in order.
   */
  lemma EnumerateSound(env: Env, corrected: bool)
    requires WellFormed(env)
    ensures Sound(env, Yielded(Enumerate(env, corrected)))
    ensures SinglesFrom(SingleVerdicts(env), |env.inputValues|).yielded <= Yielded(Enumerate(env, corrected))
  {
    var s := SinglesFrom(SingleVerdicts(env), |env.inputValues|);
    SinglesYields(SingleVerdicts(env), |env.inputValues|);
    forall m | 0 <= m < |s.yielded|
      ensures Inputs(env, s.yielded[m]) && VerdictOf(env, s.yielded[m]) == Complete
    {
      assert s.yielded[m] == [s.yielded[m][0]];
    }
    SearchSound(env, corrected, s.incomplete, SearchState(s.keys, [], s.yielded, 10000), Units(s.incomplete), 1);
  }

  // ------------------------------------------------- the guard as written

  lemma TryAsWritten(env: Env, st: SearchState, candidate: seq<nat>)
    requires WellFormed(env) && Chain(candidate, |candidate|, |env.inputValues|)
    requires Chains(st.next, |candidate|, |env.inputValues|) && st.maxCount > 500
    ensures var r := Try(env, false, st, candidate);
      && (r.Running? ==> r.st == st)
      && (r.Thrown? ==> r.yielded == st.yielded && r.maxCount == st.maxCount)
  {
  }

  lemma {:induction false} GrowAsWritten(env: Env, incomplete: seq<nat>, st: SearchState, base: seq<nat>, p: nat)
    requires WellFormed(env) && Inputs(env, incomplete)
    requires |base| > 0 && Chain(base, |base|, |env.inputValues|)
    requires Chains(st.next, |base| + 1, |env.inputValues|) && st.maxCount > 500
    ensures var r := Grow(env, false, incomplete, st, base, p);
      && (r.Running? ==> r.st == st)
      && (r.Thrown? ==> r.yielded == st.yielded && r.maxCount == st.maxCount)
    decreases |incomplete| - p
  {
    if p < |incomplete| {
      if incomplete[p] > base[|base| - 1] {
        TryAsWritten(env, st, base + [incomplete[p]]);
      }
      GrowAsWritten(env, incomplete, st, base, p + 1);
    }
  }

  lemma {:induction false} SweepAsWritten(env: Env, incomplete: seq<nat>, st: SearchState, current: seq<seq<nat>>, k: nat, m: nat)
    requires WellFormed(env) && Inputs(env, incomplete)
    requires k > 0 && Chains(current, k, |env.inputValues|) && Chains(st.next, k + 1, |env.inputValues|)
    requires st.maxCount > 500
    ensures var r := Sweep(env, false, incomplete, st, current, k, m);
      && (r.Running? ==> r.st == st)
      && (r.Thrown? ==> r.yielded == st.yielded && r.maxCount == st.maxCount)
    decreases |current| - m
  {
    if m < |current| {
      GrowAsWritten(env, incomplete, st, current[m], 0);
      SweepAsWritten(env, incomplete, st, current, k, m + 1);
    }
  }

  lemma {:induction false} SearchAsWritten(env: Env, incomplete: seq<nat>, st: SearchState, current: seq<seq<nat>>, k: nat)
    requires WellFormed(env) && Inputs(env, incomplete)
    requires k > 0 && Chains(current, k, |env.inputValues|) && st.maxCount > 500
    ensures var r := Search(env, false, incomplete, st, current, k);
      Yielded(r) == st.yielded && MaxCount(r) == st.maxCount
    decreases |env.inputValues| + 1 - k
  {
    if |current| > 0 {
      ChainLength(current[0], k, |env.inputValues|);
      var o := Sweep(env, false, incomplete, st.(next := []), current, k, 0);
      SweepAsWritten(env, incomplete, st.(next := []), current, k, 0);
      if o.Running? {
        SearchAsWritten(env, incomplete, o.st, o.st.next, k + 1);
      }
    }
  }

  /**
   * As written, the combination phase never builds a function: every
   * candidate that passes the subset check meets the guard with the count
   * at 10000, so the search either ends with the single inputs' functions
   * or throws.
   */
  lemma AsWrittenYieldsSinglesOnly(env: Env)
    requires WellFormed(env)
    ensures Yielded(Enumerate(env, false)) == SinglesFrom(SingleVerdicts(env), |env.inputValues|).yielded
    ensures MaxCount(Enumerate(env, false)) == 10000
  {
    var s := SinglesFrom(SingleVerdicts(env), |env.inputValues|);
    UnitsChains(s.incomplete, |env.inputValues|);
    SearchAsWritten(env, s.incomplete, SearchState(s.keys, [], s.yielded, 10000), Units(s.incomplete), 1);
  }

  /**
   * As written, two potential inputs that are each incomplete alone make the
   * analysis throw 'Table analysis failed!' at the first pair it tries.
   */
  lemma AsWrittenThrows(env: Env)
    requires WellFormed(env)
    requires |SinglesFrom(SingleVerdicts(env), |env.inputValues|).incomplete| >= 2
    ensures Enumerate(env, false).Thrown?
  {
    var s := SinglesFrom(SingleVerdicts(env), |env.inputValues|);
    SinglesIncomplete(SingleVerdicts(env), |env.inputValues|);
    var incomplete := s.incomplete;
    var st := SearchState(s.keys, [], s.yielded, 10000);
    var current := Units(incomplete);
    UnitsChains(incomplete, |env.inputValues|);
    var base := [incomplete[0]];
    assert current[0] == base;
    var candidate := base + [incomplete[1]];
    assert Without(candidate, 0) == [incomplete[1]];
    assert Without(candidate, 1) == [incomplete[0]];
    assert SubsetsSeen(candidate, s.keys);
    assert Grow(env, false, incomplete, st, base, 1).Thrown?;
    assert Grow(env, false, incomplete, st, base, 0).Thrown?;
    assert Sweep(env, false, incomplete, st, current, 1, 0).Thrown?;
  }

  // ------------------------------------------------- the guard corrected

  lemma TryBudget(env: Env, st: SearchState, candidate: seq<nat>)
    requires WellFormed(env) && Chain(candidate, |candidate|, |env.inputValues|)
    requires Chains(st.next, |candidate|, |env.inputValues|) && st.maxCount >= 500
    ensures var r := Try(env, true, st, candidate);
      500 <= MaxCount(r) <= st.maxCount && (r.Thrown? ==> r.maxCount == 500)
  {
  }

  lemma {:induction false} GrowBudget(env: Env, incomplete: seq<nat>, st: SearchState, base: seq<nat>, p: nat)
    requires WellFormed(env) && Inputs(env, incomplete)
    requires |base| > 0 && Chain(base, |base|, |env.inputValues|)
    requires Chains(st.next, |base| + 1, |env.inputValues|) && st.maxCount >= 500
    ensures var r := Grow(env, true, incomplete, st, base, p);
      500 <= MaxCount(r) <= st.maxCount && (r.Thrown? ==> r.maxCount == 500)
    decreases |incomplete| - p
  {
    if p < |incomplete| {
      var o := if incomplete[p] > base[|base| - 1] then Try(env, true, st, base + [incomplete[p]]) else Running(st);
      if incomplete[p] > base[|base| - 1] {
        TryBudget(env, st, base + [incomplete[p]]);
      }
      if o.Running? {
        GrowBudget(env, incomplete, o.st, base, p + 1);
      }
    }
  }

  lemma {:induction false} SweepBudget(env: Env, incomplete: seq<nat>, st: SearchState, current: seq<seq<nat>>, k: nat, m: nat)
    requires WellFormed(env) && Inputs(env, incomplete)
    requires k > 0 && Chains(current, k, |env.inputValues|) && Chains(st.next, k + 1, |env.inputValues|)
    requires st.maxCount >= 500
    ensures var r := Sweep(env, true, incomplete, st, current, k, m);
      500 <= MaxCount(r) <= st.maxCount && (r.Thrown? ==> r.maxCount == 500)
    decreases |current| - m
  {
    if m < |current| {
      var o := Grow(env, true, incomplete, st, current[m], 0);
      GrowBudget(env, incomplete, st, current[m], 0);
      if o.Running? {
        SweepBudget(env, incomplete, o.st, current, k, m + 1);
      }
    }
  }

  lemma {:induction false} SearchBudget(env: Env, incomplete: seq<nat>, st: SearchState, current: seq<seq<nat>>, k: nat)
    requires WellFormed(env) && Inputs(env, incomplete)
    requires k > 0 && Chains(current, k, |env.inputValues|) && st.maxCount >= 500
    ensures var r := Search(env, true, incomplete, st, current, k);
      500 <= MaxCount(r) <= st.maxCount && (r.Thrown? ==> r.maxCount == 500)
    decreases |env.inputValues| + 1 - k
  {
    if |current| > 0 {
      ChainLength(current[0], k, |env.inputValues|);
      var o := Sweep(env, true, incomplete, st.(next := []), current, k, 0);
      SweepBudget(env, incomplete, st.(next := []), current, k, 0);
      if o.Running? {
        SearchBudget(env, incomplete, o.st, o.st.next, k + 1);
      }
    }
  }

  /**
   * With the guard corrected, the search throws only once 9500 candidates
   * have passed the subset check and been classified.
   */
  lemma CorrectedBudget(env: Env)
    requires WellFormed(env)
    ensures 500 <= MaxCount(Enumerate(env, true)) <= 10000
    ensures Enumerate(env, true).Thrown? ==> Enumerate(env, true).maxCount == 500
  {
    var s := SinglesFrom(SingleVerdicts(env), |env.inputValues|);
    UnitsChains(s.incomplete, |env.inputValues|);
    SearchBudget(env, s.incomplete, SearchState(s.keys, [], s.yielded, 10000), Units(s.incomplete), 1);
  }

  // ------------------------------------------------------ the search as a loop

  /** One candidate: the subset check, the corrected guard, the test. */
  method TryCandidate(env: Env, st: SearchState, candidate: seq<nat>) returns (r: Outcome)
    requires WellFormed(env) && Chain(candidate, |candidate|, |env.inputValues|)
    requires Chains(st.next, |candidate|, |env.inputValues|)
    ensures r == Try(env, true, st, candidate)
  {
    var ok := CheckSubsets(candidate, st.keys);
    if !ok {
      return Running(st);
    }
    if st.maxCount <= 500 {
      return Thrown(st.yielded, st.maxCount);
    }
    var st1 := st.(maxCount := st.maxCount - 1);
    var verdict := TestPotentialInputs(env, candidate);
    match verdict
    case Complete => r := Running(st1.(yielded := st1.yielded + [candidate]));
    case Incomplete => r := Running(st1.(keys := st1.keys + {KeyOf(candidate)}, next := st1.next + [candidate]));
    case Invalid => r := Running(st1);
  }

  /** The loop over the incomplete inputs for one list of the current round. */
  method GrowList(env: Env, incomplete: seq<nat>, st: SearchState, base: seq<nat>) returns (r: Outcome)
    requires WellFormed(env) && Inputs(env, incomplete)
    requires |base| > 0 && Chain(base, |base|, |env.inputValues|)
    requires Chains(st.next, |base| + 1, |env.inputValues|)
    ensures r == Grow(env, true, incomplete, st, base, 0)
  {
    var cur := st;
    var last := base[|base| - 1];
    for p := 0 to |incomplete|
      invariant Chains(cur.next, |base| + 1, |env.inputValues|)
      invariant Grow(env, true, incomplete, cur, base, p) == Grow(env, true, incomplete, st, base, 0)
    {
      if incomplete[p] > last {
        var o := TryCandidate(env, cur, base + [incomplete[p]]);
        if o.Thrown? {
          return o;
        }
        cur := o.st;
      }
    }
    r := Running(cur);
  }

  /** One round: every current list, in order. */
  method SweepRound(env: Env, incomplete: seq<nat>, st: SearchState, current: seq<seq<nat>>, ghost k: nat) returns (r: Outcome)
    requires WellFormed(env) && Inputs(env, incomplete)
    requires k > 0 && Chains(current, k, |env.inputValues|) && Chains(st.next, k + 1, |env.inputValues|)
    ensures r == Sweep(env, true, incomplete, st, current, k, 0)
  {
    var cur := st;
    for m := 0 to |current|
      invariant Chains(cur.next, k + 1, |env.inputValues|)
      invariant Sweep(env, true, incomplete, cur, current, k, m) == Sweep(env, true, incomplete, st, current, k, 0)
    {
      var o := GrowList(env, incomplete, cur, current[m]);
      if o.Thrown? {
        return o;
      }
      cur := o.st;
    }
    r := Running(cur);
  }

  /**
   * The search with the corrected guard: the single inputs, then rounds of
   * longer lists until a round leaves no incomplete list.
   */
  method EnumerateInputs(env: Env) returns (r: Outcome)
    requires WellFormed(env)
    ensures r == Enumerate(env, true)
  {
    var yielded, incomplete, keys, current := TrySingles(env);
    r := SearchRounds(env, incomplete, SearchState(keys, [], yielded, 10000), current);
  }

  /** The first loop of the search: each single input, tested on its own. */
  method TrySingles(env: Env) returns (yielded: seq<seq<nat>>, incomplete: seq<nat>, keys: set<string>, current: seq<seq<nat>>)
    requires WellFormed(env)
    ensures Singles(yielded, incomplete, keys) == SinglesFrom(SingleVerdicts(env), |env.inputValues|)
    ensures current == Units(incomplete)
  {
    yielded, incomplete, keys, current := [], [], {}, [];
    for i := 0 to |env.inputValues|
      invariant Singles(yielded, incomplete, keys) == SinglesFrom(SingleVerdicts(env), i)
      invariant current == Units(incomplete)
    {
      var verdict := TestPotentialInputs(env, [i]);
      assert SingleVerdicts(env)[i] == verdict;
      match verdict
      case Complete =>
        yielded := yielded + [[i]];
      case Incomplete =>
        UnitsSnoc(incomplete, i);
        incomplete := incomplete + [i];
        keys := keys + {KeyOf([i])};
        current := current + [[i]];
      case Invalid =>
    }
  }

  /** One more incomplete input adds its one-element list at the end of the first round. */
  lemma UnitsSnoc(incomplete: seq<nat>, i: nat)
    ensures Units(incomplete + [i]) == Units(incomplete) + [[i]]
  {
  }

  /** The second loop of the search: rounds of longer lists while a round leaves an incomplete one. */
  method SearchRounds(env: Env, incomplete: seq<nat>, st0: SearchState, units: seq<seq<nat>>) returns (r: Outcome)
    requires WellFormed(env) && Inputs(env, incomplete) && units == Units(incomplete)
    ensures r == Search(env, true, incomplete, st0, units, 1)
  {
    var st, current := st0, units;
    ghost var k := 1;
    UnitsChains(incomplete, |env.inputValues|);
    while |current| > 0
      invariant k > 0 && Chains(current, k, |env.inputValues|)
      invariant Search(env, true, incomplete, st, current, k) == Search(env, true, incomplete, st0, units, 1)
      decreases |env.inputValues| + 1 - k
    {
      ChainLength(current[0], k, |env.inputValues|);
      var o := SweepRound(env, incomplete, st.(next := []), current, k);
      if o.Thrown? {
        return o;
      }
      st := o.st;
      current := o.st.next;
      k := k + 1;
    }
    r := Running(st);
  }
}
