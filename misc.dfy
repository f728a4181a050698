/**
 * Generic helpers on lists, sets and bigint bit fields (lib/Misc.ts).
 * Lists are sequences; a callback is a total Dafny function value.
 */
module Misc {
  import opened Wrappers
  import opened Bits

  // ---------------------------------------------------------------------------
  // Sets

  /** `set_union`: every element of every set, and nothing else. */
  method SetUnion<X(==)>(all: seq<set<X>>) returns (r: set<X>)
    ensures forall x :: x in r <==> exists i :: 0 <= i < |all| && x in all[i]
  {
    r := {};
    var k := 0;
    while k < |all|
      invariant 0 <= k <= |all|
      invariant forall x :: x in r <==> exists i :: 0 <= i < k && x in all[i]
    {
      var todo := all[k];
      ghost var before := r;
      while todo != {}
        invariant todo <= all[k]
        invariant r == before + (all[k] - todo)
        decreases todo
      {
        var x :| x in todo;
        r := r + {x};
        todo := todo - {x};
      }
      k := k + 1;
    }
  }

  /** A mutable set, as a JavaScript `Set` object that is changed in place. */
  class MutableSet<X(==)> {
    var elements: set<X>

    constructor (init: set<X>)
      ensures elements == init
    {
      elements := init;
    }
  }

  /** `set_intersection_equal`: removes from `a` the elements not in `b`. */
  method SetIntersectionEqual<X(==)>(a: MutableSet<X>, b: set<X>)
    modifies a
    ensures a.elements == old(a.elements) * b
  {
    var todo := a.elements;
    while todo != {}
      invariant todo <= old(a.elements)
      invariant a.elements == (old(a.elements) * b) + (todo * old(a.elements))
      decreases todo
    {
      var v :| v in todo;
      if v !in b {
        a.elements := a.elements - {v};
      }
      todo := todo - {v};
    }
  }

  /**
   * `set_intersection`: a copy of the first set narrowed by every later one.
   * With no set at all the copy is of `undefined`, which is the empty set.
   */
  method SetIntersection<X(==)>(rest: seq<set<X>>) returns (r: set<X>)
    ensures |rest| == 0 ==> r == {}
    ensures |rest| > 0 ==> forall x :: x in r <==> forall i :: 0 <= i < |rest| ==> x in rest[i]
  {
    if |rest| == 0 {
      return {};
    }
    var result := new MutableSet(rest[0]);
    var k := 1;
    while k < |rest|
      invariant 1 <= k <= |rest|
      invariant forall x :: x in result.elements <==> forall i :: 0 <= i < k ==> x in rest[i]
    {
      SetIntersectionEqual(result, rest[k]);
      k := k + 1;
    }
    r := result.elements;
  }

  // ---------------------------------------------------------------------------
  // Filtering and counting

  /** The elements of `s` that pass `test`, in order. */
  function Filtered<X>(s: seq<X>, test: X -> bool): (r: seq<X>)
    ensures |r| <= |s|
  {
    if |s| == 0 then []
    else Filtered(s[..|s| - 1], test) + (if test(s[|s| - 1]) then [s[|s| - 1]] else [])
  }

  lemma {:induction false} FilteredMembers<X>(s: seq<X>, test: X -> bool, x: X)
    ensures x in Filtered(s, test) <==> x in s && test(x)
  {
    if |s| > 0 {
      FilteredMembers(s[..|s| - 1], test, x);
      assert s == s[..|s| - 1] + [s[|s| - 1]];
    }
  }

  lemma {:induction false} FilteredAll<X>(s: seq<X>, test: X -> bool)
    ensures |Filtered(s, test)| == |s| <==> forall i :: 0 <= i < |s| ==> test(s[i])
  {
    if |s| > 0 {
      FilteredAll(s[..|s| - 1], test);
      if !test(s[|s| - 1]) {
        assert |Filtered(s, test)| < |s|;
      }
    }
  }

  /** `count`: how many elements pass `test`. */
  method Count<X>(list: seq<X>, test: X -> bool) returns (r: nat)
    ensures r == |Filtered(list, test)|
  {
    r := 0;
    var k := 0;
    while k < |list|
      invariant 0 <= k <= |list|
      invariant r == |Filtered(list[..k], test)|
    {
      assert list[..k + 1][..k] == list[..k];
      if test(list[k]) {
        r := r + 1;
      }
      k := k + 1;
    }
    assert list[..k] == list;
  }

  /** `count` reaches the length of the list exactly when every element passes. */
  lemma CountIsLengthIffAll<X>(list: seq<X>, test: X -> bool)
    ensures |Filtered(list, test)| == |list| <==> forall i :: 0 <= i < |list| ==> test(list[i])
    ensures |Filtered(list, test)| == 0 <==> forall i :: 0 <= i < |list| ==> !test(list[i])
  {
    FilteredAll(list, test);
    forall i | 0 <= i < |list|
      ensures |Filtered(list, test)| == 0 ==> !test(list[i])
    {
      FilteredMembers(list, test, list[i]);
    }
    if forall i :: 0 <= i < |list| ==> !test(list[i]) {
      if |Filtered(list, test)| > 0 {
        var x := Filtered(list, test)[0];
        FilteredMembers(list, test, x);
      }
    }
  }

  /** `selects`: the elements that pass `test`, in order. */
  method Selects<X>(objs: seq<X>, test: X -> bool) returns (r: seq<X>)
    ensures r == Filtered(objs, test)
  {
    r := [];
    var k := 0;
    while k < |objs|
      invariant 0 <= k <= |objs|
      invariant r == Filtered(objs[..k], test)
    {
      assert objs[..k + 1][..k] == objs[..k];
      if test(objs[k]) {
        r := r + [objs[k]];
      }
      k := k + 1;
    }
    assert objs[..k] == objs;
  }

  /** `select`: the first element that passes `test`, or nothing. */
  method Select<X>(objs: seq<X>, test: X -> bool) returns (r: Option<X>)
    ensures r.None? <==> forall i :: 0 <= i < |objs| ==> !test(objs[i])
    ensures r.Some? ==> exists k :: 0 <= k < |objs| && objs[k] == r.value && test(objs[k])
                                    && forall j :: 0 <= j < k ==> !test(objs[j])
  {
    var k := 0;
    while k < |objs|
      invariant 0 <= k <= |objs|
      invariant forall j :: 0 <= j < k ==> !test(objs[j])
    {
      if test(objs[k]) {
        return Some(objs[k]);
      }
      k := k + 1;
    }
    return None;
  }

  /** `all`: whether every element passes `test`. */
  method All<X>(v: seq<X>, test: X -> bool) returns (r: bool)
    ensures r <==> forall i :: 0 <= i < |v| ==> test(v[i])
  {
    var k := 0;
    while k < |v|
      invariant 0 <= k <= |v|
      invariant forall j :: 0 <= j < k ==> test(v[j])
    {
      if !test(v[k]) {
        return false;
      }
      k := k + 1;
    }
    return true;
  }

  /** `count_items`: how many times each element occurs. */
  method CountItems<X(==)>(objs: seq<X>) returns (r: map<X, nat>)
    ensures forall x :: x in r <==> x in objs
    ensures forall x :: x in r ==> r[x] == multiset(objs)[x]
  {
    r := map[];
    var k := 0;
    while k < |objs|
      invariant 0 <= k <= |objs|
      invariant forall x :: x in r <==> x in objs[..k]
      invariant forall x :: x in r ==> r[x] == multiset(objs[..k])[x]
    {
      assert objs[..k + 1] == objs[..k] + [objs[k]];
      var x := objs[k];
      if x in r {
        r := r[x := r[x] + 1];
      } else {
        r := r[x := 1];
      }
      k := k + 1;
    }
    assert objs[..k] == objs;
  }

  // ---------------------------------------------------------------------------
  // Best elements by a score

  /** Index of the first element of highest score. */
  function FirstArgMax<X>(s: seq<X>, f: X -> int): (k: nat)
    requires |s| > 0
    ensures k < |s|
  {
    if |s| == 1 then 0
    else
      var j := FirstArgMax(s[..|s| - 1], f);
      if f(s[|s| - 1]) > f(s[j]) then |s| - 1 else j
  }

  /** Index of the first element of lowest score. */
  function FirstArgMin<X>(s: seq<X>, f: X -> int): (k: nat)
    requires |s| > 0
    ensures k < |s|
  {
    if |s| == 1 then 0
    else
      var j := FirstArgMin(s[..|s| - 1], f);
      if f(s[|s| - 1]) < f(s[j]) then |s| - 1 else j
  }

  /** The value of `highest`: undefined for an empty list, else the first maximiser. */
  function HighestOf<X>(objs: seq<X>, f: X -> int): Option<X>
  {
    if |objs| == 0 then None else Some(objs[FirstArgMax(objs, f)])
  }

  /** The value of `lowest`: undefined for an empty list, else the first minimiser. */
  function LowestOf<X>(objs: seq<X>, f: X -> int): Option<X>
  {
    if |objs| == 0 then None else Some(objs[FirstArgMin(objs, f)])
  }

  /** `FirstArgMax` has the highest score, and every earlier element scores strictly less. */
  lemma {:induction false} FirstArgMaxIsFirstMaximum<X>(s: seq<X>, f: X -> int)
    requires |s| > 0
    ensures forall j :: 0 <= j < |s| ==> f(s[j]) <= f(s[FirstArgMax(s, f)])
    ensures forall j :: 0 <= j < FirstArgMax(s, f) ==> f(s[j]) < f(s[FirstArgMax(s, f)])
  {
    if |s| > 1 {
      var p := s[..|s| - 1];
      FirstArgMaxIsFirstMaximum(p, f);
      assert forall j :: 0 <= j < |p| ==> p[j] == s[j];
    }
  }

  /** `FirstArgMin` has the lowest score, and every earlier element scores strictly more. */
  lemma {:induction false} FirstArgMinIsFirstMinimum<X>(s: seq<X>, f: X -> int)
    requires |s| > 0
    ensures forall j :: 0 <= j < |s| ==> f(s[FirstArgMin(s, f)]) <= f(s[j])
    ensures forall j :: 0 <= j < FirstArgMin(s, f) ==> f(s[FirstArgMin(s, f)]) < f(s[j])
  {
    if |s| > 1 {
      var p := s[..|s| - 1];
      FirstArgMinIsFirstMinimum(p, f);
      assert forall j :: 0 <= j < |p| ==> p[j] == s[j];
    }
  }

  /** `highest`, scanning with a strict comparison so that ties keep the earlier element. */
  method Highest<X>(objs: seq<X>, f: X -> int) returns (r: Option<X>)
    ensures r == HighestOf(objs, f)
  {
    if |objs| == 0 {
      return None;
    }
    var best := 0;
    var bestValue := f(objs[0]);
    var k := 1;
    while k < |objs|
      invariant 1 <= k <= |objs|
      invariant best == FirstArgMax(objs[..k], f) && bestValue == f(objs[best])
    {
      assert objs[..k + 1][..k] == objs[..k];
      var value := f(objs[k]);
      if value > bestValue {
        best, bestValue := k, value;
      }
      k := k + 1;
    }
    assert objs[..k] == objs;
    r := Some(objs[best]);
  }

  /** `lowest`, the mirror image of `highest`. */
  method Lowest<X>(objs: seq<X>, f: X -> int) returns (r: Option<X>)
    ensures r == LowestOf(objs, f)
  {
    if |objs| == 0 {
      return None;
    }
    var best := 0;
    var bestValue := f(objs[0]);
    var k := 1;
    while k < |objs|
      invariant 1 <= k <= |objs|
      invariant best == FirstArgMin(objs[..k], f) && bestValue == f(objs[best])
    {
      assert objs[..k + 1][..k] == objs[..k];
      var value := f(objs[k]);
      if value < bestValue {
        best, bestValue := k, value;
      }
      k := k + 1;
    }
    assert objs[..k] == objs;
    r := Some(objs[best]);
  }

  /** Highest score in a non-empty list. */
  function MaxScore<X>(s: seq<X>, f: X -> int): int
    requires |s| > 0
  {
    f(s[FirstArgMax(s, f)])
  }

  /** Lowest score in a non-empty list. */
  function MinScore<X>(s: seq<X>, f: X -> int): int
    requires |s| > 0
  {
    f(s[FirstArgMin(s, f)])
  }

  /** The elements whose score is exactly `v`, in order. */
  function WithScore<X>(s: seq<X>, f: X -> int, v: int): (r: seq<X>)
    ensures |r| <= |s|
  {
    if |s| == 0 then []
    else WithScore(s[..|s| - 1], f, v) + (if f(s[|s| - 1]) == v then [s[|s| - 1]] else [])
  }

  lemma {:induction false} WithScoreMembers<X>(s: seq<X>, f: X -> int, v: int, x: X)
    ensures x in WithScore(s, f, v) <==> x in s && f(x) == v
  {
    if |s| > 0 {
      WithScoreMembers(s[..|s| - 1], f, v, x);
      assert s == s[..|s| - 1] + [s[|s| - 1]];
    }
  }

  lemma {:induction false} WithScoreNone<X>(s: seq<X>, f: X -> int, v: int)
    requires forall j :: 0 <= j < |s| ==> f(s[j]) != v
    ensures WithScore(s, f, v) == []
  {
    if |s| > 0 {
      WithScoreNone(s[..|s| - 1], f, v);
    }
  }

  /** The value of `highests`: all elements of highest score, in order. */
  function HighestsOf<X>(objs: seq<X>, f: X -> int): seq<X>
  {
    if |objs| == 0 then [] else WithScore(objs, f, MaxScore(objs, f))
  }

  /** The value of `lowests`: all elements of lowest score, in order. */
  function LowestsOf<X>(objs: seq<X>, f: X -> int): seq<X>
  {
    if |objs| == 0 then [] else WithScore(objs, f, MinScore(objs, f))
  }

  /** `highests` returns exactly the maximisers, and the first of them is `highest`'s answer. */
  lemma HighestsAreMaximisers<X>(objs: seq<X>, f: X -> int, x: X)
    ensures x in HighestsOf(objs, f) <==> x in objs && forall j :: 0 <= j < |objs| ==> f(objs[j]) <= f(x)
    ensures |objs| > 0 ==> |HighestsOf(objs, f)| > 0 && HighestsOf(objs, f)[0] == HighestOf(objs, f).value
  {
    if |objs| > 0 {
      FirstArgMaxIsFirstMaximum(objs, f);
      WithScoreMembers(objs, f, MaxScore(objs, f), x);
      var k := FirstArgMax(objs, f);
      WithScoreSplit(objs, f, MaxScore(objs, f), k);
    }
  }

  /** `lowests` returns exactly the minimisers, and the first of them is `lowest`'s answer. */
  lemma LowestsAreMinimisers<X>(objs: seq<X>, f: X -> int, x: X)
    ensures x in LowestsOf(objs, f) <==> x in objs && forall j :: 0 <= j < |objs| ==> f(x) <= f(objs[j])
    ensures |objs| > 0 ==> |LowestsOf(objs, f)| > 0 && LowestsOf(objs, f)[0] == LowestOf(objs, f).value
  {
    if |objs| > 0 {
      FirstArgMinIsFirstMinimum(objs, f);
      WithScoreMembers(objs, f, MinScore(objs, f), x);
      var k := FirstArgMin(objs, f);
      WithScoreSplit(objs, f, MinScore(objs, f), k);
    }
  }

  /** When `k` is the first index scoring `v`, the filtered list starts with it. */
  lemma {:induction false} WithScoreSplit<X>(s: seq<X>, f: X -> int, v: int, k: nat)
    requires k < |s| && f(s[k]) == v
    requires forall j :: 0 <= j < k ==> f(s[j]) != v
    ensures |WithScore(s, f, v)| > 0 && WithScore(s, f, v)[0] == s[k]
  {
    if k == |s| - 1 {
      WithScoreNone(s[..|s| - 1], f, v);
    } else {
      WithScoreSplit(s[..|s| - 1], f, v, k);
    }
  }

  /** `highests`: an equal score appends, a higher one restarts the list. */
  method Highests<X>(objs: seq<X>, f: X -> int) returns (r: seq<X>)
    ensures r == HighestsOf(objs, f)
  {
    if |objs| == 0 {
      return [];
    }
    var bestValue := f(objs[0]);
    r := [objs[0]];
    var k := 1;
    assert objs[..1] == [objs[0]];
    while k < |objs|
      invariant 1 <= k <= |objs|
      invariant bestValue == MaxScore(objs[..k], f)
      invariant r == WithScore(objs[..k], f, bestValue)
    {
      var p := objs[..k];
      assert objs[..k + 1][..k] == p;
      FirstArgMaxIsFirstMaximum(p, f);
      var value := f(objs[k]);
      if value == bestValue {
        r := r + [objs[k]];
      } else if value > bestValue {
        WithScoreNone(p, f, value);
        bestValue := value;
        r := [objs[k]];
      }
      k := k + 1;
    }
    assert objs[..k] == objs;
  }

  /** `lowests`: an equal score appends, a lower one restarts the list. */
  method Lowests<X>(objs: seq<X>, f: X -> int) returns (r: seq<X>)
    ensures r == LowestsOf(objs, f)
  {
    if |objs| == 0 {
      return [];
    }
    var bestValue := f(objs[0]);
    r := [objs[0]];
    var k := 1;
    assert objs[..1] == [objs[0]];
    while k < |objs|
      invariant 1 <= k <= |objs|
      invariant bestValue == MinScore(objs[..k], f)
      invariant r == WithScore(objs[..k], f, bestValue)
    {
      var p := objs[..k];
      assert objs[..k + 1][..k] == p;
      FirstArgMinIsFirstMinimum(p, f);
      var value := f(objs[k]);
      if value == bestValue {
        r := r + [objs[k]];
      } else if value < bestValue {
        WithScoreNone(p, f, value);
        bestValue := value;
        r := [objs[k]];
      }
      k := k + 1;
    }
    assert objs[..k] == objs;
  }

  // ---------------------------------------------------------------------------
  // Lists of lists

  /** The concatenation of all vectors, in order. */
  function Concat<X>(vectors: seq<seq<X>>): seq<X>
  {
    if |vectors| == 0 then [] else Concat(vectors[..|vectors| - 1]) + vectors[|vectors| - 1]
  }

  /** An element of the concatenation comes from one of the vectors, and every element of each vector is kept. */
  lemma {:induction false} ConcatMembers<X>(vectors: seq<seq<X>>, x: X)
    ensures x in Concat(vectors) <==> exists i :: 0 <= i < |vectors| && x in vectors[i]
  {
    if |vectors| > 0 {
      var p := vectors[..|vectors| - 1];
      ConcatMembers(p, x);
      if x in vectors[|vectors| - 1] {
        assert x in Concat(vectors);
      }
      if exists i :: 0 <= i < |p| && x in p[i] {
        var i :| 0 <= i < |p| && x in p[i];
        assert vectors[i] == p[i];
      }
      if exists i :: 0 <= i < |vectors| && x in vectors[i] {
        var i :| 0 <= i < |vectors| && x in vectors[i];
        if i < |p| {
          assert p[i] == vectors[i];
        }
      }
    }
  }

  /** `append_vectors`: pushes the elements of each vector in turn. */
  method AppendVectors<X>(vectors: seq<seq<X>>) returns (r: seq<X>)
    ensures r == Concat(vectors)
  {
    r := [];
    var k := 0;
    while k < |vectors|
      invariant 0 <= k <= |vectors|
      invariant r == Concat(vectors[..k])
    {
      assert vectors[..k + 1][..k] == vectors[..k];
      var v := vectors[k];
      var j := 0;
      while j < |v|
        invariant 0 <= j <= |v|
        invariant r == Concat(vectors[..k]) + v[..j]
      {
        assert v[..j + 1] == v[..j] + [v[j]];
        r := r + [v[j]];
        j := j + 1;
      }
      assert v[..j] == v;
      k := k + 1;
    }
    assert vectors[..k] == vectors;
  }

  /**
   * `first_n`: yields the elements of the generator until `n`, decremented
   * after each yield, drops to 0 or below; at least one element is yielded
   * whenever there is one, even for `n <= 0`.
   */
  method FirstN<X>(n: int, generator: seq<X>) returns (r: seq<X>)
    ensures var m := if n <= 1 then 1 else n;
            r == generator[..if m < |generator| then m else |generator|]
  {
    r := [];
    var left := n;
    var k := 0;
    while k < |generator|
      invariant 0 <= k <= |generator|
      invariant r == generator[..k]
      invariant left == n - k
      invariant k > 0 ==> left > 0
    {
      r := r + [generator[k]];
      k := k + 1;
      left := left - 1;
      if left <= 0 {
        assert generator[..k] == r;
        return;
      }
    }
  }

  /** Left fold of `oper` over a non-empty list. */
  function FoldLeft<T>(oper: (T, T) -> T, v: seq<T>): T
    requires |v| > 0
  {
    if |v| == 1 then v[0] else oper(FoldLeft(oper, v[..|v| - 1]), v[|v| - 1])
  }

  /** `operator_v(oper)` applied to `v`: throws for an empty list, else folds left to right. */
  method OperatorV<T>(oper: (T, T) -> T, v: seq<T>) returns (r: Result<T>)
    ensures |v| == 0 <==> r.Failure?
    ensures |v| > 0 ==> r == Success(FoldLeft(oper, v))
  {
    if |v| == 0 {
      return Failure("Expecting at least 1 argument for oper_v");
    }
    var x := v[0];
    var k := 1;
    assert v[..1] == [v[0]];
    while k < |v|
      invariant 1 <= k <= |v|
      invariant x == FoldLeft(oper, v[..k])
    {
      assert v[..k + 1][..k] == v[..k];
      x := oper(x, v[k]);
      k := k + 1;
    }
    assert v[..k] == v;
    return Success(x);
  }

  /** The last step of the `|` fold: the bits of the fold of the prefix, or those of the last field. */
  lemma OrFoldStep(v: seq<nat>, i: nat)
    requires |v| > 1
    ensures Bit(FoldLeft(Or, v), i) <==> Bit(FoldLeft(Or, v[..|v| - 1]), i) || Bit(v[|v| - 1], i)
  {
    assert FoldLeft(Or, v) == Or(FoldLeft(Or, v[..|v| - 1]), v[|v| - 1]);
    BitOfOr(FoldLeft(Or, v[..|v| - 1]), v[|v| - 1], i);
  }

  /** The last step of the `&` fold: the bits of the fold of the prefix, and those of the last field. */
  lemma AndFoldStep(v: seq<nat>, i: nat)
    requires |v| > 1
    ensures Bit(FoldLeft(And, v), i) <==> Bit(FoldLeft(And, v[..|v| - 1]), i) && Bit(v[|v| - 1], i)
  {
    assert FoldLeft(And, v) == And(FoldLeft(And, v[..|v| - 1]), v[|v| - 1]);
    BitOfAnd(FoldLeft(And, v[..|v| - 1]), v[|v| - 1], i);
  }

  /** Some field has bit i: some field of the prefix has it, or the last one does. */
  lemma SomeBitStep(v: seq<nat>, p: seq<nat>, i: nat)
    requires |v| > 1 && p == v[..|v| - 1]
    ensures (exists j :: 0 <= j < |v| && Bit(v[j], i)) <==>
      (exists j :: 0 <= j < |p| && Bit(p[j], i)) || Bit(v[|v| - 1], i)
  {
    if exists j :: 0 <= j < |v| && Bit(v[j], i) {
      var j :| 0 <= j < |v| && Bit(v[j], i);
      if j < |p| {
        assert p[j] == v[j];
      }
    }
    if exists j :: 0 <= j < |p| && Bit(p[j], i) {
      var j :| 0 <= j < |p| && Bit(p[j], i);
      assert v[j] == p[j];
    }
  }

  /** All fields have bit i: all fields of the prefix have it, and the last one does. */
  lemma EveryBitStep(v: seq<nat>, p: seq<nat>, i: nat)
    requires |v| > 1 && p == v[..|v| - 1]
    ensures (forall j :: 0 <= j < |v| ==> Bit(v[j], i)) <==>
      (forall j :: 0 <= j < |p| ==> Bit(p[j], i)) && Bit(v[|v| - 1], i)
  {
    if !(forall j :: 0 <= j < |v| ==> Bit(v[j], i)) {
      var j :| 0 <= j < |v| && !Bit(v[j], i);
      if j < |p| {
        assert p[j] == v[j];
      }
    }
    if !(forall j :: 0 <= j < |p| ==> Bit(p[j], i)) {
      var j :| 0 <= j < |p| && !Bit(p[j], i);
      assert v[j] == p[j];
    }
  }

  /** A bit is set in the `|` of all fields exactly when it is set in one of them. */
  lemma {:induction false} BitOfOrFold(v: seq<nat>, i: nat)
    requires |v| > 0
    ensures Bit(FoldLeft(Or, v), i) <==> exists j :: 0 <= j < |v| && Bit(v[j], i)
  {
    if |v| == 1 {
      assert FoldLeft(Or, v) == v[0];
      assert Bit(v[0], i) ==> 0 <= 0 < |v| && Bit(v[0], i);
    } else {
      BitOfOrFold(v[..|v| - 1], i);
      OrFoldStep(v, i);
      SomeBitStep(v, v[..|v| - 1], i);
    }
  }

  /** A bit is set in the `&` of all fields exactly when it is set in each of them. */
  lemma {:induction false} BitOfAndFold(v: seq<nat>, i: nat)
    requires |v| > 0
    ensures Bit(FoldLeft(And, v), i) <==> forall j :: 0 <= j < |v| ==> Bit(v[j], i)
  {
    if |v| == 1 {
      assert FoldLeft(And, v) == v[0];
      assert !Bit(v[0], i) ==> 0 <= 0 < |v| && !Bit(v[0], i);
    } else {
      BitOfAndFold(v[..|v| - 1], i);
      AndFoldStep(v, i);
      EveryBitStep(v, v[..|v| - 1], i);
    }
  }

  /** `bitfield_or_v`: the union of non-empty list of bit fields. */
  method BitfieldOrV(v: seq<nat>) returns (r: Result<nat>)
    ensures |v| == 0 <==> r.Failure?
    ensures r.Success? ==> forall i: nat :: Bit(r.value, i) <==> exists j :: 0 <= j < |v| && Bit(v[j], i)
  {
    r := OperatorV(Or, v);
    if r.Success? {
      forall i: nat
        ensures Bit(r.value, i) <==> exists j :: 0 <= j < |v| && Bit(v[j], i)
      {
        BitOfOrFold(v, i);
      }
    }
  }

  /** `bitfield_and_v`: the intersection of a non-empty list of bit fields. */
  method BitfieldAndV(v: seq<nat>) returns (r: Result<nat>)
    ensures |v| == 0 <==> r.Failure?
    ensures r.Success? ==> forall i: nat :: Bit(r.value, i) <==> forall j :: 0 <= j < |v| ==> Bit(v[j], i)
  {
    r := OperatorV(And, v);
    if r.Success? {
      forall i: nat
        ensures Bit(r.value, i) <==> forall j :: 0 <= j < |v| ==> Bit(v[j], i)
      {
        BitOfAndFold(v, i);
      }
    }
  }

  // ---------------------------------------------------------------------------
  // Bit fields

  /** A count that may be infinite. */
  datatype Extended = Finite(n: nat) | Infinity

  /** `count_bits`: Infinity for a negative bigint, else the number of set bits. */
  method CountBits(n: int) returns (r: Extended)
    ensures n < 0 ==> r == Infinity
    ensures n >= 0 ==> r == Finite(PopCount(n))
  {
    if n < 0 {
      return Infinity;
    }
    var m: nat := n;
    var count: nat := 0;
    while m > 0
      invariant count + PopCount(m) == PopCount(n)
      decreases m
    {
      ClearLowestBit(m);
      m := And(m, m - 1);
      count := count + 1;
    }
    return Finite(count);
  }

  /** The binary digits of `n`, least significant first, up to its highest set bit. */
  function BinaryDigits(n: nat): (s: string)
    ensures |s| == BitLength(n)
  {
    if n == 0 then [] else [if n % 2 == 0 then '0' else '1'] + BinaryDigits(n / 2)
  }

  /** The number a string of binary digits, least significant first, denotes. */
  function DigitsValue(s: string): nat
  {
    if |s| == 0 then 0 else (if s[0] == '1' then 1 else 0) + 2 * DigitsValue(s[1..])
  }

  /** Digit `i` of the string is bit `i` of the number, and the last digit is a 1. */
  lemma {:induction false} BinaryDigitsBits(n: nat, i: nat)
    ensures i < BitLength(n) ==> (BinaryDigits(n)[i] == '1' <==> Bit(n, i))
    ensures i >= BitLength(n) ==> !Bit(n, i)
    ensures n > 0 ==> BinaryDigits(n)[BitLength(n) - 1] == '1'
    decreases n
  {
    if n == 0 {
      BitOfZero(i);
    } else {
      if i > 0 {
        BinaryDigitsBits(n / 2, i - 1);
      }
      BinaryDigitsBits(n / 2, 0);
    }
  }

  /** Reading the digits back gives the number: the string loses nothing. */
  lemma {:induction false} BinaryDigitsRoundTrip(n: nat)
    ensures DigitsValue(BinaryDigits(n)) == n
    decreases n
  {
    if n > 0 {
      BinaryDigitsRoundTrip(n / 2);
      assert BinaryDigits(n)[1..] == BinaryDigits(n / 2);
    }
  }

  /** `bitfield_to_string`: empty for a bigint that is not positive, else its binary digits from the low end. */
  method BitfieldToString(bitfield: int) returns (output: string)
    ensures bitfield <= 0 ==> output == ""
    ensures bitfield > 0 ==> output == BinaryDigits(bitfield)
  {
    output := "";
    if bitfield <= 0 {
      return;
    }
    var m: nat := bitfield;
    while m > 0
      invariant output + BinaryDigits(m) == BinaryDigits(bitfield)
      decreases m
    {
      output := output + [if m % 2 == 0 then '0' else '1'];
      m := m / 2;
    }
  }

  /** The bit field with bit `i` set exactly when `values[i]` is true. */
  function BooleansValue(values: seq<bool>): nat
  {
    if |values| == 0 then 0 else (if values[0] then 1 else 0) + 2 * BooleansValue(values[1..])
  }

  lemma {:induction false} BooleansValueBits(values: seq<bool>, i: nat)
    ensures Bit(BooleansValue(values), i) <==> i < |values| && values[i]
    ensures BooleansValue(values) < Pow2(|values|)
  {
    if |values| == 0 {
      BitOfZero(i);
    } else {
      BitOfDouble(BooleansValue(values[1..]), if values[0] then 1 else 0, i);
      BooleansValueBits(values[1..], if i > 0 then i - 1 else 0);
    }
  }

  /** `booleans_to_bitfield`: sets bit `i` for each true `values[i]`. */
  method BooleansToBitfield(values: seq<bool>) returns (result: nat)
    ensures result == BooleansValue(values)
  {
    result := 0;
    var k := 0;
    forall i: nat
      ensures !Bit(0, i)
    {
      BitOfZero(i);
    }
    while k < |values|
      invariant 0 <= k <= |values|
      invariant forall i: nat :: Bit(result, i) <==> i < k && values[i]
    {
      if values[k] {
        forall i: nat
          ensures Bit(Or(result, Pow2(k)), i) <==> i < k + 1 && values[i]
        {
          BitOfOr(result, Pow2(k), i);
          BitOfPow2(k, i);
        }
        result := Or(result, Pow2(k));
      }
      k := k + 1;
    }
    forall i: nat
      ensures Bit(result, i) <==> Bit(BooleansValue(values), i)
    {
      BooleansValueBits(values, i);
    }
    BitsDetermine(result, BooleansValue(values));
  }

  /** The digits of the bit field of `values` are the values up to the last true one. */
  lemma BooleansDigits(values: seq<bool>, i: nat)
    requires i < |BinaryDigits(BooleansValue(values))|
    ensures i < |values| && (BinaryDigits(BooleansValue(values))[i] == '1' <==> values[i])
  {
    var n := BooleansValue(values);
    BinaryDigitsBits(n, i);
    BooleansValueBits(values, i);
    BooleansValueBits(values, BitLength(n) - 1);
  }

  // ---------------------------------------------------------------------------
  // Permutations

  /** `elem` with `v` inserted at index `i`. */
  function InsertAt(elem: seq<int>, i: nat, v: int): seq<int>
    requires i <= |elem|
  {
    elem[..i] + [v] + elem[i..]
  }

  /** A permutation of 0 .. n-1: right length, no repeats, every value in range and present. */
  predicate IsPermutation(p: seq<int>, n: nat)
  {
    |p| == n
    && (forall i, j :: 0 <= i < j < |p| ==> p[i] != p[j])
    && (forall i :: 0 <= i < |p| ==> 0 <= p[i] < n)
    && (forall k :: 0 <= k < n ==> k in p)
  }

  /** Every element of `base` has length `m`. */
  predicate AllOfLength(base: seq<seq<int>>, m: nat)
  {
    forall k :: 0 <= k < |base| ==> |base[k]| == m
  }

  /** `v` inserted at position `i` of each element of `base`, in order. */
  function InsertEach(base: seq<seq<int>>, v: int, m: nat, i: nat): (r: seq<seq<int>>)
    requires AllOfLength(base, m) && i <= m
    ensures |r| == |base| && AllOfLength(r, m + 1)
  {
    if |base| == 0 then []
    else InsertEach(base[..|base| - 1], v, m, i) + [InsertAt(base[|base| - 1], i, v)]
  }

  /** The insertions of `v` at positions `0 .. i-1` of each element of `base`, position by position. */
  function InsertEverywhere(base: seq<seq<int>>, v: int, m: nat, i: nat): (r: seq<seq<int>>)
    requires AllOfLength(base, m) && i <= m + 1
    ensures AllOfLength(r, m + 1)
  {
    if i == 0 then []
    else InsertEverywhere(base, v, m, i - 1) + InsertEach(base, v, m, i - 1)
  }

  /** The arrays `make_permutation_set(n)` adds, in insertion order. */
  function Permutations(n: int): (r: seq<seq<int>>)
    ensures n >= 1 ==> AllOfLength(r, n)
    decreases if n < 0 then 0 else n
  {
    if n < 1 then []
    else if n == 1 then [[0]]
    else InsertEverywhere(Permutations(n - 1), n - 1, n - 1, n)
  }

  lemma {:induction false} InsertEachIndex(base: seq<seq<int>>, v: int, m: nat, i: nat, k: nat)
    requires AllOfLength(base, m) && i <= m
    requires k < |base|
    ensures InsertEach(base, v, m, i)[k] == InsertAt(base[k], i, v)
  {
    if k < |base| - 1 {
      InsertEachIndex(base[..|base| - 1], v, m, i, k);
    }
  }

  /** `p` is `v` inserted at position `j` of some element of `base`. */
  predicate InsertedAt(p: seq<int>, base: seq<seq<int>>, v: int, j: nat)
  {
    exists k :: 0 <= k < |base| && j <= |base[k]| && p == InsertAt(base[k], j, v)
  }

  lemma {:induction false} InsertEachMembers(base: seq<seq<int>>, v: int, m: nat, i: nat, p: seq<int>)
    requires AllOfLength(base, m) && i <= m
    ensures p in InsertEach(base, v, m, i) <==> InsertedAt(p, base, v, i)
  {
    var e := InsertEach(base, v, m, i);
    if p in e {
      var k :| 0 <= k < |e| && e[k] == p;
      InsertEachIndex(base, v, m, i, k);
    }
    if InsertedAt(p, base, v, i) {
      var k :| 0 <= k < |base| && i <= |base[k]| && p == InsertAt(base[k], i, v);
      InsertEachIndex(base, v, m, i, k);
      assert e[k] == p;
    }
  }

  /** The insertions at positions 0 .. i-1 are those at 0 .. i-2 followed by those at i-1. */
  lemma InsertEverywhereStep(base: seq<seq<int>>, v: int, m: nat, i: nat)
    requires AllOfLength(base, m) && 0 < i <= m + 1
    ensures InsertEverywhere(base, v, m, i) == InsertEverywhere(base, v, m, i - 1) + InsertEach(base, v, m, i - 1)
  {
  }

  lemma {:induction false} InsertEverywhereMembers(base: seq<seq<int>>, v: int, m: nat, i: nat, p: seq<int>)
    requires AllOfLength(base, m) && i <= m + 1
    ensures p in InsertEverywhere(base, v, m, i) <==> exists j :: 0 <= j < i && InsertedAt(p, base, v, j)
  {
    if i > 0 {
      var front, last := InsertEverywhere(base, v, m, i - 1), InsertEach(base, v, m, i - 1);
      InsertEverywhereStep(base, v, m, i);
      InsertEverywhereMembers(base, v, m, i - 1, p);
      InsertEachMembers(base, v, m, i - 1, p);
      assert p in front + last <==> p in front || p in last;
      if p in front {
        var j :| 0 <= j < i - 1 && InsertedAt(p, base, v, j);
        assert 0 <= j < i && InsertedAt(p, base, v, j);
      }
      if p in last {
        assert 0 <= i - 1 < i && InsertedAt(p, base, v, i - 1);
      }
      if exists j :: 0 <= j < i && InsertedAt(p, base, v, j) {
        var j :| 0 <= j < i && InsertedAt(p, base, v, j);
        if j < i - 1 {
          assert p in front;
        } else {
          assert p in last;
        }
      }
    }
  }

  lemma InsertKeepsPermutation(b: seq<int>, n: nat, j: nat)
    requires IsPermutation(b, n) && j <= n
    ensures IsPermutation(InsertAt(b, j, n), n + 1)
  {
    var p := InsertAt(b, j, n);
    assert forall i :: 0 <= i < |p| ==> p[i] == (if i < j then b[i] else if i == j then n else b[i - 1]);
    forall k | 0 <= k < n + 1
      ensures k in p
    {
      if k < n {
        assert k in b;
        var t :| 0 <= t < |b| && b[t] == k;
        assert p[if t < j then t else t + 1] == k;
      } else {
        assert p[j] == n;
      }
    }
  }

  /** Every array `make_permutation_set(n)` adds is a permutation of 0 .. n-1. */
  lemma {:induction false} PermutationsAreSound(n: int, p: seq<int>)
    requires p in Permutations(n)
    ensures n >= 1 && IsPermutation(p, n)
    decreases if n < 0 then 0 else n
  {
    if n == 1 {
      PermutationsOfOne();
      assert p == [0];
    } else if n > 1 {
      var base := Permutations(n - 1);
      PermutationsStep(n, base);
      InsertEverywhereMembers(base, n - 1, n - 1, n, p);
      var j :| 0 <= j < n && InsertedAt(p, base, n - 1, j);
      var k :| 0 <= k < |base| && j <= |base[k]| && p == InsertAt(base[k], j, n - 1);
      PermutationsAreSound(n - 1, base[k]);
      InsertKeepsPermutation(base[k], n - 1, j);
    }
  }

  /** Position i of p with the element at j taken out. */
  function Skip(i: int, j: int): int
  {
    if i < j then i else i + 1
  }

  /** Removing `n - 1` from a permutation of 0 .. n-1 leaves a permutation of 0 .. n-2. */
  lemma RemoveLast(p: seq<int>, n: nat, j: nat) returns (q: seq<int>)
    requires n >= 2 && IsPermutation(p, n) && j < |p| && p[j] == n - 1
    ensures IsPermutation(q, n - 1) && j <= |q| && InsertAt(q, j, n - 1) == p
  {
    var front, back := p[..j], p[j + 1..];
    q := front + back;
    assert |q| == n - 1;
    forall i | 0 <= i < |q|
      ensures 0 <= Skip(i, j) < |p| && q[i] == p[Skip(i, j)]
    {
      if i < j {
        assert q[i] == front[i];
      } else {
        assert q[i] == back[i - j];
      }
    }
    forall a, b | 0 <= a < b < |q|
      ensures q[a] != q[b]
    {
      assert Skip(a, j) < Skip(b, j);
    }
    forall i | 0 <= i < |q|
      ensures 0 <= q[i] < n - 1
    {
      assert Skip(i, j) != j;
    }
    forall k | 0 <= k < n - 1
      ensures k in q
    {
      assert k in p;
      var t :| 0 <= t < |p| && p[t] == k;
      assert t != j;
      var i := if t < j then t else t - 1;
      assert Skip(i, j) == t;
    }
    assert q[..j] == front;
    assert q[j..] == back;
    assert InsertAt(q, j, n - 1) == front + [p[j]] + back;
    assert p == front + [p[j]] + back;
  }

  /** The only permutation of 0 .. 0 is [0]. */
  lemma PermutationOfOne(p: seq<int>)
    requires IsPermutation(p, 1)
    ensures p == [0]
  {
    assert 0 <= p[0] < 1;
  }

  /** Inserting n - 1 into one of the arrays for n - 1 gives one of the arrays for n. */
  lemma InsertedIsPermutation(n: int, p: seq<int>, q: seq<int>, j: nat)
    requires n >= 2 && q in Permutations(n - 1) && j <= |q| && InsertAt(q, j, n - 1) == p
    ensures p in Permutations(n)
  {
    var base := Permutations(n - 1);
    PermutationsStep(n, base);
    var k :| 0 <= k < |base| && base[k] == q;
    assert InsertedAt(p, base, n - 1, j);
    InsertEverywhereMembers(base, n - 1, n - 1, n, p);
  }

  /** Every permutation of 0 .. n-1 is among the arrays `make_permutation_set(n)` adds. */
  lemma {:induction false} PermutationsAreComplete(n: int, p: seq<int>)
    requires n >= 1 && IsPermutation(p, n)
    ensures p in Permutations(n)
    decreases n
  {
    if n == 1 {
      PermutationOfOne(p);
      PermutationsOfOne();
    } else {
      assert n - 1 in p;
      var j :| 0 <= j < |p| && p[j] == n - 1;
      var q := RemoveLast(p, n, j);
      PermutationsAreComplete(n - 1, q);
      InsertedIsPermutation(n, p, q, j);
    }
  }

  function Factorial(n: nat): nat
  {
    if n == 0 then 1 else n * Factorial(n - 1)
  }

  lemma {:induction false} InsertEverywhereLength(base: seq<seq<int>>, v: int, m: nat, i: nat)
    requires AllOfLength(base, m) && i <= m + 1
    ensures |InsertEverywhere(base, v, m, i)| == i * |base|
  {
    if i > 0 {
      InsertEverywhereStep(base, v, m, i);
      InsertEverywhereLength(base, v, m, i - 1);
      assert (i - 1) * |base| + |base| == i * |base|;
    }
  }

  /** `make_permutation_set(n)` adds n! arrays for n >= 1. */
  lemma {:induction false} PermutationsCount(n: int)
    requires n >= 1
    ensures |Permutations(n)| == Factorial(n)
  {
    if n > 1 {
      PermutationsCount(n - 1);
      InsertEverywhereLength(Permutations(n - 1), n - 1, n - 1, n);
    }
  }

  /** Appends `v` inserted at position `i` of each element of `base`. */
  method AddInsertions(result: seq<seq<int>>, base: seq<seq<int>>, v: int, m: nat, i: nat)
    returns (r: seq<seq<int>>)
    requires AllOfLength(base, m) && i <= m
    ensures r == result + InsertEach(base, v, m, i)
  {
    r := result;
    var k := 0;
    while k < |base|
      invariant 0 <= k <= |base|
      invariant r == result + InsertEach(base[..k], v, m, i)
    {
      assert base[..k + 1][..k] == base[..k];
      r := r + [InsertAt(base[k], i, v)];
      k := k + 1;
    }
    assert base[..k] == base;
  }

  /** `make_permutation_set`: nothing below 1, `[[0]]` for 1, else `n-1` inserted at each position of each smaller permutation. */
  method MakePermutationSet(n: int) returns (result: seq<seq<int>>)
    ensures result == Permutations(n)
    decreases if n < 0 then 0 else n
  {
    if n < 1 {
      return [];
    } else if n == 1 {
      return [[0]];
    }
    var base := MakePermutationSet(n - 1);
    PermutationsStep(n, base);
    result := InsertAllPositions(base, n - 1);
  }

  /** The only array for 1 is [0]. */
  lemma PermutationsOfOne()
    ensures Permutations(1) == [[0]]
  {
  }

  /** The arrays for n >= 2 are n - 1 inserted everywhere into the arrays for n - 1. */
  lemma PermutationsStep(n: int, base: seq<seq<int>>)
    requires n >= 2 && base == Permutations(n - 1)
    ensures AllOfLength(base, n - 1) && Permutations(n) == InsertEverywhere(base, n - 1, n - 1, n)
  {
  }

  /** The loop of `make_permutation_set`: `v` inserted at positions 0 .. v of each array, position by position. */
  method InsertAllPositions(base: seq<seq<int>>, v: nat) returns (result: seq<seq<int>>)
    requires AllOfLength(base, v)
    ensures result == InsertEverywhere(base, v, v, v + 1)
  {
    result := [];
    var i := 0;
    while i <= v
      invariant 0 <= i <= v + 1
      invariant result == InsertEverywhere(base, v, v, i)
    {
      result := AddInsertions(result, base, v, v, i);
      i := i + 1;
    }
  }
}
