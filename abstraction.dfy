/**
 * `Abstraction` of lib/Abstraction.ts: an image made of sub-images, some of
 * which are picked out as parts by a list of selectors, the rest waiting
 * to be classified. The abstraction's numbers, colours and grids are read
 * through getter functions, and it can hide its parts' features (black box).
 *
 * Sub-images are known here by identity and type (`get_type()`), since the
 * source tells them apart with `!==`. A selector is evaluated by a given
 * function of the arguments the abstraction holds, the parts picked so far,
 * the sub-images left and an index; a getter is evaluated by a given
 * function of the parts (a getter that throws gives `undefined`, here None).
 */
module Abstractions {
  import opened Wrappers
  import GridText
  import SolverPaths

  /** A sub-image object: its identity and its type name. */
  datatype SubImage = SubImage(id: nat, kind: string)

  /** An argument value; None stands for `undefined`. */
  type Arg = Option<int>

  datatype Kind = NumberKind | ColorKind | GridKind

  /** One list per kind: numbers, colours, grids. */
  datatype Lists<X> = Lists(numbers: seq<X>, colors: seq<X>, grids: seq<X>)

  function Get<X>(l: Lists<X>, k: Kind): seq<X>
  {
    match k
    case NumberKind => l.numbers
    case ColorKind => l.colors
    case GridKind => l.grids
  }

  /** The field the argument accessors of a kind read. */
  function Field(k: Kind): string
  {
    match k
    case NumberKind => "number_arguments"
    case ColorKind => "color_arguments"
    case GridKind => "grid_arguments"
  }

  /** `selector.f(abstraction, index)`, given the arguments held, the parts picked so far and the sub-images left. */
  type Holds = (string, Lists<Arg>, seq<SubImage>, seq<SubImage>, nat) -> bool

  /** A getter's value on an abstraction with the given parts. */
  type Eval = (string, seq<SubImage>) -> Arg

  /** The fields of an abstraction. */
  datatype AbsState = AbsState(
    subImages: seq<SubImage>,
    blackBox: bool,
    arguments: Lists<Arg>,
    getters: Lists<string>,
    builders: seq<nat>,
    parts: seq<SubImage>,
    selectors: seq<string>,
    toClassify: seq<SubImage>)

  /** What `make_flesh_abstraction` captures: black box, part builders, getters, selectors. */
  datatype Snapshot = Snapshot(blackBox: bool, builders: seq<nat>, getters: Lists<string>, selectors: seq<string>)

  function SnapshotOf(s: AbsState): Snapshot
  {
    Snapshot(s.blackBox, s.builders, s.getters, s.selectors)
  }

  // ---------------------------------------------------------- get_arguments

  function Evaluated(getters: seq<string>, eval: Eval, parts: seq<SubImage>): (r: seq<Arg>)
    ensures |r| == |getters| && forall i :: 0 <= i < |getters| ==> r[i] == eval(getters[i], parts)
  {
    seq(|getters|, i requires 0 <= i < |getters| => eval(getters[i], parts))
  }

  /** `get_arguments`: every getter evaluated on the abstraction. */
  function ArgumentsOf(getters: Lists<string>, eval: Eval, parts: seq<SubImage>): Lists<Arg>
  {
    Lists(Evaluated(getters.numbers, eval, parts), Evaluated(getters.colors, eval, parts), Evaluated(getters.grids, eval, parts))
  }

  // ----------------------------------------------------------- select_parts

  /** The first n sub-images of `list` the selector accepts, in order. */
  function Matching(selector: string, holds: Holds, arguments: Lists<Arg>, parts: seq<SubImage>, list: seq<SubImage>, n: nat): (r: seq<SubImage>)
    requires n <= |list|
    ensures forall x :: x in r ==> x in list
  {
    if n == 0 then []
    else Matching(selector, holds, arguments, parts, list, n - 1) + (if holds(selector, arguments, parts, list, n - 1) then [list[n - 1]] else [])
  }

  /** `list.filter(x => x !== part)`. */
  function Remove(list: seq<SubImage>, part: SubImage): (r: seq<SubImage>)
    ensures multiset(r) == multiset(list)[part := 0]
    ensures |r| <= |list| && (part in list ==> |r| < |list|)
  {
    if |list| == 0 then []
    else
      assert list == [list[0]] + list[1..];
      (if list[0] == part then [] else [list[0]]) + Remove(list[1..], part)
  }

  /** The selectors from k on, each of which must accept exactly one sub-image left. */
  function SelectFrom(s: AbsState, holds: Holds, eval: Eval, k: nat): (r: (AbsState, bool))
    decreases |s.selectors| - k
  {
    if k >= |s.selectors| then (s, true)
    else
      var chosen := Matching(s.selectors[k], holds, s.arguments, s.parts, s.toClassify, |s.toClassify|);
      if |chosen| != 1 then (s, false)
      else
        var parts := s.parts + [chosen[0]];
        var s' := s.(parts := parts, arguments := ArgumentsOf(s.getters, eval, parts), toClassify := Remove(s.toClassify, chosen[0]));
        SelectFrom(s', holds, eval, k + 1)
  }

  /** A selector that matches exactly one sub-image moves it to the parts; selection goes on with the next selector. */
  lemma SelectOnce(s: AbsState, holds: Holds, eval: Eval, k: nat, s': AbsState)
    requires k < |s.selectors|
    requires var chosen := Matching(s.selectors[k], holds, s.arguments, s.parts, s.toClassify, |s.toClassify|);
      && |chosen| == 1
      && s' == s.(parts := s.parts + [chosen[0]], arguments := ArgumentsOf(s.getters, eval, s.parts + [chosen[0]]),
                  toClassify := Remove(s.toClassify, chosen[0]))
    ensures SelectFrom(s, holds, eval, k) == SelectFrom(s', holds, eval, k + 1)
  {
  }

  /** Selection stops, with the state unchanged, after the last selector or at one that does not match exactly one sub-image. */
  lemma SelectStops(s: AbsState, holds: Holds, eval: Eval, k: nat)
    requires k < |s.selectors| ==> |Matching(s.selectors[k], holds, s.arguments, s.parts, s.toClassify, |s.toClassify|)| != 1
    ensures SelectFrom(s, holds, eval, k) == (s, k >= |s.selectors|)
  {
  }

  /** `select_parts`: start with no parts and every sub-image to classify. */
  function Selected(s: AbsState, holds: Holds, eval: Eval): (AbsState, bool)
  {
    SelectFrom(s.(parts := [], toClassify := s.subImages), holds, eval, 0)
  }

  /** The fields select_parts leaves alone. */
  predicate SameSetup(a: AbsState, b: AbsState)
  {
    a.subImages == b.subImages && a.blackBox == b.blackBox && a.getters == b.getters
    && a.builders == b.builders && a.selectors == b.selectors
  }

  /** What a selection r, ok from state s means: see SelectFromMeaning. */
  predicate SelectionFrom(s: AbsState, holds: Holds, r: AbsState, ok: bool)
  {
    && SameSetup(r, s)
    && |r.parts| <= |s.selectors|
    && s.parts <= r.parts
    && (ok <==> |r.parts| == |s.selectors|)
    && (!ok ==> |Matching(r.selectors[|r.parts|], holds, r.arguments, r.parts, r.toClassify, |r.toClassify|)| != 1)
  }

  /**
   * Selection only picks parts: one part per selector passed, and when it
   * stops early, the selector after the parts picked is one that did not
   * accept exactly one of the sub-images left.
   */
  lemma {:induction false} SelectFromMeaning(s: AbsState, holds: Holds, eval: Eval, k: nat)
    requires k <= |s.selectors| && |s.parts| == k
    ensures SelectionFrom(s, holds, SelectFrom(s, holds, eval, k).0, SelectFrom(s, holds, eval, k).1)
    decreases |s.selectors| - k
  {
    var chosen := if k < |s.selectors| then Matching(s.selectors[k], holds, s.arguments, s.parts, s.toClassify, |s.toClassify|) else [];
    if k < |s.selectors| && |chosen| == 1 {
      var parts := s.parts + [chosen[0]];
      var s' := s.(parts := parts, arguments := ArgumentsOf(s.getters, eval, parts), toClassify := Remove(s.toClassify, chosen[0]));
      SelectOnce(s, holds, eval, k, s');
      SelectFromMeaning(s', holds, eval, k + 1);
    } else {
      SelectStops(s, holds, eval, k);
    }
  }

  predicate Distinct(l: seq<SubImage>)
  {
    forall i, j :: 0 <= i < j < |l| ==> l[i] != l[j]
  }

  lemma {:induction false} DistinctOnce(l: seq<SubImage>, x: SubImage)
    requires Distinct(l)
    ensures multiset(l)[x] <= 1
  {
    if |l| > 0 {
      assert l == [l[0]] + l[1..];
      DistinctOnce(l[1..], x);
      if l[0] == x {
        assert x !in l[1..];
      }
    }
  }

  /** Parts and sub-images left always make up the sub-images they were picked from. */
  lemma {:induction false} SelectFromPartition(s: AbsState, holds: Holds, eval: Eval, k: nat)
    requires Distinct(s.subImages)
    requires multiset(s.parts) + multiset(s.toClassify) == multiset(s.subImages)
    ensures var r := SelectFrom(s, holds, eval, k).0;
      multiset(r.parts) + multiset(r.toClassify) == multiset(s.subImages)
    decreases |s.selectors| - k
  {
    if k < |s.selectors| {
      var chosen := Matching(s.selectors[k], holds, s.arguments, s.parts, s.toClassify, |s.toClassify|);
      if |chosen| == 1 {
        var part := chosen[0];
        assert part in chosen;
        assert part in s.toClassify;
        DistinctOnce(s.subImages, part);
        assert multiset(s.toClassify)[part] == 1;
        var rest := Remove(s.toClassify, part);
        assert multiset(rest) + multiset{part} == multiset(s.toClassify);
        var parts := s.parts + [part];
        assert multiset(parts) == multiset(s.parts) + multiset{part};
        var s' := s.(parts := parts, arguments := ArgumentsOf(s.getters, eval, parts), toClassify := rest);
        assert multiset(s'.parts) + multiset(s'.toClassify) == multiset(s.subImages);
        SelectOnce(s, holds, eval, k, s');
        SelectFromPartition(s', holds, eval, k + 1);
        return;
      }
    }
    SelectStops(s, holds, eval, k);
  }

  /**
   * After select_parts, whether it succeeds or not, the parts and the
   * sub-images left to classify are disjoint and together are the
   * sub-images; on success there is one part per selector.
   */
  lemma SelectPartsMeaning(s: AbsState, holds: Holds, eval: Eval)
    requires Distinct(s.subImages)
    ensures var (r, ok) := Selected(s, holds, eval);
      && SameSetup(r, s)
      && multiset(r.parts) + multiset(r.toClassify) == multiset(s.subImages)
      && (forall x :: x in r.parts ==> x !in r.toClassify)
      && (ok <==> |r.parts| == |s.selectors|)
  {
    var s0 := s.(parts := [], toClassify := s.subImages);
    SelectFromMeaning(s0, holds, eval, 0);
    SelectFromPartition(s0, holds, eval, 0);
    var r := Selected(s, holds, eval).0;
    forall x | x in r.parts
      ensures x !in r.toClassify
    {
      DistinctOnce(s.subImages, x);
      assert multiset(r.parts)[x] >= 1;
    }
  }

  /** Selection picks no more parts, and leaves no more sub-images, than there are sub-images. */
  lemma {:induction false} SelectFromSize(s: AbsState, holds: Holds, eval: Eval, k: nat)
    requires |s.parts| + |s.toClassify| <= |s.subImages|
    ensures var r := SelectFrom(s, holds, eval, k).0;
      |r.parts| + |r.toClassify| <= |s.subImages|
    decreases |s.selectors| - k
  {
    if k < |s.selectors| {
      var chosen := Matching(s.selectors[k], holds, s.arguments, s.parts, s.toClassify, |s.toClassify|);
      if |chosen| == 1 {
        assert chosen[0] in chosen;
        var parts := s.parts + [chosen[0]];
        var s' := s.(parts := parts, arguments := ArgumentsOf(s.getters, eval, parts), toClassify := Remove(s.toClassify, chosen[0]));
        SelectFromSize(s', holds, eval, k + 1);
      }
    }
  }

  /**
   * Selection reads the parts, the sub-images left, the selectors, the
   * getters and the arguments held, and nothing else of the abstraction:
   * not its black box, its part builders or its list of sub-images.
   */
  lemma {:induction false} SelectFromDepends(a: AbsState, b: AbsState, holds: Holds, eval: Eval, k: nat)
    requires a.parts == b.parts && a.toClassify == b.toClassify && a.selectors == b.selectors
    requires a.arguments == b.arguments && a.getters == b.getters
    ensures var (ra, oka) := SelectFrom(a, holds, eval, k);
      var (rb, okb) := SelectFrom(b, holds, eval, k);
      ra.parts == rb.parts && ra.toClassify == rb.toClassify && ra.arguments == rb.arguments && oka == okb
    decreases |a.selectors| - k
  {
    if k < |a.selectors| {
      var chosen := Matching(a.selectors[k], holds, a.arguments, a.parts, a.toClassify, |a.toClassify|);
      if |chosen| == 1 {
        var parts := a.parts + [chosen[0]];
        var a' := a.(parts := parts, arguments := ArgumentsOf(a.getters, eval, parts), toClassify := Remove(a.toClassify, chosen[0]));
        var b' := b.(parts := parts, arguments := ArgumentsOf(b.getters, eval, parts), toClassify := Remove(b.toClassify, chosen[0]));
        SelectOnce(a, holds, eval, k, a');
        SelectOnce(b, holds, eval, k, b');
        SelectFromDepends(a', b', holds, eval, k + 1);
      }
    }
  }

  /**
   * Selection with a snapshot's selectors among some sub-images, from an
   * abstraction that holds the given arguments and otherwise only what the
   * snapshot installs.
   */
  function Picks(subImages: seq<SubImage>, arguments: Lists<Arg>, f: Snapshot, holds: Holds, eval: Eval): (AbsState, bool)
  {
    Selected(AbsState(subImages, f.blackBox, arguments, f.getters, f.builders, [], f.selectors, []), holds, eval)
  }

  // ------------------------------------------------- make_flesh_abstraction

  /** The closure of `make_flesh_abstraction` applied to an abstraction. */
  function Flesh(s: AbsState, f: Snapshot, selectParts: bool, holds: Holds, eval: Eval): (AbsState, bool)
  {
    var t := s.(blackBox := f.blackBox, builders := f.builders, getters := f.getters, selectors := f.selectors);
    if selectParts then Selected(t, holds, eval) else (t, true)
  }

  /**
   * Fleshing copies the snapshot's black box, builders, getters and
   * selectors into the target and succeeds when selection is off or
   * succeeds; so fleshing an abstraction with its own snapshot keeps them.
   */
  lemma FleshMeaning(s: AbsState, f: Snapshot, selectParts: bool, holds: Holds, eval: Eval)
    ensures var (r, ok) := Flesh(s, f, selectParts, holds, eval);
      && SnapshotOf(r) == f && r.subImages == s.subImages
      && (ok <==> !selectParts || |r.parts| == |f.selectors|)
  {
    var t := s.(blackBox := f.blackBox, builders := f.builders, getters := f.getters, selectors := f.selectors);
    SelectFromMeaning(t.(parts := [], toClassify := t.subImages), holds, eval, 0);
  }

  /**
   * Fleshing with selection depends only on the abstraction's sub-images
   * and the arguments it holds, not on the parts, leftovers, getters or
   * selectors it had; it never gives more parts and leftovers together
   * than sub-images.
   */
  lemma FleshPicks(s: AbsState, f: Snapshot, holds: Holds, eval: Eval)
    ensures var (r, ok) := Flesh(s, f, true, holds, eval);
      && (r, ok) == Picks(s.subImages, s.arguments, f, holds, eval)
      && r.subImages == s.subImages && SnapshotOf(r) == f
      && (ok <==> |r.parts| == |f.selectors|)
      && |r.parts| + |r.toClassify| <= |s.subImages|
  {
    FleshMeaning(s, f, true, holds, eval);
    var t := s.(blackBox := f.blackBox, builders := f.builders, getters := f.getters, selectors := f.selectors);
    var t0 := t.(parts := [], toClassify := t.subImages);
    assert t0 == AbsState(s.subImages, f.blackBox, s.arguments, f.getters, f.builders, [], f.selectors, []).(parts := [], toClassify := s.subImages);
    SelectFromSize(t0, holds, eval, 0);
  }

  /** No abstraction appears twice in the list. */
  predicate Unaliased(xs: seq<Abstraction>)
  {
    forall i, j :: 0 <= i < j < |xs| ==> xs[i] != xs[j]
  }

  /** Two lists without repeats between or within them: each is without repeats, and no abstraction is in both. */
  lemma UnaliasedSplit(xs: seq<Abstraction>, ys: seq<Abstraction>)
    requires Unaliased(xs + ys)
    ensures Unaliased(xs) && Unaliased(ys)
    ensures forall x :: x in xs ==> x !in ys
  {
    var zs := xs + ys;
    forall i, j | 0 <= i < j < |xs|
      ensures xs[i] != xs[j]
    {
      assert xs[i] == zs[i] && xs[j] == zs[j];
    }
    forall i, j | 0 <= i < j < |ys|
      ensures ys[i] != ys[j]
    {
      assert ys[i] == zs[|xs| + i] && ys[j] == zs[|xs| + j];
    }
    forall x | x in xs
      ensures x !in ys
    {
      var i :| 0 <= i < |xs| && xs[i] == x;
      forall j | 0 <= j < |ys|
        ensures ys[j] != x
      {
        assert zs[i] == x && zs[|xs| + j] == ys[j];
      }
    }
  }

  /** The states of some abstractions. */
  function StatesOf(xs: seq<Abstraction>): (r: seq<AbsState>)
    reads xs
    ensures |r| == |xs| && forall i :: 0 <= i < |xs| ==> r[i] == xs[i].State()
  {
    seq(|xs|, i reads xs requires 0 <= i < |xs| => xs[i].State())
  }

  // ------------------------------------------- number/color/grid_functions

  /** The argument accessors `F.make('number_arguments[i]')`. */
  function ArgumentPaths(k: Kind, count: nat): (r: seq<string>)
    ensures |r| == count
  {
    seq(count, i requires 0 <= i < count => SolverPaths.PathOf(Field(k) + "[" + GridText.Decimal(i) + "]", false))
  }

  /** The functions of the first n parts, each prefixed with `parts[i]`. */
  function PartPaths(partFunctions: seq<seq<string>>, n: nat): seq<string>
    requires n <= |partFunctions|
  {
    if n == 0 then []
    else PartPaths(partFunctions, n - 1)
         + seq(|partFunctions[n - 1]|, j requires 0 <= j < |partFunctions[n - 1]| => SolverPaths.PrefixList(partFunctions[n - 1][j], "parts", n - 1))
  }

  /** `number_functions()` and its siblings, given each part's own functions of that kind. */
  function FunctionsOf(s: AbsState, k: Kind, partFunctions: seq<seq<string>>): seq<string>
    requires |partFunctions| == |s.parts|
  {
    ArgumentPaths(k, |Get(s.arguments, k)|) + (if s.blackBox then [] else PartPaths(partFunctions, |partFunctions|))
  }

  /** How many functions the first n parts offer. */
  function Total(partFunctions: seq<seq<string>>, n: nat): nat
    requires n <= |partFunctions|
  {
    if n == 0 then 0 else Total(partFunctions, n - 1) + |partFunctions[n - 1]|
  }

  lemma {:induction false} PartPathsMeaning(partFunctions: seq<seq<string>>, n: nat)
    requires n <= |partFunctions|
    ensures |PartPaths(partFunctions, n)| == Total(partFunctions, n)
    ensures forall i, j :: 0 <= i < n && 0 <= j < |partFunctions[i]| ==>
              SolverPaths.PrefixList(partFunctions[i][j], "parts", i) in PartPaths(partFunctions, n)
  {
    if n > 0 {
      PartPathsMeaning(partFunctions, n - 1);
      var prev := PartPaths(partFunctions, n - 1);
      var last := seq(|partFunctions[n - 1]|, j requires 0 <= j < |partFunctions[n - 1]| => SolverPaths.PrefixList(partFunctions[n - 1][j], "parts", n - 1));
      assert PartPaths(partFunctions, n) == prev + last;
      forall i, j | 0 <= i < n - 1 && 0 <= j < |partFunctions[i]|
        ensures SolverPaths.PrefixList(partFunctions[i][j], "parts", i) in prev + last
      {
      }
      var fns := partFunctions[n - 1];
      forall j | 0 <= j < |fns|
        ensures SolverPaths.PrefixList(fns[j], "parts", n - 1) in prev + last
      {
        assert last[j] in last;
      }
    }
  }

  /**
   * A black box offers only its argument accessors; otherwise it also
   * offers every function of every part, prefixed with the part's place.
   */
  lemma BlackBoxHidesParts(s: AbsState, k: Kind, partFunctions: seq<seq<string>>)
    requires |partFunctions| == |s.parts|
    ensures s.blackBox ==> FunctionsOf(s, k, partFunctions) == ArgumentPaths(k, |Get(s.arguments, k)|)
    ensures !s.blackBox ==>
      && |FunctionsOf(s, k, partFunctions)| == |Get(s.arguments, k)| + Total(partFunctions, |partFunctions|)
      && forall i, j :: 0 <= i < |partFunctions| && 0 <= j < |partFunctions[i]| ==>
           SolverPaths.PrefixList(partFunctions[i][j], "parts", i) in FunctionsOf(s, k, partFunctions)
  {
    PartPathsMeaning(partFunctions, |partFunctions|);
  }

  // ---------------------------------------------- check_potential_abstraction

  function KindCount(list: seq<SubImage>, kind: string): nat
  {
    if |list| == 0 then 0 else KindCount(list[..|list| - 1], kind) + (if list[|list| - 1].kind == kind then 1 else 0)
  }

  /** Every other abstraction has as many sub-images of each type occurring here. */
  predicate PotentialFor(mine: seq<SubImage>, others: seq<seq<SubImage>>)
  {
    forall a, i :: 0 <= a < |others| && 0 <= i < |mine| ==> KindCount(others[a], mine[i].kind) == KindCount(mine, mine[i].kind)
  }

  lemma {:induction false} KindCountAbsent(list: seq<SubImage>, kind: string)
    requires forall i :: 0 <= i < |list| ==> list[i].kind != kind
    ensures KindCount(list, kind) == 0
  {
    if |list| > 0 {
      KindCountAbsent(list[..|list| - 1], kind);
    }
  }

  /** Types occurring only in the other abstractions are not checked. */
  lemma ExtraKindsIgnored(mine: seq<SubImage>, extra: SubImage)
    requires forall i :: 0 <= i < |mine| ==> mine[i].kind != extra.kind
    ensures PotentialFor(mine, [mine + [extra]])
  {
    var other := mine + [extra];
    assert other[..|other| - 1] == mine;
    KindCountAbsent(mine, extra.kind);
  }

  /** The types of a list in order of first occurrence, the order a `Map` keyed by type keeps. */
  function Kinds(list: seq<SubImage>): seq<string>
  {
    if |list| == 0 then []
    else
      var r := Kinds(list[..|list| - 1]);
      if list[|list| - 1].kind in r then r else r + [list[|list| - 1].kind]
  }

  /** Kinds lists each type occurring in the list, the first sub-image's first. */
  lemma {:induction false} KindsMeaning(list: seq<SubImage>)
    ensures forall k :: k in Kinds(list) <==> exists i :: 0 <= i < |list| && list[i].kind == k
    ensures |list| > 0 ==> |Kinds(list)| > 0 && Kinds(list)[0] == list[0].kind
  {
    if |list| > 0 {
      var init := list[..|list| - 1];
      KindsMeaning(init);
      forall k | k in Kinds(list)
        ensures exists i :: 0 <= i < |list| && list[i].kind == k
      {
        if k in Kinds(init) {
          var i :| 0 <= i < |init| && init[i].kind == k;
          assert list[i].kind == k;
        } else {
          assert list[|list| - 1].kind == k;
        }
      }
      forall k, i | 0 <= i < |list| && list[i].kind == k
        ensures k in Kinds(list)
      {
        if i < |init| {
          assert init[i].kind == k;
        }
      }
      if |init| == 0 {
        assert Kinds(init) == [];
      }
    }
  }

  /** The groups by type: their types in first-occurrence order and their sizes. */
  method GroupKinds(list: seq<SubImage>) returns (kinds: seq<string>, counts: map<string, nat>)
    ensures kinds == Kinds(list)
    ensures forall k :: k in kinds ==> k in counts && counts[k] == KindCount(list, k)
  {
    kinds := [];
    counts := map[];
    for i := 0 to |list|
      invariant kinds == Kinds(list[..i])
      invariant forall k :: k in kinds ==> k in counts && counts[k] == KindCount(list[..i], k)
    {
      var kind := list[i].kind;
      assert list[..i + 1][..i] == list[..i];
      if kind in kinds {
        counts := counts[kind := counts[kind] + 1];
      } else {
        KindsMeaning(list[..i]);
        KindCountAbsent(list[..i], kind);
        kinds := kinds + [kind];
        counts := counts[kind := 1];
      }
    }
    assert list[..|list|] == list;
  }

  /** The first of the types that has exactly one sub-image. */
  function FirstUnique(kinds: seq<string>, list: seq<SubImage>): (r: Option<string>)
    ensures r.Some? ==> r.value in kinds && KindCount(list, r.value) == 1
    ensures r.None? ==> forall k :: k in kinds ==> KindCount(list, k) != 1
  {
    if |kinds| == 0 then None
    else if KindCount(list, kinds[0]) == 1 then Some(kinds[0])
    else FirstUnique(kinds[1..], list)
  }

  /** The selector `sub_images_to_classify[i0].get_type() === '<type>'}` (with its stray brace). */
  function Discriminator(kind: string): string
  {
    SolverPaths.PathOf("sub_images_to_classify[i0].get_type() === '" + kind + "'}", false)
  }

  /**
   * The selector `abstract_new_part` passes to `add_part`, given the sub-images
   * left: the discriminator of the first type that has a single sub-image, or
   * else the first type's discriminator and-ed with the selector the
   * sub-solver finds for it (`find`); None when there is nothing to classify
   * or no selector is found.
   */
  function NextSelector(rest: seq<SubImage>, find: string -> Option<string>): Option<string>
  {
    if |rest| == 0 then None
    else match FirstUnique(Kinds(rest), rest)
      case Some(k) => Some(Discriminator(k))
      case None =>
        match find(rest[0].kind)
        case None => None
        case Some(p) => Some(SolverPaths.OperatorPath("&&", Discriminator(rest[0].kind), p))
  }

  /**
   * A type with a single sub-image left is always split off first by its
   * discriminator; the sub-solver is asked only when every type left has
   * two or more, and then only for the type of the first sub-image left.
   */
  lemma NextSelectorMeaning(rest: seq<SubImage>, find: string -> Option<string>)
    ensures |rest| == 0 ==> NextSelector(rest, find).None?
    ensures (exists i :: 0 <= i < |rest| && KindCount(rest, rest[i].kind) == 1) ==>
      exists i :: 0 <= i < |rest| && KindCount(rest, rest[i].kind) == 1 && NextSelector(rest, find) == Some(Discriminator(rest[i].kind))
    ensures |rest| > 0 && (forall i :: 0 <= i < |rest| ==> KindCount(rest, rest[i].kind) != 1) ==>
      NextSelector(rest, find) == (if find(rest[0].kind).Some? then Some(SolverPaths.OperatorPath("&&", Discriminator(rest[0].kind), find(rest[0].kind).value)) else None)
  {
    KindsMeaning(rest);
    if |rest| > 0 {
      match FirstUnique(Kinds(rest), rest)
      case Some(k) =>
        var i :| 0 <= i < |rest| && rest[i].kind == k;
      case None =>
        forall i | 0 <= i < |rest|
          ensures KindCount(rest, rest[i].kind) != 1
        {
          assert rest[i].kind in Kinds(rest);
        }
    }
  }

  /** The sub-images of some abstractions. */
  function ImagesOf(xs: seq<Abstraction>): (r: seq<seq<SubImage>>)
    reads xs
    ensures |r| == |xs| && forall i :: 0 <= i < |xs| ==> r[i] == xs[i].subImages
  {
    seq(|xs|, i reads xs requires 0 <= i < |xs| => xs[i].subImages)
  }

  /** Fleshing an abstraction in its present state with a snapshot, with selection: see FleshPicks. */
  function FleshOf(x: Abstraction, f: Snapshot, holds: Holds, eval: Eval): (AbsState, bool)
    reads x
  {
    Picks(x.subImages, x.arguments, f, holds, eval)
  }

  /**
   * Apply a flesh snapshot, with selection, to each abstraction in turn,
   * stopping at the first failure: it succeeds iff each would be fleshed,
   * from the state it had, and then each is left in that fleshed state.
   */
  method FleshEach(targets: seq<Abstraction>, f: Snapshot, holds: Holds, eval: Eval) returns (ok: bool)
    requires Unaliased(targets)
    modifies targets
    ensures forall x :: x in targets ==> x.subImages == old(x.subImages)
    ensures ok <==> forall i :: 0 <= i < |targets| ==> old(FleshOf(targets[i], f, holds, eval)).1
    ensures ok ==> forall i :: 0 <= i < |targets| ==> targets[i].State() == old(FleshOf(targets[i], f, holds, eval)).0
  {
    ghost var before := StatesOf(targets);
    for i := 0 to |targets|
      invariant forall x :: x in targets ==> x.subImages == old(x.subImages)
      invariant forall j :: 0 <= j < i ==> FleshedFrom(targets[j], before[j], f, holds, eval)
      invariant forall j :: i <= j < |targets| ==> targets[j].State() == before[j]
    {
      var fine := FleshOne(targets[i], f, holds, eval);
      if !fine {
        return false;
      }
    }
    ok := true;
  }

  /** The abstraction was fleshed with selection, successfully, from the state `s`. */
  predicate FleshedFrom(x: Abstraction, s: AbsState, f: Snapshot, holds: Holds, eval: Eval)
    reads x
  {
    var p := Picks(s.subImages, s.arguments, f, holds, eval);
    p.1 && x.State() == p.0
  }

  /** The end of `flesh_all`: each input takes the arguments of the output at the same position; nothing else changes. */
  method CopyArguments(inputs: seq<Abstraction>, outputs: seq<Abstraction>)
    requires |inputs| == |outputs|
    modifies inputs
    ensures forall x :: x in inputs || x in outputs ==> x.subImages == old(x.subImages)
    ensures forall x :: x in inputs ==> x.State() == old(x.State()).(arguments := x.arguments)
  {
    for i := 0 to |inputs|
      invariant forall x :: x in inputs || x in outputs ==> x.subImages == old(x.subImages)
      invariant forall x :: x in inputs ==> x.State() == old(x.State()).(arguments := x.arguments)
    {
      inputs[i].arguments := outputs[i].arguments;
    }
  }

  /** One abstraction of `flesh_all`'s loop: its snapshot applied, then its parts selected. */
  method FleshOne(x: Abstraction, f: Snapshot, holds: Holds, eval: Eval) returns (ok: bool)
    modifies x
    ensures x.subImages == old(x.subImages)
    ensures (x.State(), ok) == old(FleshOf(x, f, holds, eval))
  {
    ghost var before := x.State();
    FleshPicks(before, f, holds, eval);
    ok := x.ApplyFlesh(f, true, holds, eval);
  }

  // ------------------------------------------------------------- add_part

  /** How an attempt to build the new part's solver ended. */
  datatype Attempt = PartBuilt(solver: nat) | CantBuildNumber(f: string) | CantBuildColor(f: string) | CantBuildGrid(f: string) | OtherError

  predicate Missing(a: Attempt)
  {
    a.CantBuildNumber? || a.CantBuildColor? || a.CantBuildGrid?
  }

  /** The getters after n failed attempts, each adding the function it could not build. */
  function Carried(getters: Lists<string>, solve: nat -> Attempt, n: nat): Lists<string>
  {
    if n == 0 then getters
    else Carry(Carried(getters, solve, n - 1), solve(n - 1))
  }

  /** The getters after one attempt: a function that could not be built joins the list of its kind. */
  function Carry(g: Lists<string>, a: Attempt): Lists<string>
  {
    match a
    case CantBuildNumber(f) => g.(numbers := g.numbers + [f])
    case CantBuildColor(f) => g.(colors := g.colors + [f])
    case CantBuildGrid(f) => g.(grids := g.grids + [f])
    case _ => g
  }

  /** The functions of one kind the first n attempts could not build. */
  function MissingOf(solve: nat -> Attempt, k: Kind, n: nat): seq<string>
  {
    if n == 0 then []
    else MissingOf(solve, k, n - 1) + match (solve(n - 1), k)
      case (CantBuildNumber(f), NumberKind) => [f]
      case (CantBuildColor(f), ColorKind) => [f]
      case (CantBuildGrid(f), GridKind) => [f]
      case _ => []
  }

  /** Each failed attempt appends its function to the getters of its kind, in order. */
  lemma {:induction false} CarriedMeaning(getters: Lists<string>, solve: nat -> Attempt, n: nat, k: Kind)
    ensures Get(Carried(getters, solve, n), k) == Get(getters, k) + MissingOf(solve, k, n)
  {
    if n > 0 {
      CarriedMeaning(getters, solve, n - 1, k);
    }
  }

  // ------------------------------------------------------------- the class

  class Abstraction {
    var subImages: seq<SubImage>
    var blackBox: bool
    var arguments: Lists<Arg>
    var getters: Lists<string>
    var builders: seq<nat>
    var parts: seq<SubImage>
    var selectors: seq<string>
    var toClassify: seq<SubImage>

    function State(): AbsState
      reads this
    {
      AbsState(subImages, blackBox, arguments, getters, builders, parts, selectors, toClassify)
    }

    /** A new abstraction over some sub-images: no arguments, getters, parts or selectors. */
    constructor(subImages: seq<SubImage>)
      ensures State() == AbsState(subImages, false, Lists([], [], []), Lists([], [], []), [], [], [], [])
    {
      this.subImages := subImages;
      blackBox := false;
      arguments := Lists([], [], []);
      getters := Lists([], [], []);
      builders := [];
      parts := [];
      selectors := [];
      toClassify := [];
    }

    /** `get_arguments`. */
    method GetArguments(eval: Eval)
      modifies this
      ensures State() == old(State()).(arguments := ArgumentsOf(getters, eval, parts))
    {
      arguments := ArgumentsOf(getters, eval, parts);
    }

    /** `select_parts`. */
    method SelectParts(holds: Holds, eval: Eval) returns (ok: bool)
      modifies this
      ensures (State(), ok) == Selected(old(State()), holds, eval)
    {
      ghost var s0 := old(State());
      parts := [];
      toClassify := subImages;
      for k := 0 to |selectors|
        invariant Selected(s0, holds, eval) == SelectFrom(State(), holds, eval, k)
        invariant selectors == s0.selectors
      {
        var chosen := Matching(selectors[k], holds, arguments, parts, toClassify, |toClassify|);
        if |chosen| != 1 {
          return false;
        }
        var part := chosen[0];
        parts := parts + [part];
        GetArguments(eval);
        toClassify := Remove(toClassify, part);
      }
      ok := true;
    }

    /** The closure `make_flesh_abstraction(select_parts)` returns, applied to this abstraction. */
    method ApplyFlesh(f: Snapshot, selectParts: bool, holds: Holds, eval: Eval) returns (ok: bool)
      modifies this
      ensures (State(), ok) == Flesh(old(State()), f, selectParts, holds, eval)
    {
      blackBox := f.blackBox;
      builders := f.builders;
      getters := f.getters;
      selectors := f.selectors;
      ok := true;
      if selectParts {
        ok := SelectParts(holds, eval);
      }
    }

    /** `number_functions()`, `color_functions()`, `grid_functions()`. */
    method Functions(k: Kind, partFunctions: seq<seq<string>>) returns (fs: seq<string>)
      requires |partFunctions| == |parts|
      ensures fs == FunctionsOf(State(), k, partFunctions)
    {
      fs := ArgumentPaths(k, |Get(arguments, k)|);
      if !blackBox {
        for i := 0 to |partFunctions|
          invariant fs == ArgumentPaths(k, |Get(arguments, k)|) + PartPaths(partFunctions, i)
        {
          ghost var before := fs;
          for j := 0 to |partFunctions[i]|
            invariant fs == before + seq(j, j' requires 0 <= j' < j => SolverPaths.PrefixList(partFunctions[i][j'], "parts", i))
          {
            fs := fs + [SolverPaths.PrefixList(partFunctions[i][j], "parts", i)];
          }
        }
      }
    }

    /** `check_potential_abstraction`: count the types here, then compare every other abstraction. */
    method CheckPotentialAbstraction(others: seq<seq<SubImage>>) returns (ok: bool)
      ensures ok == PotentialFor(subImages, others)
    {
      var kinds, counts := GroupKinds(subImages);
      KindsMeaning(subImages);
      for a := 0 to |others|
        invariant forall a', i :: 0 <= a' < a && 0 <= i < |subImages| ==>
          KindCount(others[a'], subImages[i].kind) == KindCount(subImages, subImages[i].kind)
      {
        for t := 0 to |kinds|
          invariant forall t' :: 0 <= t' < t ==> KindCount(others[a], kinds[t']) == counts[kinds[t']]
        {
          if KindCount(others[a], kinds[t]) != counts[kinds[t]] {
            assert kinds[t] in kinds;
            var i :| 0 <= i < |subImages| && subImages[i].kind == kinds[t];
            return false;
          }
        }
        forall i | 0 <= i < |subImages|
          ensures KindCount(others[a], subImages[i].kind) == KindCount(subImages, subImages[i].kind)
        {
          var kind := subImages[i].kind;
          assert kind in kinds;
          var t :| 0 <= t < |kinds| && kinds[t] == kind;
        }
      }
      ok := true;
    }

    /**
     * One attempt's preparation in `add_part`: flesh this abstraction and
     * the outputs with this one's snapshot and the inputs with `generic`,
     * stopping at the first failure, then give each input its output's
     * arguments.
     */
    method FleshAll(generic: Snapshot, inputs: seq<Abstraction>, outputs: seq<Abstraction>, holds: Holds, eval: Eval)
      returns (ok: bool)
      requires this !in inputs && this !in outputs
      requires |inputs| == |outputs| && Unaliased(inputs) && Unaliased(outputs)
      modifies this, inputs, outputs
      ensures subImages == old(subImages) && SnapshotOf(State()) == SnapshotOf(old(State()))
      ensures forall x :: x in inputs || x in outputs ==> x.subImages == old(x.subImages)
      ensures ok ==> |parts| == |selectors| <= |subImages|
    {
      var own := SnapshotOf(State());
      FleshPicks(State(), own, holds, eval);
      ok := ApplyFlesh(own, true, holds, eval);
      if !ok {
        return;
      }
      ok := FleshEach(inputs, generic, holds, eval);
      if !ok {
        return;
      }
      ok := FleshEach(outputs, own, holds, eval);
      if !ok {
        return;
      }
      CopyArguments(inputs, outputs);
    }

    /**
     * `add_part`: push the selector, then make up to 100 attempts. Each
     * attempt fleshes this abstraction and the outputs with this one's
     * current snapshot and the inputs with a snapshot taken before the push
     * (so without the new selector and the getters added since), copies the
     * outputs' arguments to the inputs, and asks `solve` to build the new
     * part. A missing function is added to the getters of its kind and the
     * attempt repeated; a built part adds its builder and succeeds; any other
     * error or a failed fleshing fails.
     */
    method AddPart(selector: string, inputs: seq<Abstraction>, outputs: seq<Abstraction>,
                   holds: Holds, eval: Eval, solve: nat -> Attempt)
      returns (ok: bool, ghost tried: nat)
      requires this !in inputs && this !in outputs
      requires |inputs| == |outputs| && Unaliased(inputs) && Unaliased(outputs)
      modifies this, inputs, outputs
      ensures subImages == old(subImages) && !blackBox
      ensures forall x :: x in inputs || x in outputs ==> x.subImages == old(x.subImages)
      ensures selectors == old(selectors) + [selector]
      ensures tried <= 100 && getters == Carried(old(getters), solve, tried)
      ensures forall t :: 0 <= t < tried ==> Missing(solve(t))
      ensures ok ==> tried < 100 && solve(tried).PartBuilt? && builders == old(builders) + [solve(tried).solver]
      ensures ok ==> |parts| == |selectors| <= |subImages|
      ensures !ok ==> builders == old(builders)
    {
      var generic := SnapshotOf(State()).(blackBox := false);
      blackBox := false;
      selectors := selectors + [selector];
      var n := 0;
      while n < 100
        invariant n <= 100
        invariant subImages == old(subImages) && !blackBox
        invariant forall x :: x in inputs || x in outputs ==> x.subImages == old(x.subImages)
        invariant selectors == old(selectors) + [selector] && builders == old(builders)
        invariant getters == Carried(old(getters), solve, n)
        invariant forall t :: 0 <= t < n ==> Missing(solve(t))
      {
        var stop;
        stop, ok := TryAttempt(generic, inputs, outputs, holds, eval, solve(n));
        if stop {
          return ok, n;
        }
        n := n + 1;
      }
      ok, tried := false, n;
    }

    /**
     * One attempt of `add_part`: flesh everything, then use what the solver
     * answered; `stop` when the attempt ends the search, `ok` when it built the part.
     */
    method TryAttempt(generic: Snapshot, inputs: seq<Abstraction>, outputs: seq<Abstraction>,
                      holds: Holds, eval: Eval, attempt: Attempt)
      returns (stop: bool, ok: bool)
      requires this !in inputs && this !in outputs
      requires |inputs| == |outputs| && Unaliased(inputs) && Unaliased(outputs)
      modifies this, inputs, outputs
      ensures subImages == old(subImages) && blackBox == old(blackBox) && selectors == old(selectors)
      ensures forall x :: x in inputs || x in outputs ==> x.subImages == old(x.subImages)
      ensures !stop ==> !ok && Missing(attempt) && getters == Carry(old(getters), attempt) && builders == old(builders)
      ensures stop && ok ==> attempt.PartBuilt? && builders == old(builders) + [attempt.solver]
      ensures stop && ok ==> |parts| == |selectors| <= |subImages|
      ensures stop && !ok ==> builders == old(builders)
      ensures stop ==> getters == old(getters)
    {
      var fine := FleshAll(generic, inputs, outputs, holds, eval);
      if !fine {
        return true, false;
      }
      if attempt.PartBuilt? {
        builders := builders + [attempt.solver];
        return true, true;
      } else if attempt.OtherError? {
        return true, false;
      }
      getters := Carry(getters, attempt);
      stop, ok := false, false;
    }

    /** Fleshing this abstraction, in its present state, with its own snapshot, black box off. */
    function OwnFlesh(holds: Holds, eval: Eval): (AbsState, bool)
      reads this
    {
      Picks(subImages, arguments, SnapshotOf(State()).(blackBox := false), holds, eval)
    }

    /**
     * Flesh this abstraction with its own snapshot, black box off, then the
     * inputs and the outputs, stopping at the first failure; each ends in
     * the state fleshing gives it from the state it had.
     */
    method FleshEverything(inputs: seq<Abstraction>, outputs: seq<Abstraction>, holds: Holds, eval: Eval)
      returns (ok: bool)
      requires this !in inputs && this !in outputs
      requires Unaliased(inputs + outputs)
      modifies this, inputs, outputs
      ensures subImages == old(subImages) && !blackBox
      ensures forall x :: x in inputs || x in outputs ==> x.subImages == old(x.subImages)
      ensures SnapshotOf(State()) == SnapshotOf(old(State())).(blackBox := false)
      ensures State() == old(OwnFlesh(holds, eval)).0
      ensures ok <==>
        && old(OwnFlesh(holds, eval)).1
        && (forall i :: 0 <= i < |inputs| ==> old(FleshOf(inputs[i], SnapshotOf(State()).(blackBox := false), holds, eval)).1)
        && (forall i :: 0 <= i < |outputs| ==> old(FleshOf(outputs[i], SnapshotOf(State()).(blackBox := false), holds, eval)).1)
      ensures ok ==> forall i :: 0 <= i < |inputs| ==>
        inputs[i].State() == old(FleshOf(inputs[i], SnapshotOf(State()).(blackBox := false), holds, eval)).0
    {
      UnaliasedSplit(inputs, outputs);
      blackBox := false;
      var f := SnapshotOf(State());
      FleshPicks(State(), f, holds, eval);
      ok := ApplyFlesh(f, true, holds, eval);
      if !ok {
        return;
      }
      assert forall i :: 0 <= i < |inputs| ==> FleshOf(inputs[i], f, holds, eval) == old(FleshOf(inputs[i], f, holds, eval));
      ok := FleshEach(inputs, f, holds, eval);
      if !ok {
        return;
      }
      assert forall i :: 0 <= i < |outputs| ==> outputs[i] !in inputs;
      label fleshedInputs:
      ok := FleshEach(outputs, f, holds, eval);
      forall i | 0 <= i < |inputs|
        ensures inputs[i].State() == old@fleshedInputs(inputs[i].State())
      {
        assert inputs[i] !in outputs;
      }
    }

    /**
     * `abstract_new_part`: flesh everything with this abstraction's
     * snapshot, black box off; when something is left to classify, add a
     * part with the selector `NextSelector` picks (`find` standing for the
     * sub-solver's first boolean selector for a type).
     */
    method AbstractNewPart(inputs: seq<Abstraction>, outputs: seq<Abstraction>, holds: Holds, eval: Eval,
                           find: string -> Option<string>, solve: nat -> Attempt)
      returns (ok: bool, ghost chosen: Option<string>)
      requires this !in inputs && this !in outputs
      requires |inputs| == |outputs| && Unaliased(inputs + outputs)
      modifies this, inputs, outputs
      ensures subImages == old(subImages)
      ensures forall x :: x in inputs || x in outputs ==> x.subImages == old(x.subImages)
      ensures chosen.None? ==> !ok && selectors == old(selectors)
      ensures chosen.Some? ==>
        && old(OwnFlesh(holds, eval)).1
        && chosen == NextSelector(old(OwnFlesh(holds, eval)).0.toClassify, find)
        && selectors == old(selectors) + [chosen.value]
      ensures ok ==> |selectors| <= |subImages|
    {
      chosen := None;
      UnaliasedSplit(inputs, outputs);
      ok := FleshEverything(inputs, outputs, holds, eval);
      if !ok {
        return;
      }
      if |toClassify| == 0 {
        return false, None;
      }
      ghost var rest := toClassify;
      var kinds, counts := GroupKinds(toClassify);
      KindsMeaning(toClassify);
      ghost var tried: nat;
      for t := 0 to |kinds|
        invariant FirstUnique(kinds, rest) == FirstUnique(kinds[t..], rest)
      {
        if counts[kinds[t]] == 1 {
          var selector := Discriminator(kinds[t]);
          chosen := Some(selector);
          ok, tried := AddPart(selector, inputs, outputs, holds, eval, solve);
          return;
        }
        assert kinds[t..][1..] == kinds[t + 1..];
      }
      // Every type has two or more sub-images; the search returns within its first round, on the first type.
      var found := find(kinds[0]);
      if found.None? {
        return false, None;
      }
      var selector := SolverPaths.OperatorPath("&&", Discriminator(kinds[0]), found.value);
      chosen := Some(selector);
      ok, tried := AddPart(selector, inputs, outputs, holds, eval, solve);
    }

    /**
     * `abstract_all_parts`: give up unless every input has as many
     * sub-images of each type as this abstraction; add parts while
     * `abstract_new_part` succeeds; then flesh everything once more and
     * succeed exactly when every input is left with nothing to classify.
     */
    method AbstractAllParts(inputs: seq<Abstraction>, outputs: seq<Abstraction>, holds: Holds, eval: Eval,
                            find: string -> Option<string>, solve: nat -> Attempt)
      returns (ok: bool, ghost own: AbsState, ghost ins: seq<AbsState>, ghost outs: seq<AbsState>)
      requires this !in inputs && this !in outputs
      requires |inputs| == |outputs| && Unaliased(inputs + outputs)
      modifies this, inputs, outputs
      ensures subImages == old(subImages)
      ensures !PotentialFor(old(subImages), old(ImagesOf(inputs))) ==> !ok
      ensures |ins| == |inputs| && |outs| == |outputs|
      ensures ok <==>
        && PotentialFor(old(subImages), old(ImagesOf(inputs)))
        && Picks(own.subImages, own.arguments, SnapshotOf(own).(blackBox := false), holds, eval).1
        && (forall i :: 0 <= i < |inputs| ==> Picks(ins[i].subImages, ins[i].arguments, SnapshotOf(own).(blackBox := false), holds, eval).1)
        && (forall i :: 0 <= i < |outputs| ==> Picks(outs[i].subImages, outs[i].arguments, SnapshotOf(own).(blackBox := false), holds, eval).1)
        && (forall i :: 0 <= i < |inputs| ==> Picks(ins[i].subImages, ins[i].arguments, SnapshotOf(own).(blackBox := false), holds, eval).0.toClassify == [])
      ensures ok ==>
        && !blackBox && State() == Picks(own.subImages, own.arguments, SnapshotOf(own).(blackBox := false), holds, eval).0
        && forall i :: 0 <= i < |inputs| ==>
          inputs[i].toClassify == [] && inputs[i].State() == Picks(ins[i].subImages, ins[i].arguments, SnapshotOf(own).(blackBox := false), holds, eval).0
    {
      own, ins, outs := State(), StatesOf(inputs), StatesOf(outputs);
      var potential := CheckPotentialAbstraction(ImagesOf(inputs));
      if !potential {
        return false, own, ins, outs;
      }
      AbstractNewParts(inputs, outputs, holds, eval, find, solve);
      own, ins, outs := State(), StatesOf(inputs), StatesOf(outputs);
      var fine := FleshEverything(inputs, outputs, holds, eval);
      if !fine {
        return false, own, ins, outs;
      }
      ok := NothingToClassify(inputs);
    }

    /** The `while (abstract_new_part(...))` loop: parts are added until one attempt fails; no sub-image list changes. */
    method AbstractNewParts(inputs: seq<Abstraction>, outputs: seq<Abstraction>, holds: Holds, eval: Eval,
                            find: string -> Option<string>, solve: nat -> Attempt)
      requires this !in inputs && this !in outputs
      requires |inputs| == |outputs| && Unaliased(inputs + outputs)
      modifies this, inputs, outputs
      ensures subImages == old(subImages)
      ensures forall x :: x in inputs || x in outputs ==> x.subImages == old(x.subImages)
    {
      while true
        invariant subImages == old(subImages)
        invariant forall x :: x in inputs || x in outputs ==> x.subImages == old(x.subImages)
        decreases if |selectors| <= |subImages| then |subImages| - |selectors| + 1 else 0
      {
        var more;
        ghost var chosen;
        more, chosen := AbstractNewPart(inputs, outputs, holds, eval, find, solve);
        if !more {
          break;
        }
      }
    }

    /** The final check: every input abstraction is left with nothing to classify. */
    method NothingToClassify(inputs: seq<Abstraction>) returns (ok: bool)
      ensures ok <==> forall i :: 0 <= i < |inputs| ==> inputs[i].toClassify == []
    {
      ok := true;
      for i := 0 to |inputs|
        invariant ok <==> forall j :: 0 <= j < i ==> inputs[j].toClassify == []
      {
        if |inputs[i].toClassify| != 0 {
          ok := false;
        }
      }
    }
  }
}
