/**
 * The parts of lib/Solver.ts that need no live solver: the path strings
 * that name a tracked function `F`, the recursive arrays (`RecArray`) that
 * hold per-sample tables, and the index chains of a `Sample` together with
 * the nested mapping arrays those chains address.
 */
module SolverPaths {
  import opened Wrappers
  import GridText
  import Misc

  // ---------------------------------------------------------------- strings

  /** `String.prototype.split` on a one-character separator. */
  function Split(s: string, sep: char): (parts: seq<string>)
    ensures |parts| >= 1
    ensures forall k :: 0 <= k < |parts| ==> sep !in parts[k]
  {
    if |s| == 0 then [""]
    else
      var rest := Split(s[1..], sep);
      if s[0] == sep then [""] + rest else [[s[0]] + rest[0]] + rest[1..]
  }

  /** `Array.prototype.join(glue)`. */
  function Join(parts: seq<string>, glue: string): string
  {
    if |parts| == 0 then "" else if |parts| == 1 then parts[0] else parts[0] + glue + Join(parts[1..], glue)
  }

  /** Every occurrence of `sep` in `s` replaced by `glue`, the rest kept in order. */
  function Replace(s: string, sep: char, glue: string): string
  {
    if |s| == 0 then "" else (if s[0] == sep then glue else [s[0]]) + Replace(s[1..], sep, glue)
  }

  /** `s.split(sep).join(glue)` replaces each separator by `glue`. */
  lemma {:induction false} SplitJoin(s: string, sep: char, glue: string)
    ensures Join(Split(s, sep), glue) == Replace(s, sep, glue)
  {
    if |s| > 0 {
      var rest := Split(s[1..], sep);
      SplitJoin(s[1..], sep, glue);
      if s[0] == sep {
        assert ([""] + rest)[1..] == rest;
      } else if |rest| == 1 {
        assert Split(s, sep) == [[s[0]] + rest[0]];
      } else {
        var parts := [[s[0]] + rest[0]] + rest[1..];
        assert parts[1..] == rest[1..];
        assert Join(rest, glue) == rest[0] + glue + Join(rest[1..], glue);
        assert Join(parts, glue) == [s[0]] + rest[0] + glue + Join(rest[1..], glue);
      }
    }
  }

  lemma {:induction false} ReplaceConcat(a: string, b: string, sep: char, glue: string)
    ensures Replace(a + b, sep, glue) == Replace(a, sep, glue) + Replace(b, sep, glue)
  {
    if |a| > 0 {
      assert (a + b)[1..] == a[1..] + b;
      ReplaceConcat(a[1..], b, sep, glue);
    } else {
      assert a + b == b;
    }
  }

  lemma {:induction false} ReplaceAbsent(s: string, sep: char, glue: string)
    requires sep !in s
    ensures Replace(s, sep, glue) == s
  {
    if |s| > 0 {
      ReplaceAbsent(s[1..], sep, glue);
    }
  }

  /** Replacing twice is replacing once by the replaced replacement. */
  lemma {:induction false} ReplaceTwice(s: string, sep: char, x: string, y: string)
    ensures Replace(Replace(s, sep, x), sep, y) == Replace(s, sep, Replace(x, sep, y))
  {
    if |s| > 0 {
      var head := if s[0] == sep then x else [s[0]];
      ReplaceConcat(head, Replace(s[1..], sep, x), sep, y);
      ReplaceTwice(s[1..], sep, x, y);
      if s[0] != sep {
        assert Replace(head, sep, y) == [s[0]] + Replace([], sep, y);
      }
    }
  }

  // ------------------------------------------------------------------ paths

  /** The path of a new `F`: its name marked with `@`, or the bare name. */
  function PathOf(name: string, pathIsName: bool): string
  {
    if pathIsName then name else "@" + name
  }

  /** `prefix(field)`: every `@` becomes `@field.`. */
  function Prefix(path: string, field: string): string
  {
    Join(Split(path, '@'), "@" + field + ".")
  }

  /** `prefix(f)` with a path function: every `@` becomes `f.path` and a dot. */
  function PrefixByPath(path: string, fieldPath: string): string
  {
    Join(Split(path, '@'), fieldPath + ".")
  }

  /** `prefix_list(field, index)`: every `@` becomes `@field[index].`. */
  function PrefixList(path: string, field: string, index: nat): string
  {
    Join(Split(path, '@'), "@" + field + "[" + GridText.Decimal(index) + "].")
  }

  /** `prefix_generation(field, generation)`: every `@` becomes `@field[iG].`. */
  function PrefixGeneration(path: string, field: string, generation: nat): string
  {
    Join(Split(path, '@'), "@" + field + "[i" + GridText.Decimal(generation) + "].")
  }

  /** `F.not`. */
  function NotPath(path: string): string
  {
    "!" + path
  }

  /** `F.operator(symbol, …)(a, b)`. */
  function OperatorPath(symbol: string, a: string, b: string): string
  {
    "(" + a + " " + symbol + " " + b + ")"
  }

  /** `F.operator_v(symbol, …)(v)` as written: an opening parenthesis that is never closed. */
  function OperatorVPath(symbol: string, paths: seq<string>): string
  {
    "(" + Join(paths, " " + symbol + " ")
  }

  /** `F.operator_v(symbol, …)(v)` with the closing parenthesis the binary operator writes. */
  function ClosedOperatorVPath(symbol: string, paths: seq<string>): string
  {
    OperatorVPath(symbol, paths) + ")"
  }

  /** Prefixing a fresh path puts the field between the mark and the name. */
  lemma PrefixFresh(name: string, field: string)
    requires '@' !in name
    ensures Prefix(PathOf(name, false), field) == "@" + field + "." + name
  {
    var glue := "@" + field + ".";
    SplitJoin("@" + name, '@', glue);
    ReplaceConcat("@", name, '@', glue);
    ReplaceAbsent(name, '@', glue);
    assert Replace("@", '@', glue) == glue + Replace("", '@', glue);
  }

  /** A path without marks, such as that of a constant, is left alone by every prefix. */
  lemma PrefixUnmarked(path: string, field: string)
    requires '@' !in path
    ensures Prefix(path, field) == path
  {
    SplitJoin(path, '@', "@" + field + ".");
    ReplaceAbsent(path, '@', "@" + field + ".");
  }

  /** Replacing within a one-character string. */
  lemma ReplaceChar(c: char, sep: char, glue: string)
    ensures Replace([c], sep, glue) == if c == sep then glue else [c]
  {
    assert [c][1..] == [];
  }

  /** Prefixing by `a` and then by `b` inserts `b.a.` after every mark. */
  lemma PrefixTwice(path: string, a: string, b: string)
    requires '@' !in a
    ensures Prefix(Prefix(path, a), b) == Replace(path, '@', "@" + b + "." + a + ".")
  {
    var x, y := "@" + a + ".", "@" + b + ".";
    SplitJoin(path, '@', x);
    SplitJoin(Replace(path, '@', x), '@', y);
    ReplaceTwice(path, '@', x, y);
    assert x == "@" + (a + ".");
    ReplaceConcat("@", a + ".", '@', y);
    ReplaceConcat(a, ".", '@', y);
    ReplaceAbsent(a, '@', y);
    ReplaceChar('@', '@', y);
    ReplaceChar('.', '@', y);
    assert Replace(x, '@', y) == y + (a + ".");
    assert y + (a + ".") == "@" + b + "." + a + ".";
  }

  /** Prefixing commutes with negation. */
  lemma PrefixNot(a: string, field: string)
    ensures Prefix(NotPath(a), field) == NotPath(Prefix(a, field))
  {
    var glue := "@" + field + ".";
    SplitJoin(a, '@', glue);
    SplitJoin(NotPath(a), '@', glue);
    ReplaceConcat("!", a, '@', glue);
    ReplaceChar('!', '@', glue);
  }

  /** An operator path nests as an opening parenthesis, `a`, the spaced symbol, `b` and a closing parenthesis. */
  lemma OperatorPathNests(symbol: string, a: string, b: string)
    ensures OperatorPath(symbol, a, b) == "(" + (a + ((" " + symbol + " ") + (b + ")")))
  {
  }

  lemma {:induction false} ReplaceOperator(a: string, b: string, symbol: string, glue: string)
    requires '@' !in symbol
    ensures Replace(OperatorPath(symbol, a, b), '@', glue)
            == OperatorPath(symbol, Replace(a, '@', glue), Replace(b, '@', glue))
  {
    var mid := " " + symbol + " ";
    var t3 := b + ")";
    var t2 := mid + t3;
    var t1 := a + t2;
    OperatorPathNests(symbol, a, b);
    ReplaceConcat(b, ")", '@', glue);
    ReplaceChar(')', '@', glue);
    assert Replace(t3, '@', glue) == Replace(b, '@', glue) + ")";
    ReplaceConcat(mid, t3, '@', glue);
    ReplaceAbsent(mid, '@', glue);
    ReplaceConcat(a, t2, '@', glue);
    ReplaceConcat("(", t1, '@', glue);
    ReplaceChar('(', '@', glue);
    OperatorPathNests(symbol, Replace(a, '@', glue), Replace(b, '@', glue));
  }

  /** Prefixing commutes with a binary operator whose symbol has no mark. */
  lemma PrefixOperator(a: string, b: string, symbol: string, field: string)
    requires '@' !in symbol
    ensures Prefix(OperatorPath(symbol, a, b), field) == OperatorPath(symbol, Prefix(a, field), Prefix(b, field))
  {
    var glue := "@" + field + ".";
    ReplaceOperator(a, b, symbol, glue);
    SplitJoin(a, '@', glue);
    SplitJoin(b, '@', glue);
    SplitJoin(OperatorPath(symbol, a, b), '@', glue);
  }

  /** As written, the path of `operator_v` over two paths is the binary operator's path without its last character. */
  lemma OperatorVUnclosed(symbol: string, a: string, b: string)
    ensures OperatorVPath(symbol, [a, b]) + ")" == OperatorPath(symbol, a, b)
    ensures OperatorVPath(symbol, [a, b]) != OperatorPath(symbol, a, b)
  {
    var glue := " " + symbol + " ";
    assert [a, b][1..] == [b];
    assert Join([a, b], glue) == a + glue + b;
    assert OperatorVPath(symbol, [a, b]) + ")" == "(" + (a + glue + b) + ")";
    assert |OperatorVPath(symbol, [a, b])| + 1 == |OperatorPath(symbol, a, b)|;
  }

  /** Closed, `operator_v` over two paths writes what the binary operator writes, and one path is just parenthesised. */
  lemma ClosedOperatorV(symbol: string, a: string, b: string)
    ensures ClosedOperatorVPath(symbol, [a, b]) == OperatorPath(symbol, a, b)
    ensures ClosedOperatorVPath(symbol, [a]) == "(" + a + ")"
  {
    var glue := " " + symbol + " ";
    assert [a, b][1..] == [b];
    assert Join([a, b], glue) == a + glue + b;
    assert ClosedOperatorVPath(symbol, [a, b]) == "(" + (a + glue + b) + ")";
  }

  // ------------------------------------------------------------- RecArray

  /**
   * `RecArray<X>`: an array of values or an array of such arrays. The
   * empty array is written `Flat([])` or `Nested([])`; JavaScript cannot
   * tell them apart and neither do the functions below.
   */
  datatype RecArray<X> = Flat(items: seq<X>) | Nested(arrays: seq<RecArray<X>>)

  /** `map_rec_array`: `f` applied to each value with its index in its own array. */
  function MapRec<X, Y>(r: RecArray<X>, f: (X, int) -> Y): (m: RecArray<Y>)
    ensures r.Flat? ==> (m.Flat? && |m.items| == |r.items|
                         && forall i :: 0 <= i < |r.items| ==> m.items[i] == f(r.items[i], i))
    ensures r.Nested? ==> m.Nested? && |m.arrays| == |r.arrays|
    decreases r
  {
    match r
    case Flat(xs) => Flat(seq(|xs|, i requires 0 <= i < |xs| => f(xs[i], i)))
    case Nested(subs) => Nested(seq(|subs|, i requires 0 <= i < |subs| => MapRec(subs[i], f)))
  }

  /** `any_rec_array`: some value satisfies `f`. */
  predicate AnyRec<X>(r: RecArray<X>, f: X -> bool)
    decreases r
  {
    match r
    case Flat(xs) => exists i :: 0 <= i < |xs| && f(xs[i])
    case Nested(subs) => exists i :: 0 <= i < |subs| && AnyRec(subs[i], f)
  }

  /** `flatten_rec_array`: the values in order, through `append_vectors`. */
  function Flatten<X>(r: RecArray<X>): seq<X>
    decreases r
  {
    match r
    case Flat(xs) => xs
    case Nested(subs) => Misc.Concat(seq(|subs|, i requires 0 <= i < |subs| => Flatten(subs[i])))
  }

  /** Two arrays of the same nesting, with the same lengths at every level. */
  predicate SameShape<X, Y>(a: RecArray<X>, b: RecArray<Y>)
    decreases a
  {
    match a
    case Flat(xs) => b.Flat? && |b.items| == |xs|
    case Nested(subs) => b.Nested? && |b.arrays| == |subs|
                         && forall i :: 0 <= i < |subs| ==> SameShape(subs[i], b.arrays[i])
  }

  /** Mapping keeps the shape. */
  lemma {:induction false} MapRecShape<X, Y>(r: RecArray<X>, f: (X, int) -> Y)
    ensures SameShape(r, MapRec(r, f))
    decreases r
  {
    match r
    case Flat(xs) =>
    case Nested(subs) =>
      forall i | 0 <= i < |subs|
        ensures SameShape(subs[i], MapRec(r, f).arrays[i])
      {
        MapRecShape(subs[i], f);
      }
  }

  /** `any_rec_array` holds exactly when some flattened value satisfies `f`. */
  lemma {:induction false} AnyRecFlatten<X>(r: RecArray<X>, f: X -> bool)
    ensures AnyRec(r, f) <==> exists x :: x in Flatten(r) && f(x)
    decreases r
  {
    match r
    case Flat(xs) =>
      if exists x :: x in xs && f(x) {
        var x :| x in xs && f(x);
        var i :| 0 <= i < |xs| && xs[i] == x;
      }
    case Nested(subs) =>
      var parts := seq(|subs|, i requires 0 <= i < |subs| => Flatten(subs[i]));
      if AnyRec(r, f) {
        var i :| 0 <= i < |subs| && AnyRec(subs[i], f);
        AnyRecFlatten(subs[i], f);
        var x :| x in Flatten(subs[i]) && f(x);
        Misc.ConcatMembers(parts, x);
        assert x in parts[i];
      }
      if exists x :: x in Flatten(r) && f(x) {
        var x :| x in Flatten(r) && f(x);
        Misc.ConcatMembers(parts, x);
        var i :| 0 <= i < |parts| && x in parts[i];
        AnyRecFlatten(subs[i], f);
      }
  }

  // ------------------------------------------------- samples and mappings

  /**
   * A sample: its index chain, and for each side the image, the index of
   * the top-level example and the chain of sub-image indices below it.
   */
  datatype Sample<I> = Sample(unmaskIndex: nat, indices: seq<nat>,
                              inputImage: I, inputIndex0: nat, inputIndices: seq<nat>,
                              outputImage: I, outputIndex0: nat, outputIndices: seq<nat>)

  /** `raise`: one generation deeper, with both images kept; its lookup chain goes one position further. */
  function Raise<I>(s: Sample<I>, unmaskIndex: nat, index: nat, inputIndex: nat, outputIndex: nat): (r: Sample<I>)
    ensures Chain(r) == Chain(s) + [inputIndex]
    ensures r.indices == s.indices + [index] && r.inputIndices == s.inputIndices + [inputIndex]
            && r.outputIndices == s.outputIndices + [outputIndex]
    ensures r.unmaskIndex == unmaskIndex
    ensures r.inputImage == s.inputImage && r.outputImage == s.outputImage
            && r.inputIndex0 == s.inputIndex0 && r.outputIndex0 == s.outputIndex0
  {
    Sample(unmaskIndex, s.indices + [index], s.inputImage, s.inputIndex0, s.inputIndices + [inputIndex],
           s.outputImage, s.outputIndex0, s.outputIndices + [outputIndex])
  }

  /** The positions a sample's mapping lookups go through. */
  function Chain<I>(s: Sample<I>): (c: seq<nat>)
  {
    [s.inputIndex0] + s.inputIndices
  }

  /** A nested mapping array: a hole (`undefined`), a number or an array. */
  datatype Nest = Hole | Number(n: int) | Array(elems: seq<Nest>)

  /** `mapping[i]` on an array, a hole past its end; anything else throws. */
  function Index(m: Nest, i: nat): Result<Nest>
  {
    if !m.Array? then Failure("Expecting an array")
    else if i < |m.elems| then Success(m.elems[i]) else Success(Hole)
  }

  /** Indexing along a chain of positions, as `update_mapping` does step by step. */
  function Walk(m: Nest, path: seq<nat>): Result<Nest>
    decreases |path|
  {
    if |path| == 0 then Success(m)
    else
      match Index(m, path[0])
      case Failure(e) => Failure(e)
      case Success(c) => Walk(c, path[1..])
  }

  /** A walk one position longer indexes the entry the shorter walk reaches. */
  lemma {:induction false} WalkSnoc(m: Nest, path: seq<nat>, i: nat)
    ensures Walk(m, path + [i]) == match Walk(m, path)
                                    case Failure(e) => Failure(e)
                                    case Success(x) => Index(x, i)
    decreases |path|
  {
    if |path| == 0 {
      assert ([] + [i])[1..] == [];
    } else {
      assert (path + [i])[0] == path[0] && (path + [i])[1..] == path[1..] + [i];
      match Index(m, path[0])
      case Failure(e) =>
      case Success(c) => WalkSnoc(c, path[1..], i);
    }
  }

  /** `get_mapping`: the entry the sample's chain leads to. */
  function GetMapping<I>(s: Sample<I>, m: Nest): Result<Nest>
  {
    Walk(m, Chain(s))
  }

  /** `output_mapping`: one more step by `finalIndex`, and the entry must not be an array. */
  function OutputMapping<I>(s: Sample<I>, m: Nest, finalIndex: nat): Result<Nest>
  {
    match Walk(m, Chain(s) + [finalIndex])
    case Failure(e) => Failure(e)
    case Success(x) => if x.Array? then Failure("Expecting a value") else Success(x)
  }

  /** An assignment `elems[i] = x`: past the end, the array grows with holes. */
  function Store(elems: seq<Nest>, i: nat, x: Nest): (r: seq<Nest>)
    ensures |r| == if i < |elems| then |elems| else i + 1
    ensures r[i] == x
    ensures forall j :: 0 <= j < |r| && j != i ==> r[j] == if j < |elems| then elems[j] else Hole
  {
    if i < |elems| then elems[i := x] else elems + seq(i - |elems|, _ => Hole) + [x]
  }

  /** The entry at position i of an array, a hole past the end. */
  function Entry(m: Nest, i: nat): Nest
    requires m.Array?
  {
    if i < |m.elems| then m.elems[i] else Hole
  }

  /**
   * The walk of `set_mapping`: holes met on the way become empty arrays,
   * the last position receives `x`, and a number on the way throws.
   */
  function SetAt(m: Nest, path: seq<nat>, x: Nest): Result<Nest>
    requires |path| > 0
    decreases |path|
  {
    if !m.Array? then Failure("Expecting an array")
    else if |path| == 1 then Success(Array(Store(m.elems, path[0], x)))
    else
      var child := Entry(m, path[0]);
      match SetAt(if child.Hole? then Array([]) else child, path[1..], x)
      case Failure(e) => Failure(e)
      case Success(c) => Success(Array(Store(m.elems, path[0], c)))
  }

  /** `set_mapping`: stores a number at the sample's chain. */
  function SetMapping<I>(s: Sample<I>, m: Nest, x: int): Result<Nest>
  {
    SetAt(m, Chain(s), Number(x))
  }

  /** The chain can be written: the root is an array and no number stands in the way. */
  predicate Settable(m: Nest, path: seq<nat>)
    requires |path| > 0
    decreases |path|
  {
    m.Array? && (|path| == 1 || (var c := Entry(m, path[0]); c.Hole? || Settable(c, path[1..])))
  }

  /** Writing succeeds exactly along a settable chain. */
  lemma {:induction false} SetAtSucceeds(m: Nest, path: seq<nat>, x: Nest)
    requires |path| > 0
    ensures SetAt(m, path, x).Success? <==> Settable(m, path)
    decreases |path|
  {
    if m.Array? && |path| > 1 {
      var c := Entry(m, path[0]);
      if c.Hole? {
        SetAtSucceeds(Array([]), path[1..], x);
        assert Settable(Array([]), path[1..]) by {
          if |path[1..]| > 1 {
            assert Entry(Array([]), path[1..][0]) == Hole;
          }
        }
      } else {
        SetAtSucceeds(c, path[1..], x);
      }
    }
  }

  /** After a successful write, walking the same chain finds what was written. */
  lemma {:induction false} WalkAfterSetAt(m: Nest, path: seq<nat>, x: Nest, m': Nest)
    requires |path| > 0
    requires SetAt(m, path, x) == Success(m')
    ensures Walk(m', path) == Success(x)
    decreases |path|
  {
    if |path| > 1 {
      var child := Entry(m, path[0]);
      var c :| SetAt(if child.Hole? then Array([]) else child, path[1..], x) == Success(c)
               && m' == Array(Store(m.elems, path[0], c));
      WalkAfterSetAt(if child.Hole? then Array([]) else child, path[1..], x, c);
    } else {
      assert path[1..] == [];
    }
  }

  /** After a successful write, a read that succeeded before along a chain parting from the written one reads the same. */
  lemma {:induction false} WalkAwayFromSetAt(m: Nest, path: seq<nat>, x: Nest, m': Nest, q: seq<nat>, d: nat)
    requires |path| > 0
    requires SetAt(m, path, x) == Success(m')
    requires d < |path| && d < |q| && q[..d] == path[..d] && q[d] != path[d]
    requires Walk(m, q).Success?
    ensures Walk(m', q) == Walk(m, q)
    decreases d
  {
    var child := Entry(m, path[0]);
    if d == 0 {
      if |path| == 1 {
        assert Index(m', q[0]) == Index(m, q[0]);
      } else {
        var c :| SetAt(if child.Hole? then Array([]) else child, path[1..], x) == Success(c)
                 && m' == Array(Store(m.elems, path[0], c));
        assert Index(m', q[0]) == Index(m, q[0]);
      }
    } else {
      assert q[0] == q[..d][0] == path[..d][0] == path[0];
      assert Walk(m, q) == Walk(child, q[1..]);
      assert !child.Hole? by {
        assert |q[1..]| > 0;
      }
      var c :| SetAt(child, path[1..], x) == Success(c) && m' == Array(Store(m.elems, path[0], c));
      assert q[1..][..d - 1] == q[..d][1..] == path[..d][1..] == path[1..][..d - 1];
      WalkAwayFromSetAt(child, path[1..], x, c, q[1..], d - 1);
      assert Index(m', q[0]) == Success(c);
    }
  }

  /** `get_mapping` after `set_mapping` on the same sample returns the stored number. */
  lemma GetAfterSetMapping<I>(s: Sample<I>, m: Nest, x: int, m': Nest)
    requires SetMapping(s, m, x) == Success(m')
    ensures GetMapping(s, m') == Success(Number(x))
  {
    WalkAfterSetAt(m, Chain(s), Number(x), m');
  }

  /** `output_mapping(m, i)` reads what `get_mapping` reads on the sample raised by `i`, refusing arrays. */
  lemma OutputMappingIsRaisedGet<I>(s: Sample<I>, m: Nest, i: nat, u: nat, k: nat, o: nat)
    ensures OutputMapping(s, m, i) == match GetMapping(Raise(s, u, k, i, o), m)
                                      case Failure(e) => Failure(e)
                                      case Success(x) => if x.Array? then Failure("Expecting a value") else Success(x)
  {
    assert Chain(Raise(s, u, k, i, o)) == Chain(s) + [i];
  }

  /** The mapping entry of a raised sample is entry `inputIndex` of the array the sample's own entry is. */
  lemma RaisedLookup<I>(s: Sample<I>, m: Nest, u: nat, k: nat, i: nat, o: nat)
    ensures GetMapping(Raise(s, u, k, i, o), m) == match GetMapping(s, m)
                                                  case Failure(e) => Failure(e)
                                                  case Success(x) => Index(x, i)
  {
    WalkSnoc(m, Chain(s), i);
  }

  /** What a solver's `mapping` can be: absent, a nested table, or a predicate over the raised input. */
  datatype Mapping<!I> = NoMapping | Table(nest: Nest) | Predicate(holds: (I, seq<nat>) -> bool)

  /** `test_mapping`: a predicate is asked about the sample raised by `i`, a table must hold a non-negative number. */
  function TestMapping<I>(s: Sample<I>, mapping: Mapping<I>, i: nat): (r: Result<bool>)
    ensures mapping.NoMapping? ==> r == Success(true)
    ensures mapping.Predicate? ==> r == Success(mapping.holds(s.inputImage, s.inputIndices + [i]))
    ensures mapping.Table? && r == Success(true) ==>
              (var o := OutputMapping(s, mapping.nest, i); o.Success? && o.value.Number? && o.value.n >= 0)
  {
    match mapping
    case NoMapping => Success(true)
    case Predicate(holds) =>
      var sub := Raise(s, 0, 0, i, i);
      Success(holds(sub.inputImage, sub.inputIndices))
    case Table(nest) =>
      match OutputMapping(s, nest, i)
      case Failure(e) => Failure(e)
      case Success(x) => Success(x.Number? && x.n >= 0)
  }
}
