/**
 * The decomposer tree of lib/DecomposersData.ts: a plain record that names
 * a way of reading a grid as an image, with optional nested decomposers and
 * parameters, and the pure operations on it (builders, normalisation, key,
 * clone, pruning of failed alternatives, and the split of a chain into the
 * part above its root decomposer, the root and the part below it).
 *
 * A JavaScript field that is absent and one that holds `undefined` are the
 * same here: `None` (or `Unlisted` for the list of nested decomposers).
 */
module DecomposersData {
  import opened Wrappers
  import opened Colors
  import opened Transforms
  import opened GridText

  datatype Decomposer = Decomposer(
    name: string,
    decomposer: Option<Decomposer>,
    decomposer2: Option<Decomposer>,
    decomposers: List,
    transform: Option<Transform>,
    backgroundColor: Option<Color>,
    abstractionName: Option<string>,
    fixedSize: Option<bool>,
    defaultGridColor: Option<Color>,
    sx: Option<int>,
    sy: Option<int>,
    nx: Option<int>,
    ny: Option<int>,
    failed: Option<bool>)

  /** The optional list of nested decomposers (`decomposers?: Decomposer[]`). */
  datatype List = Unlisted | Listed(items: seq<Decomposer>)

  // ------------------------------------------------------------ builders

  /** A node that carries only its name. */
  function Named(name: string): Decomposer
  {
    Decomposer(name, None, None, Unlisted, None, None, None, None, None, None, None, None, None, None)
  }

  function WithChild(name: string, d: Decomposer): Decomposer
  {
    Named(name).(decomposer := Some(d))
  }

  function ImageWindow(d: Decomposer): Decomposer { WithChild("image_window", d) }
  function BasicGrid(): Decomposer { Named("basic_grid") }
  function ObjectList(d: Decomposer): Decomposer { WithChild("object_list", d) }
  function ObjectList2(d: Decomposer): Decomposer { WithChild("object_list2", d) }
  function BlockList(d: Decomposer): Decomposer { WithChild("block_list", d) }
  function Scaled(d: Decomposer): Decomposer { WithChild("scaled", d) }
  function Tile(d: Decomposer): Decomposer { WithChild("tile", d) }
  function TileX(d: Decomposer): Decomposer { WithChild("tile_x", d) }
  function TileY(d: Decomposer): Decomposer { WithChild("tile_y", d) }
  function TransformOf(t: Transform, d: Decomposer): Decomposer { WithChild("transform", d).(transform := Some(t)) }
  function SemanticBox(): Decomposer { Named("semantic_box") }
  function TrimObject(d: Decomposer): Decomposer { WithChild("trim_object", d) }
  function TrimObjectCenter(d: Decomposer): Decomposer { WithChild("trim_object_center", d) }
  function Monochrome(d: Decomposer): Decomposer { WithChild("monochrome", d) }
  function SolidColor(): Decomposer { Named("solid_color") }
  function Background(background: Option<Color>, d: Decomposer): Decomposer
  {
    WithChild("background", d).(backgroundColor := background)
  }
  function ColorDecomposition(d: Decomposer): Decomposer { WithChild("color_decomposition", d) }
  function MonochromeObjectList(d: Decomposer): Decomposer { WithChild("monochrome_object_list", d) }
  function MonochromeObjectListAbstraction(abstraction: string, ds: seq<Decomposer>): Decomposer
  {
    Named("monochrome_object_list_abstraction").(abstractionName := Some(abstraction), decomposers := Listed(ds))
  }
  function MonochromeDecompositionAbstraction(abstraction: string, ds: seq<Decomposer>): Decomposer
  {
    Named("monochrome_decomposition_abstraction").(abstractionName := Some(abstraction), decomposers := Listed(ds))
  }
  function SimpleAbstraction(abstraction: string, d: Decomposer): Decomposer
  {
    WithChild("simple_abstraction", d).(abstractionName := Some(abstraction))
  }
  function MonochromeObjectList2(d: Decomposer): Decomposer { WithChild("monochrome_object_list2", d) }
  /** `horizontal_decomposition(d, fixed_size = false)`. */
  function HorizontalDecomposition(d: Decomposer, fixedSize: bool): Decomposer
  {
    WithChild("horizontal_decomposition", d).(fixedSize := Some(fixedSize))
  }
  function Complement(d: Decomposer): Decomposer { WithChild("complement", d) }
  /** `find_master_grid(d, default_grid_color?, fixed_size = false)`. */
  function FindMasterGrid(d: Decomposer, defaultGridColor: Option<Color>, fixedSize: bool): Decomposer
  {
    WithChild("find_master_grid", d).(defaultGridColor := defaultGridColor, fixedSize := Some(fixedSize))
  }
  function MasterGrid(sx: int, sy: int, d: Decomposer): Decomposer
  {
    WithChild("master_grid", d).(sx := Some(sx), sy := Some(sy))
  }
  function MasterGrid2(nx: int, ny: int, d: Decomposer): Decomposer
  {
    WithChild("master_grid2", d).(nx := Some(nx), ny := Some(ny))
  }
  function PixelGrid(): Decomposer { Named("pixel_grid") }
  function AddInfo(d: Decomposer, d2: Decomposer): Decomposer
  {
    WithChild("add_info", d).(decomposer2 := Some(d2))
  }
  function Centered(d: Decomposer): Decomposer { WithChild("centered", d) }
  function Alternatives(ds: seq<Decomposer>): Decomposer
  {
    Named("alternatives").(decomposers := Listed(ds))
  }

  /** The names of the fields a node carries. */
  function Fields(d: Decomposer): set<string>
  {
    {"name"}
    + (if d.decomposer.Some? then {"decomposer"} else {})
    + (if d.decomposer2.Some? then {"decomposer2"} else {})
    + (if d.decomposers.Listed? then {"decomposers"} else {})
    + (if d.transform.Some? then {"transform"} else {})
    + (if d.backgroundColor.Some? then {"background_color"} else {})
    + (if d.abstractionName.Some? then {"abstraction_name"} else {})
    + (if d.fixedSize.Some? then {"fixed_size"} else {})
    + (if d.defaultGridColor.Some? then {"default_grid_color"} else {})
    + (if d.sx.Some? then {"sx"} else {})
    + (if d.sy.Some? then {"sy"} else {})
    + (if d.nx.Some? then {"nx"} else {})
    + (if d.ny.Some? then {"ny"} else {})
    + (if d.failed.Some? then {"failed"} else {})
  }

  /**
   * Each builder makes a node with its own name and only the fields it is
   * given, holding the given values.
   */
  lemma BuildersSetOnlyTheirFields(d: Decomposer, d2: Decomposer, ds: seq<Decomposer>, t: Transform, c: Color, a: string, b: bool, m: int, n: int)
    ensures var r := MasterGrid2(m, n, d);
      r.name == "master_grid2" && r.nx == Some(m) && r.ny == Some(n) && r.decomposer == Some(d)
      && Fields(r) == {"name", "nx", "ny", "decomposer"}
    ensures var r := MasterGrid(m, n, d);
      r.name == "master_grid" && r.sx == Some(m) && r.sy == Some(n) && r.decomposer == Some(d)
      && Fields(r) == {"name", "sx", "sy", "decomposer"}
    ensures var r := Background(Some(c), d);
      r.name == "background" && r.backgroundColor == Some(c) && r.decomposer == Some(d)
      && Fields(r) == {"name", "background_color", "decomposer"}
    ensures Fields(Background(None, d)) == {"name", "decomposer"}
    ensures var r := TransformOf(t, d);
      r.name == "transform" && r.transform == Some(t) && Fields(r) == {"name", "transform", "decomposer"}
    ensures var r := AddInfo(d, d2);
      r.name == "add_info" && r.decomposer == Some(d) && r.decomposer2 == Some(d2)
      && Fields(r) == {"name", "decomposer", "decomposer2"}
    ensures var r := Alternatives(ds);
      r.name == "alternatives" && r.decomposers == Listed(ds) && Fields(r) == {"name", "decomposers"}
    ensures var r := MonochromeObjectListAbstraction(a, ds);
      r.abstractionName == Some(a) && r.decomposers == Listed(ds) && Fields(r) == {"name", "abstraction_name", "decomposers"}
    ensures var r := FindMasterGrid(d, None, b);
      r.fixedSize == Some(b) && Fields(r) == {"name", "fixed_size", "decomposer"}
    ensures var r := HorizontalDecomposition(d, b);
      r.fixedSize == Some(b) && Fields(r) == {"name", "fixed_size", "decomposer"}
    ensures Fields(ObjectList(d)) == {"name", "decomposer"} && ObjectList(d).name == "object_list"
    ensures Fields(BasicGrid()) == {"name"} && BasicGrid().name == "basic_grid"
  {
    GridBuildersFields(d, c, m, n);
    WrapperBuildersFields(d, d2, t);
    ListBuildersFields(d, ds, a, b);
  }

  /** The master-grid and background builders. */
  lemma GridBuildersFields(d: Decomposer, c: Color, m: int, n: int)
    ensures var r := MasterGrid2(m, n, d);
      r.name == "master_grid2" && r.nx == Some(m) && r.ny == Some(n) && r.decomposer == Some(d)
      && Fields(r) == {"name", "nx", "ny", "decomposer"}
    ensures var r := MasterGrid(m, n, d);
      r.name == "master_grid" && r.sx == Some(m) && r.sy == Some(n) && r.decomposer == Some(d)
      && Fields(r) == {"name", "sx", "sy", "decomposer"}
    ensures var r := Background(Some(c), d);
      r.name == "background" && r.backgroundColor == Some(c) && r.decomposer == Some(d)
      && Fields(r) == {"name", "background_color", "decomposer"}
    ensures Fields(Background(None, d)) == {"name", "decomposer"}
  {
  }

  /** The transform and add-info builders. */
  lemma WrapperBuildersFields(d: Decomposer, d2: Decomposer, t: Transform)
    ensures var r := TransformOf(t, d);
      r.name == "transform" && r.transform == Some(t) && Fields(r) == {"name", "transform", "decomposer"}
    ensures var r := AddInfo(d, d2);
      r.name == "add_info" && r.decomposer == Some(d) && r.decomposer2 == Some(d2)
      && Fields(r) == {"name", "decomposer", "decomposer2"}
  {
  }

  /** The list, flag and leaf builders. */
  lemma ListBuildersFields(d: Decomposer, ds: seq<Decomposer>, a: string, b: bool)
    ensures var r := Alternatives(ds);
      r.name == "alternatives" && r.decomposers == Listed(ds) && Fields(r) == {"name", "decomposers"}
    ensures var r := MonochromeObjectListAbstraction(a, ds);
      r.abstractionName == Some(a) && r.decomposers == Listed(ds) && Fields(r) == {"name", "abstraction_name", "decomposers"}
    ensures var r := FindMasterGrid(d, None, b);
      r.fixedSize == Some(b) && Fields(r) == {"name", "fixed_size", "decomposer"}
    ensures var r := HorizontalDecomposition(d, b);
      r.fixedSize == Some(b) && Fields(r) == {"name", "fixed_size", "decomposer"}
    ensures Fields(ObjectList(d)) == {"name", "decomposer"} && ObjectList(d).name == "object_list"
    ensures Fields(BasicGrid()) == {"name"} && BasicGrid().name == "basic_grid"
  {
  }

  // ------------------------------------------------------------ normalisation

  /** `normalize_decomposer`: image windows and basic grids as they are, anything else wrapped in an image window. */
  function Normalize(d: Decomposer): (r: Decomposer)
    ensures r.name == "image_window" || r.name == "basic_grid"
    ensures d.name == "image_window" || d.name == "basic_grid" ==> r == d
    ensures d.name != "image_window" && d.name != "basic_grid" ==> r.decomposer == Some(d)
  {
    if d.name == "image_window" || d.name == "basic_grid" then d else ImageWindow(d)
  }

  /** Normalising twice is normalising once. */
  lemma NormalizeIdempotent(d: Decomposer)
    ensures Normalize(Normalize(d)) == Normalize(d)
  {
  }

  // ------------------------------------------------------------ key

  /** The index of a transform in the enumeration; its `toString`. */
  function TransformIndex(t: Transform): (k: nat)
    ensures k == 0 <==> t.Identity?
    ensures k <= 14
  {
    match t
    case Identity => 0
    case FlipX => 1
    case FlipY => 2
    case Rotate90 => 3
    case Rotate180 => 4
    case Rotate270 => 5
    case Transpose => 6
    case OppositeTranspose => 7
    case TileX => 8
    case TileY => 9
    case Tile => 10
    case PingPongX => 11
    case PingPongY => 12
    case PingPong => 13
    case Rotation => 14
  }

  /** `n.toString()` for an integer. */
  function NumberText(n: int): (s: string)
    ensures |s| > 0
  {
    if n < 0 then "-" + Decimal(-n) else Decimal(n)
  }

  /** A number field as the key writes it: nothing when absent or 0 (falsy), its digits otherwise. */
  function NumberField(v: Option<int>): (s: string)
    ensures s == "" <==> v.None? || v.value == 0
  {
    if v.Some? && v.value != 0 then NumberText(v.value) else ""
  }

  /** `filter(x => x !== "")`. */
  function NonEmpty(parts: seq<string>): (r: seq<string>)
    ensures forall i :: 0 <= i < |r| ==> r[i] != "" && r[i] in parts
    ensures forall x :: x in parts && x != "" ==> x in r
  {
    if |parts| == 0 then []
    else if parts[0] == "" then NonEmpty(parts[1..])
    else [parts[0]] + NonEmpty(parts[1..])
  }

  /** The key fields of a node that are not nested decomposers, in field order. */
  function ParameterParts(d: Decomposer): seq<string>
  {
    [ if d.transform.Some? && !d.transform.value.Identity? then NumberText(TransformIndex(d.transform.value)) else "",
      NumberField(d.backgroundColor),
      if d.fixedSize == Some(true) then "true" else "",
      NumberField(d.defaultGridColor),
      NumberField(d.sx),
      NumberField(d.sy),
      NumberField(d.nx),
      NumberField(d.ny) ]
  }

  /**
   * `decomposer_to_key` of one node: `name(part,part,...)`, the parts being
   * the nested keys and then the parameters, in field order.
   * `abstraction_name` and `failed` are not part of it, and a falsy value
   * (0, `false`, the identity transform) writes nothing.
   */
  function Key(d: Decomposer): string
    decreases d
  {
    d.name + "(" + Join(NonEmpty(
      [ if d.decomposer.Some? then Key(d.decomposer.value) else "",
        if d.decomposer2.Some? then Key(d.decomposer2.value) else "",
        ListKey(d.decomposers) ]
      + ParameterParts(d))) + ")"
  }

  /** The key of a list of nested decomposers: their keys bracketed; nothing when there is no list. */
  function ListKey(l: List): string
    decreases l
  {
    if l.Unlisted? then ""
    else "[" + Join(seq(|l.items|, i requires 0 <= i < |l.items| => Key(l.items[i]))) + "]"
  }

  /** `decomposer_to_key` of `undefined`. */
  function OptionKey(d: Option<Decomposer>): string
  {
    if d.None? then "none" else Key(d.value)
  }

  /**
   * Falsy parameters are left out of the key: a background colour of 0,
   * size or count parameters of 0, `fixed_size` false and the identity
   * transform give the key of the node without that field; so do
   * `abstraction_name` and `failed`, which the key never writes.
   */
  lemma {:induction false} KeyOmitsFalsyFields(d: Decomposer)
    ensures Key(d.(backgroundColor := Some(Black))) == Key(d.(backgroundColor := None))
    ensures Key(d.(defaultGridColor := Some(Black))) == Key(d.(defaultGridColor := None))
    ensures Key(d.(sx := Some(0))) == Key(d.(sx := None))
    ensures Key(d.(sy := Some(0))) == Key(d.(sy := None))
    ensures Key(d.(nx := Some(0))) == Key(d.(nx := None))
    ensures Key(d.(ny := Some(0))) == Key(d.(ny := None))
    ensures Key(d.(fixedSize := Some(false))) == Key(d.(fixedSize := None))
    ensures Key(d.(transform := Some(Identity))) == Key(d.(transform := None))
    ensures Key(d.(failed := Some(true))) == Key(d)
    ensures Key(d.(abstractionName := None)) == Key(d)
  {
    KeyOmitsBlack(d);
    KeyOmitsZeroSizes(d);
    KeyOmitsFalsyFlags(d);
  }

  /** A colour of 0 (black) writes nothing in the key. */
  lemma {:induction false} KeyOmitsBlack(d: Decomposer)
    ensures Key(d.(backgroundColor := Some(Black))) == Key(d.(backgroundColor := None))
    ensures Key(d.(defaultGridColor := Some(Black))) == Key(d.(defaultGridColor := None))
  {
    SameParametersSameKey(d.(backgroundColor := Some(Black)), d.(backgroundColor := None));
    SameParametersSameKey(d.(defaultGridColor := Some(Black)), d.(defaultGridColor := None));
  }

  /** A size or count of 0 writes nothing in the key. */
  lemma {:induction false} KeyOmitsZeroSizes(d: Decomposer)
    ensures Key(d.(sx := Some(0))) == Key(d.(sx := None))
    ensures Key(d.(sy := Some(0))) == Key(d.(sy := None))
    ensures Key(d.(nx := Some(0))) == Key(d.(nx := None))
    ensures Key(d.(ny := Some(0))) == Key(d.(ny := None))
  {
    SameParametersSameKey(d.(sx := Some(0)), d.(sx := None));
    SameParametersSameKey(d.(sy := Some(0)), d.(sy := None));
    SameParametersSameKey(d.(nx := Some(0)), d.(nx := None));
    SameParametersSameKey(d.(ny := Some(0)), d.(ny := None));
  }

  /** `fixed_size` false, the identity transform, `failed` and `abstraction_name` write nothing in the key. */
  lemma {:induction false} KeyOmitsFalsyFlags(d: Decomposer)
    ensures Key(d.(fixedSize := Some(false))) == Key(d.(fixedSize := None))
    ensures Key(d.(transform := Some(Identity))) == Key(d.(transform := None))
    ensures Key(d.(failed := Some(true))) == Key(d)
    ensures Key(d.(abstractionName := None)) == Key(d)
  {
    SameParametersSameKey(d.(fixedSize := Some(false)), d.(fixedSize := None));
    SameParametersSameKey(d.(transform := Some(Identity)), d.(transform := None));
    SameParametersSameKey(d.(failed := Some(true)), d);
    SameParametersSameKey(d.(abstractionName := None), d);
  }

  /** Two nodes with the same name, nested decomposers and written parameters have the same key. */
  lemma {:induction false} SameParametersSameKey(a: Decomposer, b: Decomposer)
    requires a.name == b.name && a.decomposer == b.decomposer && a.decomposer2 == b.decomposer2
    requires a.decomposers == b.decomposers && ParameterParts(a) == ParameterParts(b)
    ensures Key(a) == Key(b)
  {
  }

  /** `background(0, d)` and `background(undefined, d)` get the same key. */
  lemma BackgroundBlackKey(d: Decomposer)
    ensures Key(Background(Some(Black), d)) == Key(Background(None, d))
  {
    KeyOmitsFalsyFields(Background(None, d));
    assert Background(None, d).(backgroundColor := Some(Black)) == Background(Some(Black), d);
  }

  // ------------------------------------------------------------ clone

  /** `decomposer_clone`: the same tree with `failed` set to false at every node. */
  function Clone(d: Decomposer): Decomposer
    decreases d
  {
    d.(decomposer := if d.decomposer.Some? then Some(Clone(d.decomposer.value)) else None,
       decomposer2 := if d.decomposer2.Some? then Some(Clone(d.decomposer2.value)) else None,
       decomposers := CloneList(d.decomposers),
       failed := Some(false))
  }

  function CloneList(l: List): (c: List)
    ensures c.Listed? == l.Listed?
    ensures c.Listed? ==> |c.items| == |l.items|
    decreases l
  {
    if l.Unlisted? then Unlisted
    else Listed(seq(|l.items|, i requires 0 <= i < |l.items| => Clone(l.items[i])))
  }

  /** The tree with every `failed` mark removed: what a structural comparison sees. */
  function Erase(d: Decomposer): Decomposer
    decreases d
  {
    d.(decomposer := if d.decomposer.Some? then Some(Erase(d.decomposer.value)) else None,
       decomposer2 := if d.decomposer2.Some? then Some(Erase(d.decomposer2.value)) else None,
       decomposers := EraseList(d.decomposers),
       failed := None)
  }

  function EraseList(l: List): (e: List)
    ensures e.Listed? == l.Listed?
    ensures e.Listed? ==> |e.items| == |l.items|
    decreases l
  {
    if l.Unlisted? then Unlisted
    else Listed(seq(|l.items|, i requires 0 <= i < |l.items| => Erase(l.items[i])))
  }

  /** Every node of the tree has `failed` equal to false. */
  predicate Unfailed(d: Decomposer)
    decreases d
  {
    d.failed == Some(false)
    && (d.decomposer.Some? ==> Unfailed(d.decomposer.value))
    && (d.decomposer2.Some? ==> Unfailed(d.decomposer2.value))
    && AllUnfailed(d.decomposers)
  }

  predicate AllUnfailed(l: List)
    decreases l
  {
    l.Listed? ==> forall i :: 0 <= i < |l.items| ==> Unfailed(l.items[i])
  }

  /** A clone is the same tree, structurally, with `failed` false at every node. */
  lemma {:induction false} CloneIsStructuralCopy(d: Decomposer)
    ensures Erase(Clone(d)) == Erase(d)
    ensures Unfailed(Clone(d))
    decreases d
  {
    if d.decomposer.Some? {
      CloneIsStructuralCopy(d.decomposer.value);
    }
    if d.decomposer2.Some? {
      CloneIsStructuralCopy(d.decomposer2.value);
    }
    CloneListIsStructuralCopy(d.decomposers);
  }

  lemma {:induction false} CloneListIsStructuralCopy(l: List)
    ensures EraseList(CloneList(l)) == EraseList(l)
    ensures AllUnfailed(CloneList(l))
    decreases l
  {
    if l.Listed? {
      forall i | 0 <= i < |l.items|
        ensures Erase(Clone(l.items[i])) == Erase(l.items[i]) && Unfailed(Clone(l.items[i]))
      {
        CloneIsStructuralCopy(l.items[i]);
      }
    }
  }

  // ------------------------------------------------------------ pruning

  /** Every `alternatives` node carries a list (the source dereferences it with `!`). */
  predicate AlternativesListed(d: Decomposer)
    decreases d
  {
    (d.name == "alternatives" ==> d.decomposers.Listed?)
    && (d.decomposer.Some? ==> AlternativesListed(d.decomposer.value))
    && (d.decomposer2.Some? ==> AlternativesListed(d.decomposer2.value))
    && (d.decomposers.Listed? ==> forall x :: x in d.decomposers.items ==> AlternativesListed(x))
  }

  /** The children not marked as failed, in order. */
  function Kept(ds: seq<Decomposer>): (ks: seq<Decomposer>)
    ensures |ks| <= |ds|
    ensures forall k :: 0 <= k < |ks| ==> ks[k] in ds && ks[k].failed != Some(true)
  {
    if |ds| == 0 then []
    else if ds[0].failed == Some(true) then Kept(ds[1..])
    else [ds[0]] + Kept(ds[1..])
  }

  lemma {:induction false} KeptStep(ds: seq<Decomposer>)
    requires |ds| > 0
    ensures ds[0].failed == Some(true) ==> Kept(ds) == Kept(ds[1..])
    ensures ds[0].failed != Some(true) ==> Kept(ds) == [ds[0]] + Kept(ds[1..])
  {
  }

  /** Keeping distributes over concatenation. */
  lemma {:induction false} KeptAppend(a: seq<Decomposer>, b: seq<Decomposer>)
    ensures Kept(a + b) == Kept(a) + Kept(b)
  {
    if |a| == 0 {
      assert a + b == b;
    } else {
      assert (a + b)[1..] == a[1..] + b;
      KeptAppend(a[1..], b);
    }
  }

  /** An unfailed child sits in the kept list after the kept children before it. */
  lemma KeptPosition(ds: seq<Decomposer>, j: int)
    requires 0 <= j < |ds| && ds[j].failed != Some(true)
    ensures |Kept(ds[..j])| < |Kept(ds)| && Kept(ds)[|Kept(ds[..j])|] == ds[j]
  {
    assert ds == ds[..j] + ds[j..];
    KeptAppend(ds[..j], ds[j..]);
    KeptStep(ds[j..]);
  }

  /** Keeping drops exactly the failed children and keeps the others in their order. */
  lemma KeptIsOrderedFilter(ds: seq<Decomposer>, i: int, j: int)
    requires 0 <= i < j < |ds| && ds[i].failed != Some(true) && ds[j].failed != Some(true)
    ensures exists a, b :: 0 <= a < b < |Kept(ds)| && Kept(ds)[a] == ds[i] && Kept(ds)[b] == ds[j]
  {
    KeptPosition(ds, i);
    KeptPosition(ds, j);
    assert ds[..j] == ds[..i] + ds[i..j];
    KeptAppend(ds[..i], ds[i..j]);
    KeptStep(ds[i..j]);
    var a, b := |Kept(ds[..i])|, |Kept(ds[..j])|;
    assert Kept(ds)[a] == ds[i] && Kept(ds)[b] == ds[j];
  }

  /**
   * `decomposer_remove_failed_alternatives`: an alternatives node keeps its
   * unfailed children only (and no other field); every other node is copied
   * with `failed` false; the pruning recurses everywhere.
   */
  function RemoveFailed(d: Decomposer): Decomposer
    requires AlternativesListed(d)
    decreases d
  {
    if d.name == "alternatives" then
      var kept := Kept(d.decomposers.items);
      Alternatives(seq(|kept|, i requires 0 <= i < |kept| => RemoveFailed(kept[i])))
    else
      d.(decomposer := if d.decomposer.Some? then Some(RemoveFailed(d.decomposer.value)) else None,
         decomposer2 := if d.decomposer2.Some? then Some(RemoveFailed(d.decomposer2.value)) else None,
         decomposers := RemoveFailedList(d.decomposers),
         failed := Some(false))
  }

  function RemoveFailedList(l: List): (r: List)
    requires l.Listed? ==> forall x :: x in l.items ==> AlternativesListed(x)
    ensures r.Listed? == l.Listed?
    ensures r.Listed? ==> |r.items| == |l.items|
    decreases l
  {
    if l.Unlisted? then Unlisted
    else Listed(seq(|l.items|, i requires 0 <= i < |l.items| => RemoveFailed(l.items[i])))
  }

  /** No node of the tree is marked as failed. */
  predicate NoFailure(d: Decomposer)
    decreases d
  {
    d.failed != Some(true)
    && (d.decomposer.Some? ==> NoFailure(d.decomposer.value))
    && (d.decomposer2.Some? ==> NoFailure(d.decomposer2.value))
    && NoneFailed(d.decomposers)
  }

  predicate NoneFailed(l: List)
    decreases l
  {
    l.Listed? ==> forall i :: 0 <= i < |l.items| ==> NoFailure(l.items[i])
  }

  /**
   * After pruning no node is marked failed, the tree is still well listed,
   * and an alternatives node holds the pruned forms of exactly its unfailed
   * children, in order.
   */
  lemma {:induction false} RemoveFailedClears(d: Decomposer)
    requires AlternativesListed(d)
    ensures NoFailure(RemoveFailed(d))
    ensures AlternativesListed(RemoveFailed(d))
    ensures RemoveFailed(d).name == d.name
    ensures d.name == "alternatives" ==>
      var kept := Kept(d.decomposers.items);
      RemoveFailed(d).decomposers.Listed? && |RemoveFailed(d).decomposers.items| == |kept|
      && forall k :: 0 <= k < |kept| ==> RemoveFailed(d).decomposers.items[k] == RemoveFailed(kept[k])
    decreases d
  {
    if d.name == "alternatives" {
      var kept := Kept(d.decomposers.items);
      forall k | 0 <= k < |kept|
        ensures NoFailure(RemoveFailed(kept[k])) && AlternativesListed(RemoveFailed(kept[k]))
      {
        RemoveFailedClears(kept[k]);
      }
    } else {
      if d.decomposer.Some? {
        RemoveFailedClears(d.decomposer.value);
      }
      if d.decomposer2.Some? {
        RemoveFailedClears(d.decomposer2.value);
      }
      if d.decomposers.Listed? {
        var ds := d.decomposers.items;
        forall k | 0 <= k < |ds|
          ensures NoFailure(RemoveFailed(ds[k])) && AlternativesListed(RemoveFailed(ds[k]))
        {
          RemoveFailedClears(ds[k]);
        }
      }
    }
  }

  // ------------------------------------------------------------ root, prefix, suffix

  /** The decomposers a chain is split at. */
  const RootNames: set<string> := {
    "object_list", "object_list2", "block_list", "color_decomposition",
    "monochrome_object_list", "monochrome_object_list2", "horizontal_decomposition",
    "find_master_grid", "master_grid", "master_grid2",
    "monochrome_object_list_abstraction", "monochrome_decomposition_abstraction" }

  /** The nodes along the `.decomposer` chain, starting with the node itself. */
  function Chain(d: Decomposer): (c: seq<Decomposer>)
    ensures |c| > 0 && c[0] == d
  {
    [d] + if d.decomposer.Some? then Chain(d.decomposer.value) else []
  }

  /** A root node with its children cut off. */
  function Detached(d: Decomposer): Decomposer
  {
    d.(decomposer := None, decomposers := Unlisted, failed := Some(false))
  }

  /** `decomposer_root`: the first node on the chain that is a root decomposer, detached; `undefined` if there is none. */
  function Root(d: Decomposer): Option<Decomposer>
  {
    if d.name in RootNames then Some(Detached(d))
    else if d.decomposer.Some? then Root(d.decomposer.value)
    else None
  }

  /**
   * The root is the detached first node of the chain whose name is a root
   * decomposer, and there is none exactly when no node of the chain has
   * such a name.
   */
  lemma {:induction false} RootIsFirstOnChain(d: Decomposer)
    ensures Root(d).None? ==> forall k :: 0 <= k < |Chain(d)| ==> Chain(d)[k].name !in RootNames
    ensures (forall k :: 0 <= k < |Chain(d)| ==> Chain(d)[k].name !in RootNames) ==> Root(d).None?
    ensures Root(d).Some? ==> exists k :: (0 <= k < |Chain(d)| && Chain(d)[k].name in RootNames
      && (forall j :: 0 <= j < k ==> Chain(d)[j].name !in RootNames)
      && Root(d).value == Detached(Chain(d)[k]))
  {
    if d.name !in RootNames && d.decomposer.Some? {
      var rest := Chain(d.decomposer.value);
      RootIsFirstOnChain(d.decomposer.value);
      assert Chain(d) == [d] + rest;
      assert Root(d) == Root(d.decomposer.value);
      if Root(d).Some? {
        var k :| 0 <= k < |rest| && rest[k].name in RootNames
          && (forall j :: 0 <= j < k ==> rest[j].name !in RootNames)
          && Root(d).value == Detached(rest[k]);
        assert Chain(d)[k + 1] == rest[k];
        forall j | 0 <= j < k + 1
          ensures Chain(d)[j].name !in RootNames
        {
          if j > 0 {
            assert Chain(d)[j] == rest[j - 1];
          }
        }
      } else {
        assert Root(d.decomposer.value).None?;
        assert forall k :: 0 <= k < |rest| ==> rest[k].name !in RootNames;
        forall k | 0 <= k < |Chain(d)|
          ensures Chain(d)[k].name !in RootNames
        {
          if k > 0 {
            assert Chain(d)[k] == rest[k - 1];
            assert rest[k - 1].name !in RootNames;
          }
        }
      }
    } else if d.name in RootNames {
      assert Chain(d)[0] == d;
    }
  }

  /** The chain above the root, with the root's slot emptied (`_decomposer_prefix`). */
  function PrefixOf(d: Decomposer): Option<Decomposer>
    decreases d
  {
    if d.name in RootNames then None
    else Some(d.(decomposer := if d.decomposer.Some? then PrefixOf(d.decomposer.value) else None,
                 decomposer2 := if d.decomposer2.Some? then Some(Clone(d.decomposer2.value)) else None,
                 decomposers := CloneList(d.decomposers),
                 failed := Some(false)))
  }

  /** `decomposer_prefix`: `undefined` when the chain has no root. */
  function Prefix(d: Decomposer): Option<Decomposer>
  {
    if Root(d).Some? then PrefixOf(d) else None
  }

  /** What lies below the root: one decomposer, or a list of them. */
  datatype Suffix = Single(d: Decomposer) | Many(ds: seq<Decomposer>)

  /** `decomposer_suffix`: a clone of the root's child, or of its list of children. */
  function SuffixOf(d: Decomposer): Option<Suffix>
  {
    if d.name in RootNames then
      if d.decomposer.Some? then Some(Single(Clone(d.decomposer.value)))
      else if d.decomposers.Listed? then Some(Many(CloneList(d.decomposers).items))
      else None
    else if d.decomposer.Some? then SuffixOf(d.decomposer.value)
    else None
  }

  /** Puts `node` into the empty slot at the end of a prefix chain. */
  function Plug(prefix: Option<Decomposer>, node: Decomposer): Decomposer
  {
    if prefix.None? then node
    else prefix.value.(decomposer := Some(Plug(prefix.value.decomposer, node)))
  }

  /** Hangs a suffix under a detached root. */
  function Attach(root: Decomposer, suffix: Option<Suffix>): Decomposer
  {
    match suffix
    case None => root
    case Some(Single(s)) => root.(decomposer := Some(s))
    case Some(Many(ss)) => root.(decomposers := Listed(ss))
  }

  /** The root node of the chain does not carry both a child and a list of children. */
  predicate RootHasOneKindOfChild(d: Decomposer)
  {
    if d.name in RootNames then d.decomposer.None? || d.decomposers.Unlisted?
    else d.decomposer.Some? ==> RootHasOneKindOfChild(d.decomposer.value)
  }

  /**
   * Prefix, root and suffix split a chain: putting the suffix back under the
   * root and the root back into the prefix's empty slot gives the original
   * tree again, up to the `failed` marks.
   */
  lemma {:induction false} SplitRoundTrip(d: Decomposer)
    requires Root(d).Some? && RootHasOneKindOfChild(d)
    ensures Prefix(d).None? <==> d.name in RootNames
    ensures Erase(Plug(Prefix(d), Attach(Root(d).value, SuffixOf(d)))) == Erase(d)
  {
    if d.name in RootNames {
      if d.decomposer.Some? {
        CloneIsStructuralCopy(d.decomposer.value);
      } else if d.decomposers.Listed? {
        CloneListIsStructuralCopy(d.decomposers);
      }
    } else {
      SplitRoundTrip(d.decomposer.value);
      if d.decomposer2.Some? {
        CloneIsStructuralCopy(d.decomposer2.value);
      }
      CloneListIsStructuralCopy(d.decomposers);
    }
  }
}
