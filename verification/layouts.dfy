/**
 * Collage templates of the "varying sizes" layout: a grid of `cols x rows`
 * cells and an ordered list of size classes (a tile footprint, how many tiles
 * of it, and optionally the declared top-left cell of each tile, either as one
 * list or as one list per variant key).  `Catalog` holds the constant templates
 * and proves them well formed.
 */
module Layouts {
  import opened Wrappers
  import opened OccupancyGrid

  datatype Kind = Small | Medium | Large

  /** Declared positions of a size class: one flat list, or one list per variant key. */
  datatype Positions = Flat(list: seq<Pos>) | Keyed(variants: map<nat, seq<Pos>>)

  datatype SizeClass = SizeClass(kind: Kind, count: nat, size: nat, positions: Option<Positions>)

  datatype Layout = Layout(cols: nat, rows: nat, sizes: seq<SizeClass>, imageCount: nat)

  /** One tile slot of a template under a chosen variant: its footprint and
      its declared position, if any. */
  datatype Slot = Slot(size: nat, position: Option<Pos>)

  /** The position list a size class uses under `variant`: a flat list as is,
      a keyed map at the chosen key (nothing when there is no key or the key
      is missing), and nothing when the class declares no positions. */
  function PositionsFor(sc: SizeClass, variant: Option<nat>): (ps: Option<seq<Pos>>)
    ensures sc.positions.None? ==> ps.None?
    ensures sc.positions.Some? && sc.positions.value.Flat? ==> ps == Some(sc.positions.value.list)
    ensures sc.positions.Some? && sc.positions.value.Keyed? ==>
      (ps.Some? <==> variant.Some? && variant.value in sc.positions.value.variants)
    ensures sc.positions.Some? && sc.positions.value.Keyed? && variant.Some? && variant.value in sc.positions.value.variants ==>
      ps == Some(sc.positions.value.variants[variant.value])
  {
    match sc.positions
    case None => None
    case Some(Flat(l)) => Some(l)
    case Some(Keyed(m)) => if variant.Some? && variant.value in m then Some(m[variant.value]) else None
  }

  /** Slot i's declared position: `positions[i]` when the list exists and has that entry. */
  function PosAt(ps: Option<seq<Pos>>, i: nat): Option<Pos> {
    if ps.Some? && i < |ps.value| then Some(ps.value[i]) else None
  }

  /** The first `count` slots of a size class under a position list. */
  function ClassSlotsUpTo(size: nat, ps: Option<seq<Pos>>, count: nat): seq<Slot> {
    if count == 0 then [] else ClassSlotsUpTo(size, ps, count - 1) + [Slot(size, PosAt(ps, count - 1))]
  }

  function ClassSlots(sc: SizeClass, variant: Option<nat>): seq<Slot> {
    ClassSlotsUpTo(sc.size, PositionsFor(sc, variant), sc.count)
  }

  /** A size class offers exactly `count` slots, slot i with the class footprint
      and `positions[i]` when present. */
  lemma {:induction false} ClassSlotsAt(size: nat, ps: Option<seq<Pos>>, count: nat)
    ensures |ClassSlotsUpTo(size, ps, count)| == count
    ensures forall i :: 0 <= i < count ==> ClassSlotsUpTo(size, ps, count)[i] == Slot(size, PosAt(ps, i))
  {
    if count > 0 {
      ClassSlotsAt(size, ps, count - 1);
    }
  }

  /** All slots of a template, class after class in declared order. */
  function Slots(sizes: seq<SizeClass>, variant: Option<nat>): seq<Slot> {
    if |sizes| == 0 then [] else ClassSlots(sizes[0], variant) + Slots(sizes[1..], variant)
  }

  /** Adding a class at the end appends its slots. */
  lemma {:induction false} SlotsSnoc(sizes: seq<SizeClass>, sc: SizeClass, variant: Option<nat>)
    ensures Slots(sizes + [sc], variant) == Slots(sizes, variant) + ClassSlots(sc, variant)
  {
    if |sizes| == 0 {
      assert sizes + [sc] == [sc];
    } else {
      assert (sizes + [sc])[1..] == sizes[1..] + [sc];
      SlotsSnoc(sizes[1..], sc, variant);
    }
  }

  /** Sum of the class counts. */
  function TotalCount(sizes: seq<SizeClass>): nat {
    if |sizes| == 0 then 0 else sizes[0].count + TotalCount(sizes[1..])
  }

  /** Cells the classes cover: the sum of count x size x size. */
  function Area(sizes: seq<SizeClass>): nat {
    if |sizes| == 0 then 0 else sizes[0].count * sizes[0].size * sizes[0].size + Area(sizes[1..])
  }

  lemma {:induction false} SlotsLength(sizes: seq<SizeClass>, variant: Option<nat>)
    ensures |Slots(sizes, variant)| == TotalCount(sizes)
  {
    if |sizes| > 0 {
      ClassSlotsAt(sizes[0].size, PositionsFor(sizes[0], variant), sizes[0].count);
      SlotsLength(sizes[1..], variant);
    }
  }

  /** The class's positions are a keyed map (a non-array object). */
  predicate IsKeyed(sc: SizeClass) {
    sc.positions.Some? && sc.positions.value.Keyed?
  }

  /** The key map of the first size class whose positions are keyed, if any:
      class i holds the map and no class before it is keyed. */
  function FirstKeyed(sizes: seq<SizeClass>): (m: Option<map<nat, seq<Pos>>>)
    ensures m.Some? ==> exists i :: 0 <= i < |sizes| && sizes[i].positions == Some(Keyed(m.value))
                                    && forall j :: 0 <= j < i ==> !IsKeyed(sizes[j])
    ensures m.None? ==> forall i :: 0 <= i < |sizes| ==> !IsKeyed(sizes[i])
  {
    if |sizes| == 0 then None
    else if IsKeyed(sizes[0]) then Some(sizes[0].positions.value.variants)
    else
      var m := FirstKeyed(sizes[1..]);
      FirstKeyedShift(sizes, m);
      m
  }

  /** A keyed class found after an unkeyed head is still the first one. */
  lemma FirstKeyedShift(sizes: seq<SizeClass>, m: Option<map<nat, seq<Pos>>>)
    requires |sizes| > 0 && !IsKeyed(sizes[0])
    requires m.Some? ==> exists i :: 0 <= i < |sizes[1..]| && sizes[1..][i].positions == Some(Keyed(m.value))
                                     && forall j :: 0 <= j < i ==> !IsKeyed(sizes[1..][j])
    requires m.None? ==> forall i :: 0 <= i < |sizes[1..]| ==> !IsKeyed(sizes[1..][i])
    ensures m.Some? ==> exists i :: 0 <= i < |sizes| && sizes[i].positions == Some(Keyed(m.value))
                                    && forall j :: 0 <= j < i ==> !IsKeyed(sizes[j])
    ensures m.None? ==> forall i :: 0 <= i < |sizes| ==> !IsKeyed(sizes[i])
  {
    if m.Some? {
      var i :| 0 <= i < |sizes[1..]| && sizes[1..][i].positions == Some(Keyed(m.value))
               && forall j :: 0 <= j < i ==> !IsKeyed(sizes[1..][j]);
      assert sizes[i + 1] == sizes[1..][i];
      forall j | 0 <= j < i + 1
        ensures !IsKeyed(sizes[j])
      {
        if j > 0 { assert sizes[j] == sizes[1..][j - 1]; }
      }
    } else {
      forall i | 0 <= i < |sizes|
        ensures !IsKeyed(sizes[i])
      {
        if i > 0 { assert sizes[i] == sizes[1..][i - 1]; }
      }
    }
  }

  /** `variant` is a possible outcome of the random key choice: a key of the
      first keyed map when that map has keys, and no key otherwise (no keyed
      class, or an empty map, whose `keys[0]` is `undefined`). */
  predicate IsVariantChoice(layout: Layout, variant: Option<nat>) {
    match FirstKeyed(layout.sizes)
    case None => variant.None?
    case Some(m) => if |m| == 0 then variant.None? else variant.Some? && variant.value in m
  }
}
