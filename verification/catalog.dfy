/**
 * The template catalog of the "varying sizes" collage (`gridSizes` and
 * `COLLAGE_LAYOUTS`), and the proofs that every template is well formed:
 * position lists as long as the counts, the same variant keys in every keyed
 * class, areas that tile the grid exactly, image counts that add up, declared
 * squares inside the grid, pairwise disjoint, and declared exactly for the
 * medium and large tiles.
 */
module Catalog {
  import opened Wrappers
  import opened OccupancyGrid
  import opened Layouts

  const GridSizes: seq<nat> := [4, 5, 6]

  const Layout4: Layout := Layout(4, 4, [
    SizeClass(Medium, 2, 2, Some(Keyed(map[
      1 := [Pos(0, 0), Pos(2, 2)],
      2 := [Pos(0, 2), Pos(2, 0)]]))),
    SizeClass(Small, 8, 1, None)], 10)

  const Layout5: Layout := Layout(5, 5, [
    SizeClass(Large, 1, 3, Some(Keyed(map[
      1 := [Pos(0, 0)],
      2 := [Pos(0, 2)],
      3 := [Pos(2, 0)]]))),
    SizeClass(Medium, 2, 2, Some(Keyed(map[
      1 := [Pos(0, 3), Pos(3, 0)],
      2 := [Pos(0, 0), Pos(3, 3)],
      3 := [Pos(0, 1), Pos(3, 3)]]))),
    SizeClass(Small, 8, 1, None)], 11)

  const Layout6: Layout := Layout(6, 6, [
    SizeClass(Large, 2, 3, Some(Keyed(map[
      1 := [Pos(0, 0), Pos(0, 3)],
      2 := [Pos(3, 0), Pos(3, 3)],
      3 := [Pos(0, 0), Pos(3, 1)],
      4 := [Pos(0, 3), Pos(3, 2)]]))),
    SizeClass(Medium, 3, 2, Some(Keyed(map[
      1 := [Pos(3, 0), Pos(3, 2), Pos(3, 4)],
      2 := [Pos(0, 0), Pos(0, 2), Pos(0, 4)],
      3 := [Pos(0, 4), Pos(2, 4), Pos(4, 4)],
      4 := [Pos(0, 0), Pos(2, 0), Pos(4, 0)]]))),
    SizeClass(Small, 6, 1, None)], 11)

  /** `COLLAGE_LAYOUTS[gridSize]`; nothing for a size the table lacks. */
  function CollageLayouts(gridSize: nat): Option<Layout> {
    if gridSize == 4 then Some(Layout4)
    else if gridSize == 5 then Some(Layout5)
    else if gridSize == 6 then Some(Layout6)
    else None
  }

  /** The variant keys the templates of one grid size use. */
  function VariantKeys(gridSize: nat): set<nat> {
    if gridSize == 4 then {1, 2}
    else if gridSize == 5 then {1, 2, 3}
    else if gridSize == 6 then {1, 2, 3, 4}
    else {}
  }

  /** `gridSizes` lists exactly the keys of `COLLAGE_LAYOUTS`, and the
      template under key g is a g x g grid. */
  lemma GridSizesAreCatalogKeys(g: nat)
    ensures g in GridSizes <==> CollageLayouts(g).Some?
    ensures CollageLayouts(g).Some? ==> CollageLayouts(g).value.cols == g && CollageLayouts(g).value.rows == g
  {
  }

  /** Every position list of a class has exactly `count` entries, and every
      keyed class of a template uses the same key set. */
  ghost predicate ListsMatch(sc: SizeClass, keys: set<nat>) {
    match sc.positions
    case None => true
    case Some(Flat(l)) => |l| == sc.count
    case Some(Keyed(m)) => m.Keys == keys && forall k :: k in m ==> |m[k]| == sc.count
  }

  lemma CatalogPositionLists(g: nat)
    requires CollageLayouts(g).Some?
    ensures forall i :: 0 <= i < |CollageLayouts(g).value.sizes| ==>
      ListsMatch(CollageLayouts(g).value.sizes[i], VariantKeys(g))
  {
  }

  /** The classes tile the grid exactly (16, 25 and 36 cells), and
      `imageCount` is the number of slots. */
  lemma CatalogCapacity(g: nat)
    requires CollageLayouts(g).Some?
    ensures var l := CollageLayouts(g).value;
      Area(l.sizes) == l.cols * l.rows && TotalCount(l.sizes) == l.imageCount
  {
  }

  /** The random choice can pick exactly the template's variant keys, and it
      always picks one. */
  lemma CatalogVariantChoice(g: nat, v: Option<nat>)
    requires CollageLayouts(g).Some?
    ensures IsVariantChoice(CollageLayouts(g).value, v) <==> v.Some? && v.value in VariantKeys(g)
  {
  }

  // ---- declared squares ----

  /** Two declared squares share a cell. */
  predicate Overlap(p: Pos, size: nat, q: Pos, size': nat) {
    p.row < q.row + size' && q.row < p.row + size && p.col < q.col + size' && q.col < p.col + size
  }

  predicate SlotsClash(a: Slot, b: Slot) {
    a.position.Some? && b.position.Some? && Overlap(a.position.value, a.size, b.position.value, b.size)
  }

  predicate SlotFits(a: Slot, cols: nat, rows: nat) {
    a.position.Some? ==> a.position.value.row + a.size <= rows && a.position.value.col + a.size <= cols
  }

  /** A slot is declared exactly when it is a medium (2) or large (3) tile. */
  predicate SlotTiered(a: Slot) {
    a.position.Some? <==> a.size == 2 || a.size == 3
  }

  /** The slot table of a template under one variant is sound for planning:
      declared squares lie inside the grid, no two overlap, and exactly the
      medium and large slots are declared. */
  ghost predicate WellDeclared(s: seq<Slot>, cols: nat, rows: nat) {
    && (forall i :: 0 <= i < |s| ==> SlotFits(s[i], cols, rows) && SlotTiered(s[i]))
    && (forall i, j :: 0 <= i < j < |s| ==> !SlotsClash(s[i], s[j]))
  }

  const Smalls6: seq<Slot> := [Slot(1, None), Slot(1, None), Slot(1, None), Slot(1, None), Slot(1, None), Slot(1, None)]
  const Smalls8: seq<Slot> := Smalls6 + [Slot(1, None), Slot(1, None)]

  /** Appending undeclared 1x1 slots keeps a slot table well declared. */
  lemma WellDeclaredWithSmalls(d: seq<Slot>, u: seq<Slot>, cols: nat, rows: nat)
    requires WellDeclared(d, cols, rows)
    requires forall k :: 0 <= k < |u| ==> u[k] == Slot(1, None)
    ensures WellDeclared(d + u, cols, rows)
  {
    var s := d + u;
    forall i, j | 0 <= i < j < |s| ensures !SlotsClash(s[i], s[j]) {
      if j >= |d| {
        assert s[j] == u[j - |d|];
      }
    }
  }

  /** The declared (large, then medium) slots of each template variant. */
  function Declared4(v: nat): seq<Slot> {
    if v == 1 then [Slot(2, Some(Pos(0, 0))), Slot(2, Some(Pos(2, 2)))]
    else [Slot(2, Some(Pos(0, 2))), Slot(2, Some(Pos(2, 0)))]
  }

  function Declared5(v: nat): seq<Slot> {
    if v == 1 then [Slot(3, Some(Pos(0, 0))), Slot(2, Some(Pos(0, 3))), Slot(2, Some(Pos(3, 0)))]
    else if v == 2 then [Slot(3, Some(Pos(0, 2))), Slot(2, Some(Pos(0, 0))), Slot(2, Some(Pos(3, 3)))]
    else [Slot(3, Some(Pos(2, 0))), Slot(2, Some(Pos(0, 1))), Slot(2, Some(Pos(3, 3)))]
  }

  function Declared6(v: nat): seq<Slot> {
    if v == 1 then [Slot(3, Some(Pos(0, 0))), Slot(3, Some(Pos(0, 3))),
                    Slot(2, Some(Pos(3, 0))), Slot(2, Some(Pos(3, 2))), Slot(2, Some(Pos(3, 4)))]
    else if v == 2 then [Slot(3, Some(Pos(3, 0))), Slot(3, Some(Pos(3, 3))),
                         Slot(2, Some(Pos(0, 0))), Slot(2, Some(Pos(0, 2))), Slot(2, Some(Pos(0, 4)))]
    else if v == 3 then [Slot(3, Some(Pos(0, 0))), Slot(3, Some(Pos(3, 1))),
                         Slot(2, Some(Pos(0, 4))), Slot(2, Some(Pos(2, 4))), Slot(2, Some(Pos(4, 4)))]
    else [Slot(3, Some(Pos(0, 3))), Slot(3, Some(Pos(3, 2))),
          Slot(2, Some(Pos(0, 0))), Slot(2, Some(Pos(2, 0))), Slot(2, Some(Pos(4, 0)))]
  }

  /** The slot table of a three-class template, class by class. */
  lemma SlotsOfThree(a: SizeClass, b: SizeClass, c: SizeClass, variant: Option<nat>)
    ensures Slots([a, b, c], variant) == ClassSlots(a, variant) + ClassSlots(b, variant) + ClassSlots(c, variant)
  {
    assert [a, b, c][1..] == [b, c];
    SlotsOfTwo(b, c, variant);
  }

  lemma SlotsOfTwo(a: SizeClass, b: SizeClass, variant: Option<nat>)
    ensures Slots([a, b], variant) == ClassSlots(a, variant) + ClassSlots(b, variant)
  {
    assert [a, b][1..] == [b];
    assert [b][1..] == [];
    assert Slots([b], variant) == ClassSlots(b, variant) + [];
  }

  /** An undeclared class of n 1x1 tiles offers n undeclared 1x1 slots. */
  lemma SmallSlots(n: nat, variant: Option<nat>)
    ensures n == 6 ==> ClassSlots(SizeClass(Small, n, 1, None), variant) == Smalls6
    ensures n == 8 ==> ClassSlots(SizeClass(Small, n, 1, None), variant) == Smalls8
  {
    ClassSlotsAt(1, None, n);
  }

  lemma Declared4Slots(v: nat)
    requires v in VariantKeys(4)
    ensures ClassSlots(Layout4.sizes[0], Some(v)) == Declared4(v)
  {
    if v == 1 {
      assert PositionsFor(Layout4.sizes[0], Some(1)) == Some([Pos(0, 0), Pos(2, 2)]);
    } else {
      assert PositionsFor(Layout4.sizes[0], Some(2)) == Some([Pos(0, 2), Pos(2, 0)]);
    }
  }

  lemma Declared4Sound(v: nat)
    requires v in VariantKeys(4)
    ensures WellDeclared(Declared4(v), 4, 4)
  {
    if v == 1 {
      assert WellDeclared(Declared4(1), 4, 4);
    } else {
      assert WellDeclared(Declared4(2), 4, 4);
    }
  }

  lemma Catalog4WellDeclared(v: nat)
    requires v in VariantKeys(4)
    ensures WellDeclared(Slots(Layout4.sizes, Some(v)), 4, 4)
  {
    SlotsOfTwo(Layout4.sizes[0], Layout4.sizes[1], Some(v));
    SmallSlots(8, Some(v));
    Declared4Slots(v);
    Declared4Sound(v);
    WellDeclaredWithSmalls(Declared4(v), Smalls8, 4, 4);
  }

  lemma Declared5Sound(v: nat)
    requires v in VariantKeys(5)
    ensures WellDeclared(Declared5(v), 5, 5)
  {
    if v == 1 {
      Declared5Sound1();
    } else if v == 2 {
      Declared5Sound2();
    } else {
      Declared5Sound3();
    }
  }

  lemma Declared5Sound1() ensures WellDeclared(Declared5(1), 5, 5) { }
  lemma Declared5Sound2() ensures WellDeclared(Declared5(2), 5, 5) { }
  lemma Declared5Sound3() ensures WellDeclared(Declared5(3), 5, 5) { }

  lemma Declared5Slots(v: nat)
    requires v in VariantKeys(5)
    ensures ClassSlots(Layout5.sizes[0], Some(v)) + ClassSlots(Layout5.sizes[1], Some(v)) == Declared5(v)
  {
    if v == 1 {
      assert PositionsFor(Layout5.sizes[0], Some(1)) == Some([Pos(0, 0)]);
      assert PositionsFor(Layout5.sizes[1], Some(1)) == Some([Pos(0, 3), Pos(3, 0)]);
    } else if v == 2 {
      assert PositionsFor(Layout5.sizes[0], Some(2)) == Some([Pos(0, 2)]);
      assert PositionsFor(Layout5.sizes[1], Some(2)) == Some([Pos(0, 0), Pos(3, 3)]);
    } else {
      assert PositionsFor(Layout5.sizes[0], Some(3)) == Some([Pos(2, 0)]);
      assert PositionsFor(Layout5.sizes[1], Some(3)) == Some([Pos(0, 1), Pos(3, 3)]);
    }
  }

  lemma Catalog5WellDeclared(v: nat)
    requires v in VariantKeys(5)
    ensures WellDeclared(Slots(Layout5.sizes, Some(v)), 5, 5)
  {
    SlotsOfThree(Layout5.sizes[0], Layout5.sizes[1], Layout5.sizes[2], Some(v));
    SmallSlots(8, Some(v));
    Declared5Slots(v);
    Declared5Sound(v);
    WellDeclaredWithSmalls(Declared5(v), Smalls8, 5, 5);
  }

  lemma Declared6Sound(v: nat)
    requires v in VariantKeys(6)
    ensures WellDeclared(Declared6(v), 6, 6)
  {
    if v == 1 {
      Declared6Sound1();
    } else if v == 2 {
      Declared6Sound2();
    } else if v == 3 {
      Declared6Sound3();
    } else {
      Declared6Sound4();
    }
  }

  lemma Declared6Sound1() ensures WellDeclared(Declared6(1), 6, 6) { }
  lemma Declared6Sound2() ensures WellDeclared(Declared6(2), 6, 6) { }
  lemma Declared6Sound3() ensures WellDeclared(Declared6(3), 6, 6) { }
  lemma Declared6Sound4() ensures WellDeclared(Declared6(4), 6, 6) { }

  lemma Declared6Slots(v: nat)
    requires v in VariantKeys(6)
    ensures ClassSlots(Layout6.sizes[0], Some(v)) + ClassSlots(Layout6.sizes[1], Some(v)) == Declared6(v)
  {
    if v == 1 {
      assert PositionsFor(Layout6.sizes[0], Some(1)) == Some([Pos(0, 0), Pos(0, 3)]);
      assert PositionsFor(Layout6.sizes[1], Some(1)) == Some([Pos(3, 0), Pos(3, 2), Pos(3, 4)]);
    } else if v == 2 {
      assert PositionsFor(Layout6.sizes[0], Some(2)) == Some([Pos(3, 0), Pos(3, 3)]);
      assert PositionsFor(Layout6.sizes[1], Some(2)) == Some([Pos(0, 0), Pos(0, 2), Pos(0, 4)]);
    } else if v == 3 {
      assert PositionsFor(Layout6.sizes[0], Some(3)) == Some([Pos(0, 0), Pos(3, 1)]);
      assert PositionsFor(Layout6.sizes[1], Some(3)) == Some([Pos(0, 4), Pos(2, 4), Pos(4, 4)]);
    } else {
      assert PositionsFor(Layout6.sizes[0], Some(4)) == Some([Pos(0, 3), Pos(3, 2)]);
      assert PositionsFor(Layout6.sizes[1], Some(4)) == Some([Pos(0, 0), Pos(2, 0), Pos(4, 0)]);
    }
  }

  lemma Catalog6WellDeclared(v: nat)
    requires v in VariantKeys(6)
    ensures WellDeclared(Slots(Layout6.sizes, Some(v)), 6, 6)
  {
    SlotsOfThree(Layout6.sizes[0], Layout6.sizes[1], Layout6.sizes[2], Some(v));
    SmallSlots(6, Some(v));
    Declared6Slots(v);
    Declared6Sound(v);
    WellDeclaredWithSmalls(Declared6(v), Smalls6, 6, 6);
  }

  /** For every template and every variant the random choice can pick, the
      declared squares lie inside the grid, are pairwise disjoint, and are
      declared for exactly the medium and large slots. */
  lemma CatalogWellDeclared(g: nat, v: nat)
    requires CollageLayouts(g).Some? && v in VariantKeys(g)
    ensures var l := CollageLayouts(g).value; WellDeclared(Slots(l.sizes, Some(v)), l.cols, l.rows)
  {
    if g == 4 {
      Catalog4WellDeclared(v);
    } else if g == 5 {
      Catalog5WellDeclared(v);
    } else {
      Catalog6WellDeclared(v);
    }
  }
}
