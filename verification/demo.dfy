/**
 * The demo collage: its own template table (counts and footprints only, no
 * declared positions), the count-based fallback `getDynamicLayout`, the
 * template lookup, the demo item count, and its size-assignment loop.
 *
 * The demo's `canPlaceAtPosition`, `markCellsAsOccupied` and
 * `findAvailablePositionForSquare` wrap every footprint in `Math.ceil`; the
 * footprints are whole numbers, so they are the grid helpers of
 * `OccupancyGrid` and are not repeated here.
 */
module Demo {
  import opened Wrappers
  import opened Layouts
  import opened Planner

  const DemoLayout4: Layout := Layout(4, 4, [
    SizeClass(Large, 0, 3, None),
    SizeClass(Medium, 2, 2, None),
    SizeClass(Small, 8, 1, None)], 10)

  const DemoLayout5: Layout := Layout(5, 5, [
    SizeClass(Large, 1, 3, None),
    SizeClass(Medium, 2, 2, None),
    SizeClass(Small, 8, 1, None)], 11)

  const DemoLayout6: Layout := Layout(6, 6, [
    SizeClass(Large, 2, 3, None),
    SizeClass(Medium, 3, 2, None),
    SizeClass(Small, 6, 1, None)], 11)

  /** The demo's `COLLAGE_LAYOUTS[gridSize]`. */
  function DemoLayouts(gridSize: nat): (r: Option<Layout>)
    ensures r.Some? <==> gridSize in {4, 5, 6}
    ensures r.Some? ==> r.value.cols == gridSize && r.value.rows == gridSize
  {
    if gridSize == 4 then Some(DemoLayout4)
    else if gridSize == 5 then Some(DemoLayout5)
    else if gridSize == 6 then Some(DemoLayout6)
    else None
  }

  /** Every demo template tiles its grid exactly and its counts add up to its image count. */
  lemma DemoCapacity(gridSize: nat)
    requires DemoLayouts(gridSize).Some?
    ensures var l := DemoLayouts(gridSize).value;
      Area(l.sizes) == l.cols * l.rows && TotalCount(l.sizes) == l.imageCount
  {
  }

  /** `getDynamicLayout`: the 4x4 template up to 10 items, the 5x5 template
      up to 16, nothing beyond. */
  function DynamicLayout(count: nat): Option<Layout> {
    if count <= 10 then DemoLayouts(4)
    else if count <= 16 then DemoLayouts(5)
    else None
  }

  lemma DynamicLayoutCases(count: nat)
    ensures count <= 10 ==> DynamicLayout(count) == Some(DemoLayout4)
    ensures 10 < count <= 16 ==> DynamicLayout(count) == Some(DemoLayout5)
    ensures DynamicLayout(count).None? <==> count > 16
  {
  }

  /** The template the demo collage uses: the table entry for the grid size,
      else the count-based one; `None` stands for no template at all. */
  function ChooseLayout(gridSize: nat, count: nat): Option<Layout> {
    if DemoLayouts(gridSize).Some? then DemoLayouts(gridSize) else DynamicLayout(count)
  }

  /** A table size is used as is; any other size (7 is offered in the menu)
      falls back to the count-based template. */
  lemma ChooseLayoutFallback(gridSize: nat, count: nat)
    ensures gridSize in {4, 5, 6} ==> ChooseLayout(gridSize, count) == DemoLayouts(gridSize)
    ensures gridSize !in {4, 5, 6} ==> ChooseLayout(gridSize, count) == DynamicLayout(count)
    ensures gridSize == 7 && count <= 10 ==> ChooseLayout(gridSize, count) == Some(DemoLayout4)
  {
  }

  /** The grid sizes of the demo's menu. */
  const MenuSizes: set<nat> := {4, 5, 6, 7}

  /** The demo item count as written: `COLLAGE_LAYOUTS[gridSize].imageCount || 10`.
      For a size missing from the table the property access on `undefined`
      throws before the fallback is reached; `None` stands for that throw. */
  function DemoImageCountAsWritten(gridSize: nat): Option<nat> {
    match DemoLayouts(gridSize)
    case None => None
    case Some(l) => Some(if l.imageCount == 0 then 10 else l.imageCount)
  }

  /** Menu entry 7 throws in the demo item count as written. */
  lemma MenuSizeSevenThrows()
    ensures 7 in MenuSizes && DemoImageCountAsWritten(7).None?
  {
  }

  /** The demo item count with the fallback reachable: the table count, or
      10 when the size is missing (or its count is 0). */
  function DemoImageCount(gridSize: nat): (n: nat)
    ensures DemoLayouts(gridSize).None? ==> n == 10
    ensures DemoImageCountAsWritten(gridSize).Some? ==> n == DemoImageCountAsWritten(gridSize).value
  {
    match DemoLayouts(gridSize)
    case None => 10
    case Some(l) => if l.imageCount == 0 then 10 else l.imageCount
  }

  /** With the corrected count every menu entry gets items and a template:
      7 falls back to the 4x4 template with 10 items. */
  lemma MenuSizesHaveLayouts(gridSize: nat)
    requires gridSize in MenuSizes
    ensures ChooseLayout(gridSize, DemoImageCount(gridSize)).Some?
    ensures gridSize == 7 ==> ChooseLayout(gridSize, DemoImageCount(gridSize)) == Some(DemoLayout4)
  {
  }

  // ---------------------------------------------------------------------
  // Size assignment

  /** The footprint the demo pushes for a class: 3 and 2 as is, anything else 1. */
  function Tier(size: nat): (t: nat)
    ensures PhaseOf(t) == PhaseOf(size)
  {
    if size == 3 then 3 else if size == 2 then 2 else 1
  }

  function DemoClass(sc: SizeClass): SizeClass {
    SizeClass(sc.kind, sc.count, Tier(sc.size), None)
  }

  /** The template as the demo's assignment loop sees it: footprints tiered,
      no declared positions. */
  function DemoView(layout: Layout): (v: Layout)
    ensures v.cols == layout.cols && v.rows == layout.rows && v.imageCount == layout.imageCount
    ensures |v.sizes| == |layout.sizes|
    ensures forall i :: 0 <= i < |layout.sizes| ==> v.sizes[i] == DemoClass(layout.sizes[i])
    ensures forall i :: 0 <= i < |layout.sizes| ==>
      && v.sizes[i].count == layout.sizes[i].count
      && v.sizes[i].positions.None?
      && 1 <= v.sizes[i].size <= 3
      && PhaseOf(v.sizes[i].size) == PhaseOf(layout.sizes[i].size)
  {
    Layout(layout.cols, layout.rows, seq(|layout.sizes|, i requires 0 <= i < |layout.sizes| => DemoClass(layout.sizes[i])),
           layout.imageCount)
  }

  /** Slot i of class ci of the demo view is an undeclared tile of the tiered
      footprint, and appending it to the bucket of that footprint keeps the
      buckets in step with the entries. */
  lemma DemoBucketStep(layout: Layout, ci: nat, i: nat, k: nat,
                        large: seq<Assignment>, medium: seq<Assignment>, small: seq<Assignment>)
    requires ci < |layout.sizes| && i < layout.sizes[ci].count
    requires k == |Slots(DemoView(layout).sizes[..ci], None)| + i
    requires Bucketed(DemoView(layout), None, k, large, medium, small)
    ensures var view, a := DemoView(layout), Assignment(k, Tier(layout.sizes[ci].size), None);
      && (a.size == 3 ==> Bucketed(view, None, k + 1, large + [a], medium, small))
      && (a.size == 2 ==> Bucketed(view, None, k + 1, large, medium + [a], small))
      && (a.size != 3 && a.size != 2 ==> Bucketed(view, None, k + 1, large, medium, small + [a]))
  {
    var view := DemoView(layout);
    assert view.sizes[ci] == DemoClass(layout.sizes[ci]);
    ClassEntry(view, None, ci, i);
    BucketStep(view, None, k, Assignment(k, Tier(layout.sizes[ci].size), None), large, medium, small);
  }

  /** One class of the demo's assignment loop. */
  method DemoAssignClass(layout: Layout, n: nat, ci: nat, current0: nat,
                         large0: seq<Assignment>, medium0: seq<Assignment>, small0: seq<Assignment>)
    returns (current: nat, large: seq<Assignment>, medium: seq<Assignment>, small: seq<Assignment>)
    requires ci < |layout.sizes|
    requires current0 == Min(n, |Slots(DemoView(layout).sizes[..ci], None)|)
    requires Bucketed(DemoView(layout), None, current0, large0, medium0, small0)
    ensures current == Min(n, |Slots(DemoView(layout).sizes[..ci + 1], None)|)
    ensures Bucketed(DemoView(layout), None, current, large, medium, small)
  {
    var view := DemoView(layout);
    var sizeDef := layout.sizes[ci];
    ghost var before := |Slots(view.sizes[..ci], None)|;
    ClassRange(view.sizes, None, ci);
    assert view.sizes[ci].count == sizeDef.count;
    current, large, medium, small := current0, large0, medium0, small0;
    var i := 0;
    while i < sizeDef.count && current < n
      invariant 0 <= i <= sizeDef.count
      invariant current == Min(n, before + i)
      invariant Bucketed(view, None, current, large, medium, small)
    {
      assert current == before + i;
      DemoBucketStep(layout, ci, i, current, large, medium, small);
      if sizeDef.size == 3 {
        large := large + [Assignment(current, 3, None)];
      } else if sizeDef.size == 2 {
        medium := medium + [Assignment(current, 2, None)];
      } else {
        small := small + [Assignment(current, 1, None)];
      }
      current := current + 1;
      i := i + 1;
    }
  }

  /** The demo's assignment loop and `sizeAssignments`: large, then medium,
      then small, with the leftovers as 1x1 tiles. */
  method DemoSizeAssignments(layout: Layout, n: nat) returns (sizeAssignments: seq<Assignment>)
    ensures sizeAssignments == Phased(DemoView(layout), None, n)
  {
    var view := DemoView(layout);
    var large, medium, small := [], [], [];
    var current := 0;
    var ci := 0;
    while ci < |layout.sizes|
      invariant 0 <= ci <= |layout.sizes|
      invariant current == Min(n, |Slots(view.sizes[..ci], None)|)
      invariant Bucketed(view, None, current, large, medium, small)
    {
      current, large, medium, small := DemoAssignClass(layout, n, ci, current, large, medium, small);
      ci := ci + 1;
    }
    assert view.sizes[..|view.sizes|] == view.sizes;
    while current < n
      invariant current <= n
      invariant current == n || current >= |Slots(view.sizes, None)|
      invariant Bucketed(view, None, current, large, medium, small)
    {
      BucketStep(view, None, current, Assignment(current, 1, None), large, medium, small);
      small := small + [Assignment(current, 1, None)];
      current := current + 1;
    }
    sizeAssignments := large + medium + small;
  }

  /** The demo's combined list is a permutation of the entries of items
      0 .. n-1 (so every index occurs exactly once), with no declared
      positions, large before medium before small. */
  lemma DemoAssignmentsArePermutation(layout: Layout, n: nat)
    ensures var p := Phased(DemoView(layout), None, n);
      && |p| == n
      && multiset(p) == multiset(AllEntries(DemoView(layout), None, n))
      && (forall k :: 0 <= k < n ==> AllEntries(DemoView(layout), None, n)[k].index == k)
      && (forall t :: 0 <= t < |p| ==> p[t].position.None? && p[t].size in {1, 2, 3})
      && (forall t, u :: 0 <= t < u < |p| ==> PhaseRank(PhaseOf(p[t].size)) <= PhaseRank(PhaseOf(p[u].size)))
  {
    var view := DemoView(layout);
    var p := Phased(view, None, n);
    PhasedEntries(view, None, n);
    PhasedPermutation(view, None, n);
    PhasedOrdered(view, None, n);
    var sl := Slots(view.sizes, None);
    SlotsUndeclared(view.sizes);
    forall t | 0 <= t < |p|
      ensures p[t].position.None? && p[t].size in {1, 2, 3}
    {
      if p[t].index < |sl| {
        assert sl[p[t].index] in sl;
      }
    }
  }

  /** Every demo slot has no position and a tiered footprint. */
  lemma {:induction false} SlotsUndeclared(sizes: seq<SizeClass>)
    requires forall i :: 0 <= i < |sizes| ==> sizes[i].positions.None? && sizes[i].size in {1, 2, 3}
    ensures forall s :: s in Slots(sizes, None) ==> s.position.None? && s.size in {1, 2, 3}
  {
    if |sizes| > 0 {
      SlotsUndeclared(sizes[1..]);
      ClassSlotsAt(sizes[0].size, PositionsFor(sizes[0], None), sizes[0].count);
    }
  }
}
