/**
 * The planning half of the "varying sizes" `drawCollage`: hand item indices
 * to the template's size classes in order (leftovers become 1x1 tiles),
 * bucket the assignments into large, medium and small phases, then resolve
 * them phase by phase on a fresh occupancy grid: a declared position is
 * reserved as is, any other tile takes the first row-major fit, and a tile
 * with no fit (or whose image failed to load) is skipped.
 *
 * The random variant key and the image loads are parameters: `variant` is one
 * possible outcome of the key choice, and `loaded[i]` says whether item i's
 * image fired `onload` (true) or `onerror` (false).
 */
module Planner {
  import opened Wrappers
  import opened OccupancyGrid
  import opened Layouts
  import opened Catalog

  datatype Phase = LargePhase | MediumPhase | SmallPhase

  /** Footprint 3 is drawn in the large phase, 2 in the medium phase, anything else in the small phase. */
  function PhaseOf(size: nat): Phase {
    if size == 3 then LargePhase else if size == 2 then MediumPhase else SmallPhase
  }

  /** An item index handed to a size class, with the class footprint and the
      slot's declared position, if any. */
  datatype Assignment = Assignment(index: nat, size: nat, position: Option<Pos>)

  /** A reserved tile: the item index, its footprint and its top-left cell. */
  datatype Placement = Placement(index: nat, size: nat, pos: Pos)

  function Min(a: int, b: int): int { if a <= b then a else b }

  /** What item k is assigned: template slot k when the template has one,
      else a 1x1 tile with no position. */
  function EntryAt(layout: Layout, variant: Option<nat>, k: nat): (a: Assignment)
    ensures a.index == k
    ensures var s := Slots(layout.sizes, variant);
      k < |s| ==> a.size == s[k].size && a.position == s[k].position
    ensures k >= |Slots(layout.sizes, variant)| ==> a.size == 1 && a.position.None?
  {
    var s := Slots(layout.sizes, variant);
    if k < |s| then Assignment(k, s[k].size, s[k].position) else Assignment(k, 1, None)
  }

  /** The assignments of items 0 .. n-1, in index order: item k takes
      template slot k while there is one, and is an undeclared 1x1 tile after. */
  function AllEntries(layout: Layout, variant: Option<nat>, n: nat): (r: seq<Assignment>)
    ensures |r| == n && forall k :: 0 <= k < n ==> r[k] == EntryAt(layout, variant, k)
    ensures var s := Slots(layout.sizes, variant);
      forall k :: 0 <= k < n ==>
        && r[k].index == k
        && (k < |s| ==> r[k].size == s[k].size && r[k].position == s[k].position)
        && (k >= |s| ==> r[k] == Assignment(k, 1, None))
  {
    seq(n, k requires 0 <= k < n => EntryAt(layout, variant, k))
  }

  /** The assignments of `s` that belong to phase `ph`, in their order in `s`. */
  function InPhase(ph: Phase, s: seq<Assignment>): seq<Assignment> {
    if |s| == 0 then []
    else InPhase(ph, s[..|s| - 1]) + (if PhaseOf(s[|s| - 1].size) == ph then [s[|s| - 1]] else [])
  }

  /** The combined list in drawing order: all large, then all medium, then all small. */
  function Phased(layout: Layout, variant: Option<nat>, n: nat): seq<Assignment> {
    var all := AllEntries(layout, variant, n);
    InPhase(LargePhase, all) + InPhase(MediumPhase, all) + InPhase(SmallPhase, all)
  }

  lemma InPhaseSnoc(ph: Phase, s: seq<Assignment>, e: Assignment)
    ensures InPhase(ph, s + [e]) == InPhase(ph, s) + (if PhaseOf(e.size) == ph then [e] else [])
  {
    assert (s + [e])[..|s|] == s;
  }

  lemma AllEntriesSnoc(layout: Layout, variant: Option<nat>, k: nat)
    ensures AllEntries(layout, variant, k + 1) == AllEntries(layout, variant, k) + [EntryAt(layout, variant, k)]
  {
  }

  /** Slots of a prefix of the classes are a prefix of all slots. */
  lemma {:induction false} SlotsPrefix(sizes: seq<SizeClass>, j: nat, variant: Option<nat>)
    requires j <= |sizes|
    ensures Slots(sizes[..j], variant) <= Slots(sizes, variant)
    decreases |sizes| - j
  {
    if j == |sizes| {
      assert sizes[..j] == sizes;
    } else {
      SlotsPrefix(sizes, j + 1, variant);
      assert sizes[..j + 1] == sizes[..j] + [sizes[j]];
      SlotsSnoc(sizes[..j], sizes[j], variant);
    }
  }

  /** Slot i of class ci is the entry of item |slots before class ci| + i. */
  lemma ClassEntry(layout: Layout, variant: Option<nat>, ci: nat, i: nat)
    requires ci < |layout.sizes| && i < layout.sizes[ci].count
    ensures EntryAt(layout, variant, |Slots(layout.sizes[..ci], variant)| + i)
         == Assignment(|Slots(layout.sizes[..ci], variant)| + i, layout.sizes[ci].size,
                       PosAt(PositionsFor(layout.sizes[ci], variant), i))
  {
    var sizeDef := layout.sizes[ci];
    SlotsPrefix(layout.sizes, ci + 1, variant);
    assert layout.sizes[..ci + 1] == layout.sizes[..ci] + [sizeDef];
    SlotsSnoc(layout.sizes[..ci], sizeDef, variant);
    ClassSlotsAt(sizeDef.size, PositionsFor(sizeDef, variant), sizeDef.count);
  }

  /** The three buckets hold the phase filters of the entries of items 0 .. k-1. */
  ghost predicate Bucketed(layout: Layout, variant: Option<nat>, k: nat,
                           large: seq<Assignment>, medium: seq<Assignment>, small: seq<Assignment>)
  {
    && large == InPhase(LargePhase, AllEntries(layout, variant, k))
    && medium == InPhase(MediumPhase, AllEntries(layout, variant, k))
    && small == InPhase(SmallPhase, AllEntries(layout, variant, k))
  }

  /** Appending the entry of the next item to the bucket of its footprint
      keeps the buckets equal to the phase filters of the entries so far. */
  lemma BucketStep(layout: Layout, variant: Option<nat>, k: nat, a: Assignment,
                   large: seq<Assignment>, medium: seq<Assignment>, small: seq<Assignment>)
    requires a == EntryAt(layout, variant, k)
    requires Bucketed(layout, variant, k, large, medium, small)
    ensures a.size == 3 ==> Bucketed(layout, variant, k + 1, large + [a], medium, small)
    ensures a.size == 2 ==> Bucketed(layout, variant, k + 1, large, medium + [a], small)
    ensures a.size != 3 && a.size != 2 ==> Bucketed(layout, variant, k + 1, large, medium, small + [a])
  {
    AllEntriesSnoc(layout, variant, k);
    InPhaseSnoc(LargePhase, AllEntries(layout, variant, k), a);
    InPhaseSnoc(MediumPhase, AllEntries(layout, variant, k), a);
    InPhaseSnoc(SmallPhase, AllEntries(layout, variant, k), a);
  }

  /** The number of slots up to and including class ci. */
  lemma ClassRange(sizes: seq<SizeClass>, variant: Option<nat>, ci: nat)
    requires ci < |sizes|
    ensures |Slots(sizes[..ci + 1], variant)| == |Slots(sizes[..ci], variant)| + sizes[ci].count
  {
    assert sizes[..ci + 1] == sizes[..ci] + [sizes[ci]];
    SlotsSnoc(sizes[..ci], sizes[ci], variant);
    ClassSlotsAt(sizes[ci].size, PositionsFor(sizes[ci], variant), sizes[ci].count);
  }

  /** Slot i of class ci is the entry of the next item, and appending it to
      the bucket of its footprint keeps the buckets in step with the entries. */
  lemma ClassStep(layout: Layout, variant: Option<nat>, ci: nat, i: nat, k: nat,
                  large: seq<Assignment>, medium: seq<Assignment>, small: seq<Assignment>)
    requires ci < |layout.sizes| && i < layout.sizes[ci].count
    requires k == |Slots(layout.sizes[..ci], variant)| + i
    requires Bucketed(layout, variant, k, large, medium, small)
    ensures var a := Assignment(k, layout.sizes[ci].size, PosAt(PositionsFor(layout.sizes[ci], variant), i));
      && (a.size == 3 ==> Bucketed(layout, variant, k + 1, large + [a], medium, small))
      && (a.size == 2 ==> Bucketed(layout, variant, k + 1, large, medium + [a], small))
      && (a.size != 3 && a.size != 2 ==> Bucketed(layout, variant, k + 1, large, medium, small + [a]))
  {
    ClassEntry(layout, variant, ci, i);
    BucketStep(layout, variant, k, EntryAt(layout, variant, k), large, medium, small);
  }

  /** One class of the size-assignment loop: hand the next item indices,
      at most `count` of them and none at or past `n`, to class ci. */
  method AssignClass(layout: Layout, variant: Option<nat>, n: nat, ci: nat, current0: nat,
                     large0: seq<Assignment>, medium0: seq<Assignment>, small0: seq<Assignment>)
    returns (current: nat, large: seq<Assignment>, medium: seq<Assignment>, small: seq<Assignment>)
    requires ci < |layout.sizes|
    requires current0 == Min(n, |Slots(layout.sizes[..ci], variant)|)
    requires Bucketed(layout, variant, current0, large0, medium0, small0)
    ensures current == Min(n, |Slots(layout.sizes[..ci + 1], variant)|)
    ensures Bucketed(layout, variant, current, large, medium, small)
  {
    var sizeDef := layout.sizes[ci];
    var positions := PositionsFor(sizeDef, variant);
    ghost var before := |Slots(layout.sizes[..ci], variant)|;
    ClassRange(layout.sizes, variant, ci);
    current, large, medium, small := current0, large0, medium0, small0;
    var i := 0;
    while i < sizeDef.count && current < n
      invariant 0 <= i <= sizeDef.count
      invariant current == Min(n, before + i)
      invariant Bucketed(layout, variant, current, large, medium, small)
    {
      var assignment := Assignment(current, sizeDef.size, PosAt(positions, i));
      assert current == before + i;
      ClassStep(layout, variant, ci, i, current, large, medium, small);
      if sizeDef.size == 3 {
        large := large + [assignment];
      } else if sizeDef.size == 2 {
        medium := medium + [assignment];
      } else {
        small := small + [assignment];
      }
      current := current + 1;
      i := i + 1;
    }
  }

  /** The size-assignment loops of `drawCollage`: classes consume item
      indices in order, each at most `count` of them, slot i taking
      `positions[i]` when present; the indices left over become 1x1 tiles;
      every assignment lands in the bucket of its footprint. */
  method AssignSizes(layout: Layout, variant: Option<nat>, n: nat)
    returns (large: seq<Assignment>, medium: seq<Assignment>, small: seq<Assignment>)
    ensures large == InPhase(LargePhase, AllEntries(layout, variant, n))
    ensures medium == InPhase(MediumPhase, AllEntries(layout, variant, n))
    ensures small == InPhase(SmallPhase, AllEntries(layout, variant, n))
  {
    large, medium, small := [], [], [];
    var current := 0;
    var ci := 0;
    while ci < |layout.sizes|
      invariant 0 <= ci <= |layout.sizes|
      invariant current == Min(n, |Slots(layout.sizes[..ci], variant)|)
      invariant Bucketed(layout, variant, current, large, medium, small)
    {
      current, large, medium, small := AssignClass(layout, variant, n, ci, current, large, medium, small);
      ci := ci + 1;
    }
    assert layout.sizes[..|layout.sizes|] == layout.sizes;
    large, medium, small := AssignRest(layout, variant, n, current, large, medium, small);
  }

  /** The remainder loop: every index not covered by a class becomes a 1x1 tile. */
  method AssignRest(layout: Layout, variant: Option<nat>, n: nat, current0: nat,
                    large0: seq<Assignment>, medium0: seq<Assignment>, small0: seq<Assignment>)
    returns (large: seq<Assignment>, medium: seq<Assignment>, small: seq<Assignment>)
    requires current0 == Min(n, |Slots(layout.sizes, variant)|)
    requires Bucketed(layout, variant, current0, large0, medium0, small0)
    ensures Bucketed(layout, variant, n, large, medium, small)
  {
    large, medium, small := large0, medium0, small0;
    var current := current0;
    while current < n
      invariant current0 <= current <= n
      invariant current == n || current >= |Slots(layout.sizes, variant)|
      invariant Bucketed(layout, variant, current, large, medium, small)
    {
      var assignment := Assignment(current, 1, None);
      BucketStep(layout, variant, current, assignment, large, medium, small);
      small := small + [assignment];
      current := current + 1;
    }
  }

  // ---------------------------------------------------------------------
  // Properties of the phase split

  /** The phase filter keeps exactly the assignments of that phase. */
  lemma {:induction false} InPhaseMembers(ph: Phase, s: seq<Assignment>)
    ensures forall x :: x in InPhase(ph, s) <==> x in s && PhaseOf(x.size) == ph
  {
    if |s| > 0 {
      InPhaseMembers(ph, s[..|s| - 1]);
      assert s == s[..|s| - 1] + [s[|s| - 1]];
    }
  }

  /** The three phase filters split a list without losing or duplicating anything. */
  lemma {:induction false} InPhaseCount(s: seq<Assignment>)
    ensures |InPhase(LargePhase, s)| + |InPhase(MediumPhase, s)| + |InPhase(SmallPhase, s)| == |s|
  {
    if |s| > 0 {
      InPhaseCount(s[..|s| - 1]);
    }
  }

  /** A phase filter keeps every copy of an entry of its phase and no copy of any other. */
  lemma {:induction false} InPhaseMultiplicity(ph: Phase, s: seq<Assignment>, x: Assignment)
    ensures multiset(InPhase(ph, s))[x] == if PhaseOf(x.size) == ph then multiset(s)[x] else 0
  {
    if |s| > 0 {
      var init, e := s[..|s| - 1], s[|s| - 1];
      InPhaseMultiplicity(ph, init, x);
      assert s == init + [e];
      InPhaseSnoc(ph, init, e);
    }
  }

  /** Together the three phase filters hold every assignment exactly as often as the list does. */
  lemma InPhaseMultiset(s: seq<Assignment>)
    ensures multiset(InPhase(LargePhase, s)) + multiset(InPhase(MediumPhase, s)) + multiset(InPhase(SmallPhase, s))
         == multiset(s)
  {
    var sum := multiset(InPhase(LargePhase, s)) + multiset(InPhase(MediumPhase, s)) + multiset(InPhase(SmallPhase, s));
    forall x ensures sum[x] == multiset(s)[x] {
      InPhaseMultiplicity(LargePhase, s, x);
      InPhaseMultiplicity(MediumPhase, s, x);
      InPhaseMultiplicity(SmallPhase, s, x);
    }
  }

  /** The drawing order is a permutation of the entries of items 0 .. n-1:
      every item index is assigned exactly once. */
  lemma PhasedPermutation(layout: Layout, variant: Option<nat>, n: nat)
    ensures multiset(Phased(layout, variant, n)) == multiset(AllEntries(layout, variant, n))
  {
    InPhaseMultiset(AllEntries(layout, variant, n));
  }

  ghost predicate IncreasingIndices(s: seq<Assignment>) {
    forall t, u :: 0 <= t < u < |s| ==> s[t].index < s[u].index
  }

  /** Filtering keeps the index order. */
  lemma {:induction false} InPhaseIncreasing(ph: Phase, s: seq<Assignment>)
    requires IncreasingIndices(s)
    ensures IncreasingIndices(InPhase(ph, s))
  {
    if |s| > 0 {
      var init := s[..|s| - 1];
      InPhaseIncreasing(ph, init);
      InPhaseMembers(ph, init);
      var f := InPhase(ph, init);
      forall t | 0 <= t < |f|
        ensures f[t].index < s[|s| - 1].index
      {
        assert f[t] in init;
      }
    }
  }

  /** Every assignment of the drawing order is the entry of an item below n. */
  lemma PhasedEntries(layout: Layout, variant: Option<nat>, n: nat)
    ensures var p := Phased(layout, variant, n);
      && |p| == n
      && forall t :: 0 <= t < |p| ==> p[t].index < n && p[t] == EntryAt(layout, variant, p[t].index)
  {
    var all := AllEntries(layout, variant, n);
    InPhaseCount(all);
    InPhaseMembers(LargePhase, all);
    InPhaseMembers(MediumPhase, all);
    InPhaseMembers(SmallPhase, all);
    var p := Phased(layout, variant, n);
    forall t | 0 <= t < |p|
      ensures p[t] in all
    {
      assert p[t] in InPhase(LargePhase, all) || p[t] in InPhase(MediumPhase, all) || p[t] in InPhase(SmallPhase, all);
    }
  }

  /** Position t of the drawing order holds a tile of the phase of its segment. */
  lemma PhasedRanks(layout: Layout, variant: Option<nat>, n: nat)
    ensures var all := AllEntries(layout, variant, n);
      var l, m := InPhase(LargePhase, all), InPhase(MediumPhase, all);
      var p := Phased(layout, variant, n);
      forall t :: 0 <= t < |p| ==>
        PhaseRank(PhaseOf(p[t].size)) == (if t < |l| then 0 else if t < |l| + |m| then 1 else 2)
  {
    var all := AllEntries(layout, variant, n);
    var l, m, sm := InPhase(LargePhase, all), InPhase(MediumPhase, all), InPhase(SmallPhase, all);
    InPhaseMembers(LargePhase, all);
    InPhaseMembers(MediumPhase, all);
    InPhaseMembers(SmallPhase, all);
    var p := l + m + sm;
    forall t | 0 <= t < |p|
      ensures PhaseRank(PhaseOf(p[t].size)) == (if t < |l| then 0 else if t < |l| + |m| then 1 else 2)
    {
      if t < |l| { assert p[t] in l; }
      else if t < |l| + |m| { assert p[t] == m[t - |l|]; assert p[t] in m; }
      else { assert p[t] == sm[t - |l| - |m|]; assert p[t] in sm; }
    }
  }

  /** The drawing order lists large tiles, then medium, then small. */
  lemma PhasedOrdered(layout: Layout, variant: Option<nat>, n: nat)
    ensures var p := Phased(layout, variant, n);
      forall t, u :: 0 <= t < u < |p| ==> PhaseRank(PhaseOf(p[t].size)) <= PhaseRank(PhaseOf(p[u].size))
  {
    PhasedRanks(layout, variant, n);
  }

  /** No item index occurs twice in the drawing order. */
  lemma PhasedDistinct(layout: Layout, variant: Option<nat>, n: nat)
    ensures var p := Phased(layout, variant, n);
      forall t, u :: 0 <= t < u < |p| ==> p[t].index != p[u].index
  {
    var all := AllEntries(layout, variant, n);
    var l, m, sm := InPhase(LargePhase, all), InPhase(MediumPhase, all), InPhase(SmallPhase, all);
    InPhaseIncreasing(LargePhase, all);
    InPhaseIncreasing(MediumPhase, all);
    InPhaseIncreasing(SmallPhase, all);
    PhasedEntries(layout, variant, n);
    PhasedRanks(layout, variant, n);
    var p := l + m + sm;
    forall t, u | 0 <= t < u < |p|
      ensures p[t].index != p[u].index
    {
      if u < |l| {
        assert p[t] == l[t] && p[u] == l[u];
      } else if t >= |l| && u < |l| + |m| {
        assert p[t] == m[t - |l|] && p[u] == m[u - |l|];
      } else if t >= |l| + |m| {
        assert p[t] == sm[t - |l| - |m|] && p[u] == sm[u - |l| - |m|];
      } else {
        // different segments: equal indices would make them the same entry
        assert PhaseRank(PhaseOf(p[t].size)) != PhaseRank(PhaseOf(p[u].size));
      }
    }
  }

  function PhaseRank(ph: Phase): nat {
    match ph
    case LargePhase => 0
    case MediumPhase => 1
    case SmallPhase => 2
  }

  // ---------------------------------------------------------------------
  // Resolving the phases on the occupancy grid

  /** The grid as it fills up, and the tiles reserved so far in drawing order. */
  datatype PlanState = PlanState(cells: Cells, placed: seq<Placement>)

  /** One `onload`/`onerror` callback: a failed image is skipped; a loaded one
      keeps its declared position or takes the first fit; with no position
      it is dropped, otherwise its cells are marked and the tile is reserved. */
  function Step(st: PlanState, a: Assignment, loaded: seq<bool>, cols: nat, rows: nat): PlanState {
    if !(a.index < |loaded| && loaded[a.index]) then st
    else
      var p := if a.position.Some? then a.position else FirstFit(st.cells, a.size, cols, rows);
      if p.None? then st
      else PlanState(Mark(st.cells, p.value.col, p.value.row, a.size, a.size),
                     st.placed + [Placement(a.index, a.size, p.value)])
  }

  /** Resolve a list of assignments one after the other. */
  function Resolve(st: PlanState, s: seq<Assignment>, loaded: seq<bool>, cols: nat, rows: nat): PlanState
    decreases |s|
  {
    if |s| == 0 then st else Resolve(Step(st, s[0], loaded, cols, rows), s[1..], loaded, cols, rows)
  }

  /** Resolving one phase after another is resolving their concatenation. */
  lemma {:induction false} ResolveAppend(st: PlanState, s: seq<Assignment>, t: seq<Assignment>,
                                         loaded: seq<bool>, cols: nat, rows: nat)
    ensures Resolve(st, s + t, loaded, cols, rows)
         == Resolve(Resolve(st, s, loaded, cols, rows), t, loaded, cols, rows)
    decreases |s|
  {
    if |s| == 0 {
      assert s + t == t;
    } else {
      assert (s + t)[0] == s[0];
      assert (s + t)[1..] == s[1..] + t;
      ResolveAppend(Step(st, s[0], loaded, cols, rows), s[1..], t, loaded, cols, rows);
    }
  }

  /** The tiles `drawCollage` reserves: the three phases resolved in order on
      an empty rows x cols grid. */
  ghost function Plan(layout: Layout, variant: Option<nat>, loaded: seq<bool>): seq<Placement> {
    Resolve(PlanState(EmptyCells(layout.rows, layout.cols), []),
            Phased(layout, variant, |loaded|), loaded, layout.cols, layout.rows).placed
  }

  /** The callbacks of one phase, in order, on the shared occupancy grid. */
  method ResolvePhase(grid: array2<bool>, phase: seq<Assignment>, loaded: seq<bool>,
                      cols: nat, rows: nat, placed0: seq<Placement>)
    returns (placed: seq<Placement>)
    requires grid.Length0 == rows && grid.Length1 == cols
    requires forall t :: 0 <= t < |phase| ==> phase[t].index < |loaded|
    modifies grid
    ensures PlanState(Snapshot(grid), placed)
         == Resolve(PlanState(old(Snapshot(grid)), placed0), phase, loaded, cols, rows)
  {
    placed := placed0;
    var i := 0;
    while i < |phase|
      invariant 0 <= i <= |phase|
      invariant Resolve(PlanState(Snapshot(grid), placed), phase[i..], loaded, cols, rows)
             == Resolve(PlanState(old(Snapshot(grid)), placed0), phase, loaded, cols, rows)
    {
      var a := phase[i];
      ghost var st := PlanState(Snapshot(grid), placed);
      assert phase[i..][1..] == phase[i + 1..];
      if loaded[a.index] {
        var position := a.position;
        if position.None? {
          position := FindAvailablePositionForSquare(grid, a.size, cols, rows);
        }
        if position.Some? {
          assert CanPlace(st.cells, position.value.col, position.value.row, a.size, a.size, cols, rows)
            || a.position.Some?;
          MarkCellsAsOccupied(grid, position.value.col, position.value.row, a.size, a.size);
          placed := placed + [Placement(a.index, a.size, position.value)];
        }
      }
      assert PlanState(Snapshot(grid), placed) == Step(st, a, loaded, cols, rows);
      i := i + 1;
    }
  }

  /** Every assignment of a phase is for an item below n. */
  lemma PhaseIndicesBelow(ph: Phase, layout: Layout, variant: Option<nat>, n: nat)
    ensures forall t :: 0 <= t < |InPhase(ph, AllEntries(layout, variant, n))| ==>
      InPhase(ph, AllEntries(layout, variant, n))[t].index < n
  {
    var all := AllEntries(layout, variant, n);
    InPhaseMembers(ph, all);
    forall t | 0 <= t < |InPhase(ph, all)|
      ensures InPhase(ph, all)[t].index < n
    {
      assert InPhase(ph, all)[t] in all;
    }
  }

  /** The planning part of `drawCollage` for one template: assign sizes,
      then resolve the large, medium and small phases on one fresh grid. */
  method PlanLayout(layout: Layout, variant: Option<nat>, loaded: seq<bool>) returns (placed: seq<Placement>)
    ensures placed == Plan(layout, variant, loaded)
  {
    var grid := new bool[layout.rows, layout.cols]((i, j) => false);
    assert forall i :: 0 <= i < layout.rows ==> Snapshot(grid)[i] == EmptyCells(layout.rows, layout.cols)[i];
    var large, medium, small := AssignSizes(layout, variant, |loaded|);
    PhaseIndicesBelow(LargePhase, layout, variant, |loaded|);
    PhaseIndicesBelow(MediumPhase, layout, variant, |loaded|);
    PhaseIndicesBelow(SmallPhase, layout, variant, |loaded|);
    ghost var st0 := PlanState(EmptyCells(layout.rows, layout.cols), []);
    assert PlanState(Snapshot(grid), []) == st0;
    placed := ResolvePhase(grid, large, loaded, layout.cols, layout.rows, []);
    ghost var st1 := PlanState(Snapshot(grid), placed);
    assert st1 == Resolve(st0, large, loaded, layout.cols, layout.rows);
    placed := ResolvePhase(grid, medium, loaded, layout.cols, layout.rows, placed);
    ghost var st2 := PlanState(Snapshot(grid), placed);
    assert st2 == Resolve(st1, medium, loaded, layout.cols, layout.rows);
    placed := ResolvePhase(grid, small, loaded, layout.cols, layout.rows, placed);
    assert PlanState(Snapshot(grid), placed) == Resolve(st2, small, loaded, layout.cols, layout.rows);
    ResolveAppend(st0, large, medium, loaded, layout.cols, layout.rows);
    ResolveAppend(st0, large + medium, small, loaded, layout.cols, layout.rows);
  }

  /** `drawCollage` up to the drawing: an unknown grid size yields no plan;
      otherwise the template of that size is planned with the chosen variant. */
  method PlanCollage(gridSize: nat, variant: Option<nat>, loaded: seq<bool>)
    returns (r: Option<seq<Placement>>)
    requires CollageLayouts(gridSize).Some? ==> IsVariantChoice(CollageLayouts(gridSize).value, variant)
    ensures r.None? <==> CollageLayouts(gridSize).None?
    ensures r.Some? ==> r.value == Plan(CollageLayouts(gridSize).value, variant, loaded)
    ensures r.Some? ==> SoundPlan(r.value, CollageLayouts(gridSize).value, variant, |loaded|)
  {
    var found := CollageLayouts(gridSize);
    if found.None? {
      return None;
    }
    var placed := PlanLayout(found.value, variant, loaded);
    CatalogPlanSound(gridSize, variant, loaded);
    return Some(placed);
  }

  // ---------------------------------------------------------------------
  // Soundness of the plan

  /** A reservation agrees with the item's entry: same footprint, and the
      declared position when there is one. */
  predicate Agrees(p: Placement, e: Assignment) {
    p.size == e.size && (e.position.Some? ==> p.pos == e.position.value)
  }

  predicate InGrid(p: Placement, cols: nat, rows: nat) {
    p.pos.row + p.size <= rows && p.pos.col + p.size <= cols
  }

  /** No cell is covered by both tiles. */
  ghost predicate Disjoint(p: Placement, q: Placement) {
    forall r, c :: !(Covers(p.pos.row, p.pos.col, p.size, p.size, r, c) && Covers(q.pos.row, q.pos.col, q.size, q.size, r, c))
  }

  /** Every cell of the tile is marked in `cells`. */
  ghost predicate Occupies(cells: Cells, p: Placement) {
    forall r, c :: Covers(p.pos.row, p.pos.col, p.size, p.size, r, c) ==> !Free(cells, r, c)
  }

  /** What a finished plan guarantees: every tile is inside the grid, belongs
      to an item below n and agrees with that item's entry; no two tiles
      share a cell or an item. */
  ghost predicate SoundPlan(ps: seq<Placement>, layout: Layout, variant: Option<nat>, n: nat) {
    && (forall j :: 0 <= j < |ps| ==>
          InGrid(ps[j], layout.cols, layout.rows) && ps[j].index < n
          && Agrees(ps[j], EntryAt(layout, variant, ps[j].index)))
    && (forall i, j :: 0 <= i < j < |ps| ==> Disjoint(ps[i], ps[j]) && ps[i].index != ps[j].index)
  }

  ghost predicate PlanInv(st: PlanState, layout: Layout, variant: Option<nat>, n: nat) {
    && IsRect(st.cells, layout.rows, layout.cols)
    && SoundPlan(st.placed, layout, variant, n)
    && forall j :: 0 <= j < |st.placed| ==> Occupies(st.cells, st.placed[j])
  }

  /** Two squares with a common cell overlap. */
  lemma CommonCellOverlap(p: Placement, q: Placement)
    ensures !Overlap(p.pos, p.size, q.pos, q.size) ==> Disjoint(p, q)
  {
  }

  /** A fresh tile placed by first fit misses every tile already reserved. */
  lemma FirstFitDisjoint(st: PlanState, layout: Layout, variant: Option<nat>, n: nat, np: Placement)
    requires PlanInv(st, layout, variant, n)
    requires CanPlace(st.cells, np.pos.col, np.pos.row, np.size, np.size, layout.cols, layout.rows)
    ensures forall j :: 0 <= j < |st.placed| ==> Disjoint(st.placed[j], np)
  {
    forall j | 0 <= j < |st.placed|
      ensures Disjoint(st.placed[j], np)
    {
      var q := st.placed[j];
      forall r, c
        ensures !(Covers(q.pos.row, q.pos.col, q.size, q.size, r, c) && Covers(np.pos.row, np.pos.col, np.size, np.size, r, c))
      {
        assert Covers(q.pos.row, q.pos.col, q.size, q.size, r, c) ==> !Free(st.cells, r, c);
        assert Covers(np.pos.row, np.pos.col, np.size, np.size, r, c) ==> Free(st.cells, r, c);
      }
    }
  }

  /** A declared tile misses every declared tile of another item. */
  lemma DeclaredDisjoint(st: PlanState, layout: Layout, variant: Option<nat>, n: nat, a: Assignment)
    requires PlanInv(st, layout, variant, n)
    requires WellDeclared(Slots(layout.sizes, variant), layout.cols, layout.rows)
    requires a == EntryAt(layout, variant, a.index) && a.position.Some?
    requires forall j :: 0 <= j < |st.placed| ==> st.placed[j].index != a.index
    requires forall j :: 0 <= j < |st.placed| ==> EntryAt(layout, variant, st.placed[j].index).position.Some?
    ensures InGrid(Placement(a.index, a.size, a.position.value), layout.cols, layout.rows)
    ensures forall j :: 0 <= j < |st.placed| ==> Disjoint(st.placed[j], Placement(a.index, a.size, a.position.value))
  {
    var sl := Slots(layout.sizes, variant);
    var np := Placement(a.index, a.size, a.position.value);
    assert a.index < |sl|;
    assert SlotFits(sl[a.index], layout.cols, layout.rows);
    forall j | 0 <= j < |st.placed|
      ensures Disjoint(st.placed[j], np)
    {
      var k := st.placed[j].index;
      assert k < |sl|;
      assert EntryAt(layout, variant, k) == Assignment(k, sl[k].size, sl[k].position);
      if k < a.index {
        assert !SlotsClash(sl[k], sl[a.index]);
      } else {
        assert !SlotsClash(sl[a.index], sl[k]);
      }
      CommonCellOverlap(st.placed[j], np);
    }
  }

  /** Marking a new in-grid tile keeps the old tiles marked and marks the new one. */
  lemma MarkOccupies(st: PlanState, layout: Layout, variant: Option<nat>, n: nat, np: Placement)
    requires PlanInv(st, layout, variant, n)
    requires InGrid(np, layout.cols, layout.rows)
    ensures var cells := Mark(st.cells, np.pos.col, np.pos.row, np.size, np.size);
      && IsRect(cells, layout.rows, layout.cols)
      && Occupies(cells, np)
      && forall j :: 0 <= j < |st.placed| ==> Occupies(cells, st.placed[j])
  {
  }

  /** One callback keeps the plan invariant, and adds at most one tile, for
      its own item. */
  lemma StepSound(st: PlanState, a: Assignment, loaded: seq<bool>, layout: Layout, variant: Option<nat>, n: nat)
    requires PlanInv(st, layout, variant, n)
    requires WellDeclared(Slots(layout.sizes, variant), layout.cols, layout.rows)
    requires a.index < n && a == EntryAt(layout, variant, a.index)
    requires forall j :: 0 <= j < |st.placed| ==> st.placed[j].index != a.index
    requires a.position.Some? ==>
      forall j :: 0 <= j < |st.placed| ==> EntryAt(layout, variant, st.placed[j].index).position.Some?
    ensures var st' := Step(st, a, loaded, layout.cols, layout.rows);
      && PlanInv(st', layout, variant, n)
      && (st'.placed == st.placed
          || (|st'.placed| == |st.placed| + 1 && st'.placed[..|st.placed|] == st.placed
              && st'.placed[|st.placed|].index == a.index))
  {
    var cols, rows := layout.cols, layout.rows;
    if a.index < |loaded| && loaded[a.index] {
      var p := if a.position.Some? then a.position else FirstFit(st.cells, a.size, cols, rows);
      if p.Some? {
        var np := Placement(a.index, a.size, p.value);
        if a.position.Some? {
          DeclaredDisjoint(st, layout, variant, n, a);
        } else {
          FirstFitIsFirst(st.cells, a.size, cols, rows);
          FirstFitDisjoint(st, layout, variant, n, np);
        }
        MarkOccupies(st, layout, variant, n, np);
        var st' := Step(st, a, loaded, cols, rows);
        assert st'.placed == st.placed + [np];
        assert st'.placed[..|st.placed|] == st.placed;
      }
    }
  }

  /** Declared tiles come first in the list: once an undeclared one appears,
      no declared one follows. */
  ghost predicate DeclaredFirst(s: seq<Assignment>) {
    forall t, u :: 0 <= t < u < |s| && s[u].position.Some? ==> s[t].position.Some?
  }

  /** Resolving a list of distinct entries keeps the plan invariant. */
  lemma {:induction false} ResolveSound(st: PlanState, s: seq<Assignment>, loaded: seq<bool>,
                                        layout: Layout, variant: Option<nat>, n: nat)
    requires PlanInv(st, layout, variant, n)
    requires WellDeclared(Slots(layout.sizes, variant), layout.cols, layout.rows)
    requires forall t :: 0 <= t < |s| ==> s[t].index < n && s[t] == EntryAt(layout, variant, s[t].index)
    requires forall t, u :: 0 <= t < u < |s| ==> s[t].index != s[u].index
    requires forall j, t :: 0 <= j < |st.placed| && 0 <= t < |s| ==> st.placed[j].index != s[t].index
    requires DeclaredFirst(s)
    requires |s| > 0 && s[0].position.Some? ==>
      forall j :: 0 <= j < |st.placed| ==> EntryAt(layout, variant, st.placed[j].index).position.Some?
    ensures PlanInv(Resolve(st, s, loaded, layout.cols, layout.rows), layout, variant, n)
    decreases |s|
  {
    if |s| > 0 {
      var st' := Step(st, s[0], loaded, layout.cols, layout.rows);
      StepSound(st, s[0], loaded, layout, variant, n);
      var rest := s[1..];
      forall j, t | 0 <= j < |st'.placed| && 0 <= t < |rest|
        ensures st'.placed[j].index != rest[t].index
      {
        if j < |st.placed| {
          assert st'.placed[j] == st.placed[j];
          assert rest[t] == s[t + 1];
        } else {
          assert rest[t] == s[t + 1];
        }
      }
      if |rest| > 0 && rest[0].position.Some? {
        assert s[0].position.Some?;
        forall j | 0 <= j < |st'.placed|
          ensures EntryAt(layout, variant, st'.placed[j].index).position.Some?
        {
          if j < |st.placed| {
            assert st'.placed[j] == st.placed[j];
          }
        }
      }
      ResolveSound(st', rest, loaded, layout, variant, n);
    }
  }

  /** On a template whose slot table is well declared, the plan is sound. */
  lemma PlanSound(layout: Layout, variant: Option<nat>, loaded: seq<bool>)
    requires WellDeclared(Slots(layout.sizes, variant), layout.cols, layout.rows)
    ensures SoundPlan(Plan(layout, variant, loaded), layout, variant, |loaded|)
  {
    var n := |loaded|;
    var p := Phased(layout, variant, n);
    PhasedEntries(layout, variant, n);
    PhasedDistinct(layout, variant, n);
    PhasedOrdered(layout, variant, n);
    var sl := Slots(layout.sizes, variant);
    forall t, u | 0 <= t < u < |p| && p[u].position.Some?
      ensures p[t].position.Some?
    {
      // declared <==> medium or large, and medium and large come first
      assert p[u].index < |sl| && SlotTiered(sl[p[u].index]);
      assert PhaseOf(p[u].size) != SmallPhase;
      if p[t].index < |sl| {
        assert SlotTiered(sl[p[t].index]);
      }
    }
    ResolveSound(PlanState(EmptyCells(layout.rows, layout.cols), []), p, loaded, layout, variant, n);
  }

  /** The planner's guarantee for every template of the catalog and every
      possible variant key: tiles inside the grid, no two sharing a cell or an
      item, each with its class footprint and its declared position. */
  lemma CatalogPlanSound(gridSize: nat, variant: Option<nat>, loaded: seq<bool>)
    requires CollageLayouts(gridSize).Some?
    requires IsVariantChoice(CollageLayouts(gridSize).value, variant)
    ensures SoundPlan(Plan(CollageLayouts(gridSize).value, variant, loaded),
                      CollageLayouts(gridSize).value, variant, |loaded|)
  {
    CatalogVariantChoice(gridSize, variant);
    CatalogWellDeclared(gridSize, variant.value);
    PlanSound(CollageLayouts(gridSize).value, variant, loaded);
  }

  /** A callback changes nothing exactly when the image failed, or the item
      has no declared position and no free square fits anywhere. */
  lemma StepOutcome(st: PlanState, a: Assignment, loaded: seq<bool>, cols: nat, rows: nat)
    ensures Step(st, a, loaded, cols, rows) == st <==>
      (!(a.index < |loaded| && loaded[a.index])
       || (a.position.None? && forall r: nat, c: nat :: !CanPlace(st.cells, c, r, a.size, a.size, cols, rows)))
  {
    FirstFitIsFirst(st.cells, a.size, cols, rows);
    var st' := Step(st, a, loaded, cols, rows);
    if st'.placed != st.placed {
      assert |st'.placed| == |st.placed| + 1;
    }
  }

  /** The items that received a tile. */
  function PlacedItems(ps: seq<Placement>): set<nat> {
    set j | 0 <= j < |ps| :: ps[j].index
  }

  /** Later callbacks never take back a tile. */
  lemma {:induction false} ResolveKeeps(st: PlanState, s: seq<Assignment>, loaded: seq<bool>, cols: nat, rows: nat)
    ensures st.placed <= Resolve(st, s, loaded, cols, rows).placed
    decreases |s|
  {
    if |s| > 0 {
      ResolveKeeps(Step(st, s[0], loaded, cols, rows), s[1..], loaded, cols, rows);
    }
  }

  /** A loaded item with a declared position always gets its tile. */
  lemma {:induction false} ResolvePlacesDeclared(st: PlanState, s: seq<Assignment>, loaded: seq<bool>,
                                                 cols: nat, rows: nat, t: nat)
    requires t < |s| && s[t].index < |loaded| && loaded[s[t].index] && s[t].position.Some?
    ensures s[t].index in PlacedItems(Resolve(st, s, loaded, cols, rows).placed)
    decreases |s|
  {
    var st' := Step(st, s[0], loaded, cols, rows);
    if t == 0 {
      ResolveKeeps(st', s[1..], loaded, cols, rows);
      var ps := Resolve(st', s[1..], loaded, cols, rows).placed;
      assert ps[|st.placed|] == st'.placed[|st.placed|];
    } else {
      ResolvePlacesDeclared(st', s[1..], loaded, cols, rows, t - 1);
    }
  }

  /** Every medium or large item whose image loaded is drawn (and, by
      `PlanSound`, exactly on its declared square). */
  lemma PlanPlacesDeclared(layout: Layout, variant: Option<nat>, loaded: seq<bool>, k: nat)
    requires k < |loaded| && loaded[k] && EntryAt(layout, variant, k).position.Some?
    ensures k in PlacedItems(Plan(layout, variant, loaded))
  {
    var n := |loaded|;
    var all := AllEntries(layout, variant, n);
    var e := EntryAt(layout, variant, k);
    assert all[k] == e;
    InPhaseMembers(PhaseOf(e.size), all);
    var p := Phased(layout, variant, n);
    assert e in p;
    var t :| 0 <= t < |p| && p[t] == e;
    ResolvePlacesDeclared(PlanState(EmptyCells(layout.rows, layout.cols), []), p, loaded, layout.cols, layout.rows, t);
  }
}
