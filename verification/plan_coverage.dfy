/**
 * Coverage of the "varying sizes" collage: on a catalogue template with no
 * more items than its `imageCount`, every item whose image loads is drawn.
 *
 * Declared tiles are always drawn (`PlanPlacesDeclared`).  The other tiles
 * of a catalogue template are 1x1 and are resolved last; the argument for
 * them is a count of occupied cells.  Every callback marks at most its own
 * footprint, the footprints of all slots add up to the grid's area, and the
 * tile of the item in hand is not yet counted, so at least one cell is still
 * free when it is resolved, and a 1x1 tile fits there.
 */
module PlanCoverage {
  import opened Wrappers
  import opened OccupancyGrid
  import opened Layouts
  import opened Catalog
  import opened Planner

  // ---------------------------------------------------------------------
  // Counting occupied cells

  /** Occupied cells among the first m of a row. */
  function RowFill(row: seq<bool>, m: nat): nat
    requires m <= |row|
  {
    if m == 0 then 0 else RowFill(row, m - 1) + (if row[m - 1] then 1 else 0)
  }

  /** Occupied cells in the first m rows. */
  function Fill(cells: Cells, m: nat): nat
    requires m <= |cells|
  {
    if m == 0 then 0 else Fill(cells, m - 1) + RowFill(cells[m - 1], |cells[m - 1]|)
  }

  /** How many of the indices below m lie in [lo, lo + w). */
  function Clip(m: nat, lo: nat, w: nat): nat {
    if m <= lo then 0 else if m <= lo + w then m - lo else w
  }

  /** Marking the columns [lo, lo + w) of a row adds at most one cell per
      marked column. */
  lemma {:induction false} RowFillMark(sr: seq<bool>, tr: seq<bool>, lo: nat, w: nat, m: nat)
    requires |tr| == |sr| && m <= |sr|
    requires forall c :: 0 <= c < |sr| ==> tr[c] == (sr[c] || lo <= c < lo + w)
    ensures RowFill(tr, m) <= RowFill(sr, m) + Clip(m, lo, w)
  {
    if m > 0 {
      RowFillMark(sr, tr, lo, w, m - 1);
    }
  }

  /** A row that is unchanged keeps its count. */
  lemma {:induction false} RowFillSame(sr: seq<bool>, tr: seq<bool>, m: nat)
    requires |tr| == |sr| && m <= |sr|
    requires forall c :: 0 <= c < |sr| ==> tr[c] == sr[c]
    ensures RowFill(tr, m) == RowFill(sr, m)
  {
    if m > 0 {
      RowFillSame(sr, tr, m - 1);
    }
  }

  /** Row r of a marked grid is row r with the columns [col, col + w) set
      when r is among the marked rows, and row r unchanged otherwise. */
  lemma MarkRow(s: Cells, col: nat, row: nat, w: nat, h: nat, r: nat)
    requires r < |s|
    ensures var t := Mark(s, col, row, w, h);
      |t[r]| == |s[r]| &&
      forall c :: 0 <= c < |s[r]| ==> t[r][c] == (s[r][c] || (row <= r < row + h && col <= c < col + w))
  {
  }

  lemma ClipStep(m: nat, lo: nat, h: nat, w: nat)
    requires m > 0
    ensures lo <= m - 1 < lo + h ==> w * Clip(m, lo, h) == w * Clip(m - 1, lo, h) + w
    ensures !(lo <= m - 1 < lo + h) ==> Clip(m, lo, h) == Clip(m - 1, lo, h)
  {
    if lo <= m - 1 < lo + h {
      assert Clip(m, lo, h) == Clip(m - 1, lo, h) + 1;
    }
  }

  /** Marking a `w x h` block adds at most w cells in each of its rows. */
  lemma {:induction false} FillMarkRows(s: Cells, col: nat, row: nat, w: nat, h: nat, m: nat)
    requires m <= |s|
    ensures Fill(Mark(s, col, row, w, h), m) <= Fill(s, m) + w * Clip(m, row, h)
  {
    if m > 0 {
      var t := Mark(s, col, row, w, h);
      var r := m - 1;
      FillMarkRows(s, col, row, w, h, r);
      MarkRow(s, col, row, w, h, r);
      ClipStep(m, row, h, w);
      if row <= r < row + h {
        RowFillMark(s[r], t[r], col, w, |s[r]|);
      } else {
        RowFillSame(s[r], t[r], |s[r]|);
      }
    }
  }

  lemma ScaleMono(a: nat, b: nat, c: nat)
    requires b <= c
    ensures a * b <= a * c
  {
  }

  /** `markCellsAsOccupied` with a square of side `size` adds at most
      size x size occupied cells, and keeps the grid's shape. */
  lemma MarkFill(s: Cells, col: nat, row: nat, size: nat, rows: nat, cols: nat)
    requires IsRect(s, rows, cols)
    ensures IsRect(Mark(s, col, row, size, size), rows, cols)
    ensures Fill(Mark(s, col, row, size, size), rows) <= Fill(s, rows) + size * size
  {
    FillMarkRows(s, col, row, size, size, rows);
    ScaleMono(size, Clip(rows, row, size), size);
  }

  lemma {:induction false} RowFillEmpty(row: seq<bool>, m: nat)
    requires m <= |row| && forall c :: 0 <= c < |row| ==> !row[c]
    ensures RowFill(row, m) == 0
  {
    if m > 0 {
      RowFillEmpty(row, m - 1);
    }
  }

  /** A fresh grid has no occupied cell. */
  lemma {:induction false} FillEmpty(rows: nat, cols: nat, m: nat)
    requires m <= rows
    ensures Fill(EmptyCells(rows, cols), m) == 0
  {
    if m > 0 {
      FillEmpty(rows, cols, m - 1);
      var e := EmptyCells(rows, cols);
      RowFillEmpty(e[m - 1], |e[m - 1]|);
    }
  }

  lemma {:induction false} RowFillFull(row: seq<bool>, m: nat)
    requires m <= |row| && forall c :: 0 <= c < |row| ==> row[c]
    ensures RowFill(row, m) == m
  {
    if m > 0 {
      RowFillFull(row, m - 1);
    }
  }

  /** A grid with every cell occupied counts rows x cols cells. */
  lemma {:induction false} FillFull(s: Cells, rows: nat, cols: nat, m: nat)
    requires IsRect(s, rows, cols) && m <= rows
    requires forall r, c :: 0 <= r < rows && 0 <= c < cols ==> s[r][c]
    ensures Fill(s, m) == m * cols
  {
    if m > 0 {
      FillFull(s, rows, cols, m - 1);
      RowFillFull(s[m - 1], cols);
      assert m * cols == (m - 1) * cols + cols;
    }
  }

  /** A grid that counts fewer than rows x cols occupied cells has a free cell. */
  lemma FreeCell(s: Cells, rows: nat, cols: nat) returns (r: nat, c: nat)
    requires IsRect(s, rows, cols) && Fill(s, rows) < rows * cols
    ensures r < rows && c < cols && !s[r][c]
  {
    if forall r', c' :: 0 <= r' < rows && 0 <= c' < cols ==> s[r'][c'] {
      FillFull(s, rows, cols, rows);
      assert false;
    }
    r, c :| 0 <= r < rows && 0 <= c < cols && !s[r][c];
  }

  // ---------------------------------------------------------------------
  // Footprint areas

  /** Cells the tiles of a list of assignments cover, counted with repetition. */
  function EntriesArea(s: seq<Assignment>): nat {
    if |s| == 0 then 0 else s[0].size * s[0].size + EntriesArea(s[1..])
  }

  /** Cells the slots of a template cover, counted with repetition. */
  function SlotsArea(s: seq<Slot>): nat {
    if |s| == 0 then 0 else s[0].size * s[0].size + SlotsArea(s[1..])
  }

  lemma {:induction false} EntriesAreaConcat(a: seq<Assignment>, b: seq<Assignment>)
    ensures EntriesArea(a + b) == EntriesArea(a) + EntriesArea(b)
  {
    if |a| == 0 {
      assert a + b == b;
    } else {
      assert (a + b)[1..] == a[1..] + b;
      EntriesAreaConcat(a[1..], b);
    }
  }

  lemma {:induction false} SlotsAreaConcat(a: seq<Slot>, b: seq<Slot>)
    ensures SlotsArea(a + b) == SlotsArea(a) + SlotsArea(b)
  {
    if |a| == 0 {
      assert a + b == b;
    } else {
      assert (a + b)[1..] == a[1..] + b;
      SlotsAreaConcat(a[1..], b);
    }
  }

  /** The three phase lists together cover as many cells as the list they split. */
  lemma {:induction false} InPhaseArea(s: seq<Assignment>)
    ensures EntriesArea(InPhase(LargePhase, s)) + EntriesArea(InPhase(MediumPhase, s))
          + EntriesArea(InPhase(SmallPhase, s)) == EntriesArea(s)
  {
    if |s| > 0 {
      var init, e := s[..|s| - 1], s[|s| - 1];
      InPhaseArea(init);
      assert s == init + [e];
      EntriesAreaConcat(init, [e]);
      EntriesAreaConcat(InPhase(LargePhase, init), if PhaseOf(e.size) == LargePhase then [e] else []);
      EntriesAreaConcat(InPhase(MediumPhase, init), if PhaseOf(e.size) == MediumPhase then [e] else []);
      EntriesAreaConcat(InPhase(SmallPhase, init), if PhaseOf(e.size) == SmallPhase then [e] else []);
    }
  }

  /** The drawing order covers as many cells as the entries. */
  lemma PhasedArea(layout: Layout, variant: Option<nat>, n: nat)
    ensures EntriesArea(Phased(layout, variant, n)) == EntriesArea(AllEntries(layout, variant, n))
  {
    var all := AllEntries(layout, variant, n);
    var l, m, s := InPhase(LargePhase, all), InPhase(MediumPhase, all), InPhase(SmallPhase, all);
    EntriesAreaConcat(l + m, s);
    EntriesAreaConcat(l, m);
    InPhaseArea(all);
  }

  /** While every item has a template slot, the entries cover what the first
      n slots cover. */
  lemma {:induction false} EntriesSlotsArea(layout: Layout, variant: Option<nat>, n: nat)
    requires n <= |Slots(layout.sizes, variant)|
    ensures EntriesArea(AllEntries(layout, variant, n)) == SlotsArea(Slots(layout.sizes, variant)[..n])
  {
    if n > 0 {
      var sl := Slots(layout.sizes, variant);
      EntriesSlotsArea(layout, variant, n - 1);
      AllEntriesSnoc(layout, variant, n - 1);
      EntriesAreaConcat(AllEntries(layout, variant, n - 1), [EntryAt(layout, variant, n - 1)]);
      assert sl[..n] == sl[..n - 1] + [sl[n - 1]];
      SlotsAreaConcat(sl[..n - 1], [sl[n - 1]]);
    }
  }

  lemma MulSucc(n: nat, a: nat)
    requires n > 0
    ensures n * a == (n - 1) * a + a
  {
  }

  /** The slots of one class cover count x size x size cells. */
  lemma {:induction false} ClassSlotsArea(size: nat, ps: Option<seq<Pos>>, count: nat)
    ensures SlotsArea(ClassSlotsUpTo(size, ps, count)) == count * (size * size)
  {
    if count > 0 {
      ClassSlotsArea(size, ps, count - 1);
      SlotsAreaConcat(ClassSlotsUpTo(size, ps, count - 1), [Slot(size, PosAt(ps, count - 1))]);
      MulSucc(count, size * size);
    }
  }

  /** The slots of a template cover its `Area`. */
  lemma {:induction false} SlotsAreaIsArea(sizes: seq<SizeClass>, variant: Option<nat>)
    ensures SlotsArea(Slots(sizes, variant)) == Area(sizes)
  {
    if |sizes| > 0 {
      SlotsAreaIsArea(sizes[1..], variant);
      ClassSlotsArea(sizes[0].size, PositionsFor(sizes[0], variant), sizes[0].count);
      assert sizes[0].count * (sizes[0].size * sizes[0].size) == sizes[0].count * sizes[0].size * sizes[0].size;
      SlotsAreaConcat(ClassSlots(sizes[0], variant), Slots(sizes[1..], variant));
    }
  }

  /** A prefix of the slots covers no more than all of them. */
  lemma SlotsAreaPrefix(sl: seq<Slot>, n: nat)
    requires n <= |sl|
    ensures SlotsArea(sl[..n]) <= SlotsArea(sl)
  {
    assert sl == sl[..n] + sl[n..];
    SlotsAreaConcat(sl[..n], sl[n..]);
  }

  // ---------------------------------------------------------------------
  // Callbacks mark at most their own footprint

  /** Resolving a list of assignments adds at most their footprints' area of
      occupied cells, and keeps the grid's shape. */
  lemma {:induction false} ResolveFill(st: PlanState, s: seq<Assignment>, loaded: seq<bool>, cols: nat, rows: nat)
    requires IsRect(st.cells, rows, cols)
    ensures IsRect(Resolve(st, s, loaded, cols, rows).cells, rows, cols)
    ensures Fill(Resolve(st, s, loaded, cols, rows).cells, rows) <= Fill(st.cells, rows) + EntriesArea(s)
    decreases |s|
  {
    if |s| > 0 {
      var a := s[0];
      var st' := Step(st, a, loaded, cols, rows);
      if st' != st {
        var p := if a.position.Some? then a.position else FirstFit(st.cells, a.size, cols, rows);
        assert st'.cells == Mark(st.cells, p.value.col, p.value.row, a.size, a.size);
        MarkFill(st.cells, p.value.col, p.value.row, a.size, rows, cols);
      }
      ResolveFill(st', s[1..], loaded, cols, rows);
    }
  }

  // ---------------------------------------------------------------------
  // Every loaded item is drawn

  /** Every slot a template leaves undeclared is a 1x1 tile. */
  ghost predicate UndeclaredAreSmall(s: seq<Slot>) {
    forall i :: 0 <= i < |s| && s[i].position.None? ==> s[i].size == 1
  }

  /** Before the callback at position t of the drawing order, whose tile is
      1x1, fewer than rows x cols cells are occupied. */
  lemma FillBeforeSmall(layout: Layout, variant: Option<nat>, loaded: seq<bool>, t: nat)
    requires Area(layout.sizes) == layout.cols * layout.rows
    requires |loaded| <= |Slots(layout.sizes, variant)|
    requires t < |Phased(layout, variant, |loaded|)|
    requires Phased(layout, variant, |loaded|)[t].size == 1
    ensures var p := Phased(layout, variant, |loaded|);
      var st := Resolve(PlanState(EmptyCells(layout.rows, layout.cols), []), p[..t], loaded, layout.cols, layout.rows);
      IsRect(st.cells, layout.rows, layout.cols) && Fill(st.cells, layout.rows) < layout.rows * layout.cols
  {
    var n := |loaded|;
    var p := Phased(layout, variant, n);
    var sl := Slots(layout.sizes, variant);
    assert EntriesArea(p) <= layout.cols * layout.rows by {
      PhasedArea(layout, variant, n);
      EntriesSlotsArea(layout, variant, n);
      SlotsAreaPrefix(sl, n);
      SlotsAreaIsArea(layout.sizes, variant);
    }
    assert EntriesArea(p[..t]) + 1 <= EntriesArea(p) by {
      assert p == p[..t] + ([p[t]] + p[t + 1..]);
      EntriesAreaConcat(p[..t], [p[t]] + p[t + 1..]);
      EntriesAreaConcat([p[t]], p[t + 1..]);
      assert EntriesArea([p[t]]) == 1 by { assert [p[t]][1..] == []; }
    }
    var st0 := PlanState(EmptyCells(layout.rows, layout.cols), []);
    FillEmpty(layout.rows, layout.cols, layout.rows);
    ResolveFill(st0, p[..t], loaded, layout.cols, layout.rows);
  }

  /** The callback of a loaded item with a 1x1 tile, on a grid with fewer
      than rows x cols occupied cells, reserves a tile for it. */
  lemma StepPlacesSmall(st: PlanState, e: Assignment, loaded: seq<bool>, cols: nat, rows: nat)
    requires IsRect(st.cells, rows, cols) && Fill(st.cells, rows) < rows * cols
    requires e.size == 1 && e.index < |loaded| && loaded[e.index]
    ensures e.index in PlacedItems(Step(st, e, loaded, cols, rows).placed)
  {
    if e.position.None? {
      var r, c := FreeCell(st.cells, rows, cols);
      assert CanPlace(st.cells, c, r, 1, 1, cols, rows);
      FirstFitIsFirst(st.cells, 1, cols, rows);
    }
    var st' := Step(st, e, loaded, cols, rows);
    assert st'.placed[|st.placed|].index == e.index;
  }

  /** The callback at position t of the drawing order, of a loaded item with
      a 1x1 tile, finds a free cell and reserves it. */
  lemma SmallStepPlaces(layout: Layout, variant: Option<nat>, loaded: seq<bool>, t: nat)
    requires Area(layout.sizes) == layout.cols * layout.rows
    requires |loaded| <= |Slots(layout.sizes, variant)|
    requires t < |Phased(layout, variant, |loaded|)|
    requires Phased(layout, variant, |loaded|)[t].size == 1
    requires Phased(layout, variant, |loaded|)[t].index < |loaded|
    requires loaded[Phased(layout, variant, |loaded|)[t].index]
    ensures var p := Phased(layout, variant, |loaded|);
      var st := Resolve(PlanState(EmptyCells(layout.rows, layout.cols), []), p[..t + 1], loaded, layout.cols, layout.rows);
      p[t].index in PlacedItems(st.placed)
  {
    var p := Phased(layout, variant, |loaded|);
    var e := p[t];
    FillBeforeSmall(layout, variant, loaded, t);
    var st0 := PlanState(EmptyCells(layout.rows, layout.cols), []);
    var st1 := Resolve(st0, p[..t], loaded, layout.cols, layout.rows);
    StepPlacesSmall(st1, e, loaded, layout.cols, layout.rows);
    assert p[..t + 1] == p[..t] + [e];
    ResolveAppend(st0, p[..t], [e], loaded, layout.cols, layout.rows);
    assert [e][1..] == [];
  }

  /** On a template whose slots tile the grid exactly and whose undeclared
      slots are all 1x1, with no more items than slots, every item whose
      image loads is drawn: the declared ones on their squares, the others
      on the first free cell. */
  lemma PlanDrawsLoaded(layout: Layout, variant: Option<nat>, loaded: seq<bool>, k: nat)
    requires Area(layout.sizes) == layout.cols * layout.rows
    requires UndeclaredAreSmall(Slots(layout.sizes, variant))
    requires |loaded| <= |Slots(layout.sizes, variant)|
    requires k < |loaded| && loaded[k]
    ensures k in PlacedItems(Plan(layout, variant, loaded))
  {
    var n := |loaded|;
    var e := EntryAt(layout, variant, k);
    if e.position.Some? {
      PlanPlacesDeclared(layout, variant, loaded, k);
    } else {
      var all := AllEntries(layout, variant, n);
      assert all[k] == e;
      InPhaseMembers(SmallPhase, all);
      var p := Phased(layout, variant, n);
      assert e in p;
      var t :| 0 <= t < |p| && p[t] == e;
      SmallStepPlaces(layout, variant, loaded, t);
      var st0 := PlanState(EmptyCells(layout.rows, layout.cols), []);
      assert p == p[..t + 1] + p[t + 1..];
      ResolveAppend(st0, p[..t + 1], p[t + 1..], loaded, layout.cols, layout.rows);
      var st := Resolve(st0, p[..t + 1], loaded, layout.cols, layout.rows);
      ResolveKeeps(st, p[t + 1..], loaded, layout.cols, layout.rows);
      var ps := Resolve(st, p[t + 1..], loaded, layout.cols, layout.rows).placed;
      var j :| 0 <= j < |st.placed| && st.placed[j].index == k;
      assert ps[j].index == k;
    }
  }

  /** Every slot of a template whose classes have footprint 1, 2 or 3 does too. */
  lemma {:induction false} SlotSizes(sizes: seq<SizeClass>, variant: Option<nat>)
    requires forall i :: 0 <= i < |sizes| ==> 1 <= sizes[i].size <= 3
    ensures forall k :: 0 <= k < |Slots(sizes, variant)| ==> 1 <= Slots(sizes, variant)[k].size <= 3
  {
    if |sizes| > 0 {
      SlotSizes(sizes[1..], variant);
      ClassSlotsAt(sizes[0].size, PositionsFor(sizes[0], variant), sizes[0].count);
      var head: seq<Slot>, tail: seq<Slot> := ClassSlots(sizes[0], variant), Slots(sizes[1..], variant);
      forall k | 0 <= k < |head + tail|
        ensures 1 <= (head + tail)[k].size <= 3
      {
        if k >= |head| {
          assert (head + tail)[k] == tail[k - |head|];
        }
      }
    }
  }

  /** Every class of a catalogue template has footprint 1, 2 or 3. */
  lemma CatalogClassSizes(gridSize: nat)
    requires CollageLayouts(gridSize).Some?
    ensures var l := CollageLayouts(gridSize).value;
      forall i :: 0 <= i < |l.sizes| ==> 1 <= l.sizes[i].size <= 3
  {
  }

  /** A catalogue template under a variant the random choice can pick leaves
      only 1x1 slots undeclared, its slots tile the grid exactly, and it has
      `imageCount` slots. */
  lemma CatalogSlotsCover(gridSize: nat, variant: Option<nat>)
    requires CollageLayouts(gridSize).Some?
    requires IsVariantChoice(CollageLayouts(gridSize).value, variant)
    ensures var l := CollageLayouts(gridSize).value;
      && Area(l.sizes) == l.cols * l.rows
      && |Slots(l.sizes, variant)| == l.imageCount
      && UndeclaredAreSmall(Slots(l.sizes, variant))
  {
    var l := CollageLayouts(gridSize).value;
    CatalogCapacity(gridSize);
    SlotsLength(l.sizes, variant);
    CatalogVariantChoice(gridSize, variant);
    CatalogWellDeclared(gridSize, variant.value);
    CatalogClassSizes(gridSize);
    SlotSizes(l.sizes, variant);
    var sl := Slots(l.sizes, variant);
    forall i | 0 <= i < |sl| && sl[i].position.None?
      ensures sl[i].size == 1
    {
      assert SlotTiered(sl[i]);
    }
  }

  /** On every catalogue template and every variant the random choice can
      pick, with at most `imageCount` items, every item whose image loads is
      drawn. */
  lemma CatalogPlanDrawsLoaded(gridSize: nat, variant: Option<nat>, loaded: seq<bool>, k: nat)
    requires CollageLayouts(gridSize).Some?
    requires IsVariantChoice(CollageLayouts(gridSize).value, variant)
    requires |loaded| <= CollageLayouts(gridSize).value.imageCount
    requires k < |loaded| && loaded[k]
    ensures k in PlacedItems(Plan(CollageLayouts(gridSize).value, variant, loaded))
  {
    CatalogSlotsCover(gridSize, variant);
    PlanDrawsLoaded(CollageLayouts(gridSize).value, variant, loaded, k);
  }
}
