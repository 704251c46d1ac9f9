/**
 * The occupancy grid of the "varying sizes" collage: a `rows x cols` boolean
 * matrix that is updated in place while tiles are reserved, with the three
 * helpers that read and write it.
 *
 * The grid itself is an `array2<bool>` (the source's `boolean[][]`, always
 * rectangular because it is built with `Array(rows).fill(..).map(..)`).  The
 * specification functions work on a snapshot of it as `seq<seq<bool>>`, so
 * that the planner's behaviour can be stated as a pure function.
 */
module OccupancyGrid {
  import opened Wrappers

  /** Top-left cell of a square, in grid units. */
  datatype Pos = Pos(row: nat, col: nat)

  type Cells = seq<seq<bool>>

  /** The current contents of `g`, row by row. */
  ghost function Snapshot(g: array2<bool>): (s: Cells)
    reads g
    ensures IsRect(s, g.Length0, g.Length1)
  {
    seq(g.Length0, r requires 0 <= r < g.Length0 reads g =>
      seq(g.Length1, c requires 0 <= c < g.Length1 reads g => g[r, c]))
  }

  predicate IsRect(s: Cells, rows: nat, cols: nat) {
    |s| == rows && forall r :: 0 <= r < rows ==> |s[r]| == cols
  }

  /** A fresh grid: every cell free. */
  function EmptyCells(rows: nat, cols: nat): (s: Cells)
    ensures IsRect(s, rows, cols)
    ensures forall r, c :: 0 <= r < rows && 0 <= c < cols ==> !s[r][c]
  {
    seq(rows, r => seq(cols, c => false))
  }

  /** Cell (r, c) lies in the width x height rectangle whose top-left cell is (row, col). */
  predicate Covers(row: nat, col: nat, width: nat, height: nat, r: int, c: int) {
    row <= r < row + height && col <= c < col + width
  }

  /** Cell (r, c) is not marked; a cell outside the matrix reads as free. */
  predicate Free(s: Cells, r: int, c: int) {
    !(0 <= r < |s| && 0 <= c < |s[r]| && s[r][c])
  }

  /** Specification of `canPlaceAtPosition`: the rectangle fits inside
      `maxCol x maxRow` and none of its cells is occupied. */
  predicate CanPlace(s: Cells, col: nat, row: nat, width: nat, height: nat, maxCol: nat, maxRow: nat) {
    if col + width > maxCol || row + height > maxRow then false
    else forall r, c | row <= r < row + height && col <= c < col + width :: Free(s, r, c)
  }

  /** Specification of `markCellsAsOccupied`: every covered cell that exists
      becomes occupied; covered indices outside the matrix are ignored. */
  function Mark(s: Cells, col: nat, row: nat, width: nat, height: nat): (t: Cells)
    ensures |t| == |s| && forall r :: 0 <= r < |s| ==> |t[r]| == |s[r]|
  {
    seq(|s|, r requires 0 <= r < |s| =>
      seq(|s[r]|, c requires 0 <= c < |s[r]| => s[r][c] || Covers(row, col, width, height, r, c)))
  }

  /** Row-major order on positions: earlier row first, then earlier column. */
  predicate Before(r1: nat, c1: nat, r2: nat, c2: nat) {
    r1 < r2 || (r1 == r2 && c1 < c2)
  }

  /** The row-major scan of `findAvailablePositionForSquare`, resumed at (row, col). */
  function FirstFitFrom(s: Cells, size: nat, maxCol: nat, maxRow: nat, row: nat, col: nat): Option<Pos>
    decreases maxRow - row, maxCol - col
  {
    if row > maxRow - size then None
    else if col > maxCol - size then FirstFitFrom(s, size, maxCol, maxRow, row + 1, 0)
    else if CanPlace(s, col, row, size, size, maxCol, maxRow) then Some(Pos(row, col))
    else FirstFitFrom(s, size, maxCol, maxRow, row, col + 1)
  }

  /** Specification of `findAvailablePositionForSquare`. */
  function FirstFit(s: Cells, size: nat, maxCol: nat, maxRow: nat): Option<Pos> {
    FirstFitFrom(s, size, maxCol, maxRow, 0, 0)
  }

  /** The scan from (row, col) finds the first fitting position at or after
      (row, col), provided every position before (row, col) does not fit. */
  lemma {:induction false} FirstFitFromIsFirst(s: Cells, size: nat, maxCol: nat, maxRow: nat, row: nat, col: nat)
    requires forall r: nat, c: nat :: Before(r, c, row, col) ==> !CanPlace(s, c, r, size, size, maxCol, maxRow)
    ensures var p := FirstFitFrom(s, size, maxCol, maxRow, row, col);
      && (p.Some? ==> CanPlace(s, p.value.col, p.value.row, size, size, maxCol, maxRow))
      && (p.Some? ==> forall r: nat, c: nat :: Before(r, c, p.value.row, p.value.col) ==> !CanPlace(s, c, r, size, size, maxCol, maxRow))
      && (p.None? ==> forall r: nat, c: nat :: !CanPlace(s, c, r, size, size, maxCol, maxRow))
    decreases maxRow - row, maxCol - col
  {
    if row > maxRow - size {
      // every later position overflows the last row
    } else if col > maxCol - size {
      forall r: nat, c: nat | Before(r, c, row + 1, 0)
        ensures !CanPlace(s, c, r, size, size, maxCol, maxRow)
      {
        if r == row && c >= col {
          assert c + size > maxCol;
        }
      }
      FirstFitFromIsFirst(s, size, maxCol, maxRow, row + 1, 0);
    } else if CanPlace(s, col, row, size, size, maxCol, maxRow) {
    } else {
      FirstFitFromIsFirst(s, size, maxCol, maxRow, row, col + 1);
    }
  }

  /** `findAvailablePositionForSquare` returns the first fitting position in
      row-major order, and nothing exactly when no position fits. */
  lemma FirstFitIsFirst(s: Cells, size: nat, maxCol: nat, maxRow: nat)
    ensures var p := FirstFit(s, size, maxCol, maxRow);
      && (p.Some? ==> CanPlace(s, p.value.col, p.value.row, size, size, maxCol, maxRow))
      && (p.Some? ==> forall r: nat, c: nat :: Before(r, c, p.value.row, p.value.col) ==> !CanPlace(s, c, r, size, size, maxCol, maxRow))
      && (p.None? <==> forall r: nat, c: nat :: !CanPlace(s, c, r, size, size, maxCol, maxRow))
  {
    FirstFitFromIsFirst(s, size, maxCol, maxRow, 0, 0);
  }

  /** `canPlaceAtPosition`: the bounds check comes first and touches no cell
      (so the grid need only hold the covered cells when the square is in
      bounds); then the covered cells are scanned. */
  method CanPlaceAtPosition(grid: array2<bool>, col: nat, row: nat, width: nat, height: nat, maxCol: nat, maxRow: nat)
    returns (ok: bool)
    requires col + width <= maxCol && row + height <= maxRow ==> row + height <= grid.Length0 && col + width <= grid.Length1
    ensures col + width > maxCol || row + height > maxRow ==> !ok
    ensures ok <==> col + width <= maxCol && row + height <= maxRow &&
                    forall r, c :: Covers(row, col, width, height, r, c) ==> !grid[r, c]
    ensures ok == CanPlace(Snapshot(grid), col, row, width, height, maxCol, maxRow)
  {
    if col + width > maxCol || row + height > maxRow {
      return false;
    }
    var r := row;
    while r < row + height
      invariant row <= r <= row + height
      invariant forall i, j :: row <= i < r && col <= j < col + width ==> !grid[i, j]
    {
      var c := col;
      while c < col + width
        invariant col <= c <= col + width
        invariant forall j :: col <= j < c ==> !grid[r, j]
      {
        if grid[r, c] {
          assert !Free(Snapshot(grid), r, c);
          return false;
        }
        c := c + 1;
      }
      r := r + 1;
    }
    ok := true;
    assert forall i, j :: Covers(row, col, width, height, i, j) ==> Free(Snapshot(grid), i, j);
  }

  /** `markCellsAsOccupied`: covered cells inside the matrix become occupied,
      covered indices past its last row or column are skipped, and every
      other cell keeps its value. */
  method MarkCellsAsOccupied(grid: array2<bool>, col: nat, row: nat, width: nat, height: nat)
    modifies grid
    ensures forall r, c :: 0 <= r < grid.Length0 && 0 <= c < grid.Length1 ==>
      grid[r, c] == (old(grid[r, c]) || Covers(row, col, width, height, r, c))
    ensures Snapshot(grid) == Mark(old(Snapshot(grid)), col, row, width, height)
  {
    ghost var before := Snapshot(grid);
    var r := row;
    while r < row + height
      invariant row <= r <= row + height
      invariant forall i, j :: 0 <= i < grid.Length0 && 0 <= j < grid.Length1 ==>
        grid[i, j] == (old(grid[i, j]) || Covers(row, col, width, r - row, i, j))
    {
      var c := col;
      while c < col + width
        invariant col <= c <= col + width
        invariant forall i, j :: 0 <= i < grid.Length0 && 0 <= j < grid.Length1 ==>
          grid[i, j] == (old(grid[i, j]) || Covers(row, col, width, r - row, i, j) || (i == r && col <= j < c))
      {
        if r < grid.Length0 && c < grid.Length1 {
          grid[r, c] := true;
        }
        c := c + 1;
      }
      r := r + 1;
    }
    assert forall i :: 0 <= i < grid.Length0 ==> Snapshot(grid)[i] == Mark(before, col, row, width, height)[i];
  }

  /** `findAvailablePositionForSquare`: the row-major first-fit scan. */
  method FindAvailablePositionForSquare(grid: array2<bool>, size: nat, maxCol: nat, maxRow: nat)
    returns (p: Option<Pos>)
    requires maxRow <= grid.Length0 && maxCol <= grid.Length1
    ensures p == FirstFit(Snapshot(grid), size, maxCol, maxRow)
    ensures p.Some? ==> p.value.row + size <= maxRow && p.value.col + size <= maxCol
    ensures p.Some? ==> forall r, c :: Covers(p.value.row, p.value.col, size, size, r, c) ==> !grid[r, c]
    ensures p.None? <==> forall r: nat, c: nat :: !CanPlace(Snapshot(grid), c, r, size, size, maxCol, maxRow)
  {
    ghost var s := Snapshot(grid);
    FirstFitIsFirst(s, size, maxCol, maxRow);
    var row := 0;
    while row <= maxRow - size
      invariant FirstFitFrom(s, size, maxCol, maxRow, row, 0) == FirstFit(s, size, maxCol, maxRow)
      decreases maxRow - row
    {
      var col := 0;
      while col <= maxCol - size
        invariant FirstFitFrom(s, size, maxCol, maxRow, row, col) == FirstFit(s, size, maxCol, maxRow)
        decreases maxCol - col
      {
        var ok := CanPlaceAtPosition(grid, col, row, size, size, maxCol, maxRow);
        if ok {
          return Some(Pos(row, col));
        }
        col := col + 1;
      }
      row := row + 1;
    }
    return None;
  }
}
