/**
 * The fixed-grid collage: `arrangeImages` picks the order of the items, and
 * item `idx` of that order is drawn in cell (`floor(idx / col)`, `idx % col`)
 * of a `row x col` grid of `side x side` squares.
 *
 * Both copies of this code (the fixed-layout helpers and the shared drawing
 * utilities) are the same for the modelled parts and share this module.
 */
module FixedGrid {
  import opened Wrappers
  import opened ColorSort

  /** `arrangeImages`: "brightness" and "hue" sort through `sortImages`
      (which rejects when a colour is missing); every other name, "rank"
      included, keeps the list as it is. */
  method ArrangeImages(arrangeBy: string, items: seq<Item>, colors: seq<Option<Rgb>>)
    returns (arranged: Option<seq<Item>>)
    requires |colors| == |items|
    ensures arrangeBy != "brightness" && arrangeBy != "hue" ==> arranged == Some(items)
    ensures arrangeBy == "brightness" || arrangeBy == "hue" ==>
      && (arranged.None? <==> !AllColored(colors))
      && (arranged.Some? ==> multiset(arranged.value) == multiset(items))
      && (arranged.Some? ==> exists w :: SortedArrangement(w, items, colors, MethodOf(arrangeBy))
                                        && arranged.value == Project(w))
    ensures arrangeBy == "hue" ==> MethodOf(arrangeBy) == Hue
    ensures arrangeBy == "brightness" ==> MethodOf(arrangeBy) == Brightness
  {
    if arrangeBy == "brightness" {
      arranged := SortImages(items, colors, "brightness");
    } else if arrangeBy == "hue" {
      arranged := SortImages(items, colors, "hue");
    } else {
      arranged := Some(items);
    }
  }

  /** A grid cell: row and column. */
  datatype Cell = Cell(row: nat, col: nat)

  /** The cell of the item at position idx, with `cols` cells per row. */
  function CellOf(idx: nat, cols: nat): Cell
    requires cols > 0
  {
    Cell(idx / cols, idx % cols)
  }

  /** Row-major position of a cell. */
  function IndexOf(c: Cell, cols: nat): nat {
    c.row * cols + c.col
  }

  /** The cell mapping is a bijection between positions and cells whose
      column is below `cols`. */
  lemma CellRoundTrip(idx: nat, c: Cell, cols: nat)
    requires cols > 0
    ensures IndexOf(CellOf(idx, cols), cols) == idx
    ensures CellOf(idx, cols).col < cols
    ensures c.col < cols ==> CellOf(IndexOf(c, cols), cols) == c
  {
    if c.col < cols {
      var i := IndexOf(c, cols);
      DivModUnique(i, cols, c.row, c.col);
    }
  }

  lemma DivModUnique(i: nat, cols: nat, q: nat, r: nat)
    requires cols > 0 && r < cols && i == q * cols + r
    ensures i / cols == q && i % cols == r
  {
    var q', r' := i / cols, i % cols;
    assert (q - q') * cols == r' - r;
    MulAtLeast(q - q', cols);
  }

  lemma MulAtLeast(k: int, cols: nat)
    ensures k >= 1 ==> k * cols >= cols
    ensures k <= -1 ==> k * cols <= 0 - cols as int
  {
    if k >= 1 {
      assert k * cols == (k - 1) * cols + cols;
      MulMono(0, k - 1, cols);
    } else if k <= -1 {
      assert k * cols == -((-k - 1) * cols) - cols;
      MulMono(0, -k - 1, cols);
    }
  }

  /** Distinct positions are drawn in distinct cells. */
  lemma CellInjective(i: nat, j: nat, cols: nat)
    requires cols > 0 && i != j
    ensures CellOf(i, cols) != CellOf(j, cols)
  {
    CellRoundTrip(i, Cell(0, 0), cols);
    CellRoundTrip(j, Cell(0, 0), cols);
  }

  /** A position below rows x cols lands inside the grid, and only those do. */
  lemma CellInGrid(idx: nat, rows: nat, cols: nat)
    requires cols > 0
    ensures CellOf(idx, cols).row < rows <==> idx < rows * cols
  {
    var c := CellOf(idx, cols);
    CellRoundTrip(idx, c, cols);
    if c.row < rows {
      MulMono(c.row + 1, rows, cols);
    } else {
      MulMono(rows, c.row, cols);
    }
  }

  lemma MulMono(a: nat, b: nat, k: nat)
    requires a <= b
    ensures a * k <= b * k
  {
  }

  /** A square starting at cell a ends no later than cell b starts. */
  lemma MulStep(a: nat, b: nat, k: nat)
    requires a < b
    ensures a * k + k <= b * k
  {
    MulMono(a + 1, b, k);
    assert (a + 1) * k == a * k + k;
  }

  /** Top-left pixel of the square of the item at position idx. */
  datatype Point = Point(x: nat, y: nat)

  function Origin(idx: nat, cols: nat, side: nat): Point
    requires cols > 0
  {
    var c := CellOf(idx, cols);
    Point(c.col * side, c.row * side)
  }

  /** The logical canvas: `col x side` wide, `row x side` high. */
  function CanvasSize(rows: nat, cols: nat, side: nat): Point {
    Point(cols * side, rows * side)
  }

  /** Every one of the first rows x cols squares lies on the canvas. */
  lemma SquareOnCanvas(idx: nat, rows: nat, cols: nat, side: nat)
    requires cols > 0 && idx < rows * cols
    ensures var o, canvas := Origin(idx, cols, side), CanvasSize(rows, cols, side);
      o.x + side <= canvas.x && o.y + side <= canvas.y
  {
    var c := CellOf(idx, cols);
    CellInGrid(idx, rows, cols);
    CellRoundTrip(idx, c, cols);
    MulStep(c.col, cols, side);
    MulStep(c.row, rows, side);
  }

  /** Squares of distinct positions do not overlap. */
  lemma SquaresDisjoint(i: nat, j: nat, cols: nat, side: nat)
    requires cols > 0 && i != j
    ensures var p, q := Origin(i, cols, side), Origin(j, cols, side);
      p.x + side <= q.x || q.x + side <= p.x || p.y + side <= q.y || q.y + side <= p.y
  {
    var ci, cj := CellOf(i, cols), CellOf(j, cols);
    CellInjective(i, j, cols);
    if ci.col < cj.col {
      MulStep(ci.col, cj.col, side);
    } else if cj.col < ci.col {
      MulStep(cj.col, ci.col, side);
    } else if ci.row < cj.row {
      MulStep(ci.row, cj.row, side);
    } else {
      MulStep(cj.row, ci.row, side);
    }
  }

  /** What `drawCollage` draws for each arranged item: the item and the
      top-left pixel of its square. */
  datatype Tile = Tile(item: Item, at: Point)

  /** Squares of distinct positions among the first n do not overlap. */
  lemma OriginsDisjoint(n: nat, cols: nat, side: nat)
    requires cols > 0
    ensures forall i, j :: 0 <= i < j < n ==>
      var p, q := Origin(i, cols, side), Origin(j, cols, side);
      p.x + side <= q.x || q.x + side <= p.x || p.y + side <= q.y || q.y + side <= p.y
  {
    forall i, j | 0 <= i < j < n
      ensures var p, q := Origin(i, cols, side), Origin(j, cols, side);
        p.x + side <= q.x || q.x + side <= p.x || p.y + side <= q.y || q.y + side <= p.y
    {
      SquaresDisjoint(i, j, cols, side);
    }
  }

  /** The tiles in drawing order: tile idx shows item idx at the origin of
      its cell, and no two tiles overlap. */
  function Tiles(arranged: seq<Item>, cols: nat, side: nat): (ts: seq<Tile>)
    requires cols > 0
    ensures |ts| == |arranged|
    ensures forall idx :: 0 <= idx < |ts| ==> ts[idx].item == arranged[idx] && ts[idx].at == Origin(idx, cols, side)
    ensures forall i, j :: 0 <= i < j < |ts| ==>
      ts[i].at.x + side <= ts[j].at.x || ts[j].at.x + side <= ts[i].at.x
      || ts[i].at.y + side <= ts[j].at.y || ts[j].at.y + side <= ts[i].at.y
  {
    OriginsDisjoint(|arranged|, cols, side);
    seq(|arranged|, idx requires 0 <= idx < |arranged| => Tile(arranged[idx], Origin(idx, cols, side)))
  }

  /** With at most rows x cols items every tile is on the canvas, and no two
      tiles overlap. */
  lemma TilesSound(arranged: seq<Item>, rows: nat, cols: nat, side: nat)
    requires cols > 0 && |arranged| <= rows * cols
    ensures var ts, canvas := Tiles(arranged, cols, side), CanvasSize(rows, cols, side);
      && (forall i :: 0 <= i < |ts| ==> ts[i].at.x + side <= canvas.x && ts[i].at.y + side <= canvas.y)
      && (forall i, j :: 0 <= i < j < |ts| ==>
            ts[i].at.x + side <= ts[j].at.x || ts[j].at.x + side <= ts[i].at.x
            || ts[i].at.y + side <= ts[j].at.y || ts[j].at.y + side <= ts[i].at.y)
  {
    var ts := Tiles(arranged, cols, side);
    forall i | 0 <= i < |ts|
      ensures ts[i].at.x + side <= CanvasSize(rows, cols, side).x && ts[i].at.y + side <= CanvasSize(rows, cols, side).y
    {
      SquareOnCanvas(i, rows, cols, side);
    }
  }
}
