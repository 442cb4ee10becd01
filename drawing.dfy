/** The `Drawer`: a `width * height` buffer of `u32` colours and the primitives that
    paint it in place. Each primitive is proved against the set of cells it paints
    (module Raster): afterwards the buffer is exactly the old buffer with those
    cells, where they fall inside the grid, set to the primitive's colour. */
module Drawing {
  import opened Vectors
  import opened Raster
  import opened Triangles

  /** The colour `draw_circle` always uses. */
  const White: Color := 0xffffff

  /** The three edges `draw_triangle` draws: p1-p2, p2-p3 and p3-p1. */
  function Outline(x1: int, y1: int, x2: int, y2: int, x3: int, y3: int): set<Cell>
  {
    Line(x1, y1, x2, y2) + Line(x2, y2, x3, y3) + Line(x3, y3, x1, y1)
  }

  /** What `draw_square` draws: the outlines of the two triangles that split the
      rectangle along its diagonal from (x2, y2) to (x1, y1). */
  function SquareCells(x1: int, y1: int, x2: int, y2: int): set<Cell>
  {
    Outline(x1, y1, x2, y1, x2, y2) + Outline(x1, y1, x1, y2, x2, y2)
  }

  /** The screen vertices of a triangle: each coordinate cast `as i32`. */
  function ScreenVertices(t: Triangle): (r: (Cell, Cell, Cell))
    ensures InI32(r.0.0) && InI32(r.0.1) && InI32(r.1.0) && InI32(r.1.1) && InI32(r.2.0) && InI32(r.2.1)
  {
    ((CastI32(t.p0.x), CastI32(t.p0.y)), (CastI32(t.p1.x), CastI32(t.p1.y)), (CastI32(t.p2.x), CastI32(t.p2.y)))
  }

  /** What `fill_triangle_from(t)` paints. */
  function FilledCells(t: Triangle): set<Cell>
  {
    var v := ScreenVertices(t);
    TriangleCells(v.0.0, v.0.1, v.1.0, v.1.1, v.2.0, v.2.1)
  }

  /** What `draw_triangle_from(t)` paints. */
  function OutlineCells(t: Triangle): set<Cell>
  {
    var v := ScreenVertices(t);
    Outline(v.0.0, v.0.1, v.1.0, v.1.1, v.2.0, v.2.1)
  }

  /** The buffer after `fill_triangle_from` on each triangle of `ts` in order, each
      in its own colour. */
  function PaintAll(b: seq<Color>, w: nat, ts: seq<Triangle>): (r: seq<Color>)
    ensures |r| == |b|
    decreases |ts|
  {
    if ts == [] then b
    else
      var last := ts[|ts| - 1];
      Painted(PaintAll(b, w, ts[..|ts| - 1]), w, FilledCells(last), last.color)
  }

  /** One more triangle of `ts` filled on top of the ones before it. */
  lemma PaintAllPrefix(b: seq<Color>, w: nat, ts: seq<Triangle>, i: nat)
    requires i < |ts|
    ensures PaintAll(b, w, ts[..i + 1]) == Painted(PaintAll(b, w, ts[..i]), w, FilledCells(ts[i]), ts[i].color)
  {
    var s := ts[..i + 1];
    assert s[..|s| - 1] == ts[..i];
    assert s[|s| - 1] == ts[i];
  }

  /** The colour of cell `k` after the last triangle of `ts`. */
  lemma PaintAllLast(b: seq<Color>, w: nat, ts: seq<Triangle>, k: nat)
    requires w > 0 && k < |b| && ts != []
    ensures PaintAll(b, w, ts)[k]
         == if CellAt(w, k) in FilledCells(ts[|ts| - 1]) then ts[|ts| - 1].color
            else PaintAll(b, w, ts[..|ts| - 1])[k]
  {
  }

  /** A cell that no triangle of `ts` covers keeps its old colour. */
  lemma {:induction false} PaintAllUncovered(b: seq<Color>, w: nat, ts: seq<Triangle>, k: nat)
    requires w > 0 && k < |b|
    requires forall i | 0 <= i < |ts| :: CellAt(w, k) !in FilledCells(ts[i])
    ensures PaintAll(b, w, ts)[k] == b[k]
    decreases |ts|
  {
    if ts != [] {
      var init := ts[..|ts| - 1];
      assert forall i | 0 <= i < |init| :: init[i] == ts[i];
      PaintAllUncovered(b, w, init, k);
      PaintAllLast(b, w, ts, k);
    }
  }

  /** A covered cell ends with the colour of the last triangle of `ts` that covers it. */
  lemma {:induction false} PaintAllLastCover(b: seq<Color>, w: nat, ts: seq<Triangle>, k: nat, i: nat)
    requires w > 0 && k < |b| && i < |ts| && CellAt(w, k) in FilledCells(ts[i])
    requires forall j | i < j < |ts| :: CellAt(w, k) !in FilledCells(ts[j])
    ensures PaintAll(b, w, ts)[k] == ts[i].color
    decreases |ts|
  {
    PaintAllLast(b, w, ts, k);
    if i < |ts| - 1 {
      LastCoverInPrefix(ts, CellAt(w, k), i);
      PaintAllLastCover(b, w, ts[..|ts| - 1], k, i);
    }
  }

  /** When the last triangle covering `c` is not the last of `ts`, it is also the last
      one covering `c` in `ts` without its last triangle. */
  lemma LastCoverInPrefix(ts: seq<Triangle>, c: Cell, i: nat)
    requires i < |ts| - 1 && c in FilledCells(ts[i])
    requires forall j | i < j < |ts| :: c !in FilledCells(ts[j])
    ensures c !in FilledCells(ts[|ts| - 1])
    ensures var init := ts[..|ts| - 1];
      i < |init| && c in FilledCells(init[i]) && forall j | i < j < |init| :: c !in FilledCells(init[j])
  {
    var init := ts[..|ts| - 1];
    assert forall j | 0 <= j < |init| :: init[j] == ts[j];
  }

  /** The cells of all the triangles of `ts`. */
  function AllFilledCells(ts: seq<Triangle>): set<Cell>
    decreases |ts|
  {
    if ts == [] then {} else AllFilledCells(ts[..|ts| - 1]) + FilledCells(ts[|ts| - 1])
  }

  /** Filling triangles of one colour paints the union of their cells. */
  lemma {:induction false} PaintAllOneColour(b: seq<Color>, w: nat, ts: seq<Triangle>, col: Color)
    requires forall u | u in ts :: u.color == col
    ensures PaintAll(b, w, ts) == Painted(b, w, AllFilledCells(ts), col)
    decreases |ts|
  {
    if ts == [] {
      PaintedNothing(b, w, col);
    } else {
      var last := ts[|ts| - 1];
      assert last in ts;
      assert forall u | u in ts[..|ts| - 1] :: u in ts;
      PaintAllOneColour(b, w, ts[..|ts| - 1], col);
      PaintedUnion(b, w, AllFilledCells(ts[..|ts| - 1]), FilledCells(last), col);
    }
  }

  /** `draw_square` draws the four sides of the rectangle and its diagonal. */
  lemma SquareSides(x1: int, y1: int, x2: int, y2: int)
    ensures SquareCells(x1, y1, x2, y2)
         == Span(x1, x2, y1) + Span(x1, x2, y2)
          + Column(x1, Min(y1, y2), Max(y1, y2)) + Column(x2, Min(y1, y2), Max(y1, y2))
          + Line(x2, y2, x1, y1)
  {
    HorizontalLine(x1, x2, y1);
    HorizontalLine(x1, x2, y2);
    VerticalLine(x1, y1, y2);
    VerticalLine(x2, y1, y2);
  }

  /** A triangle whose vertices already sit on integer cells fills the triangle of
      those cells. */
  lemma FilledCellsOfIntegral(t: Triangle, x1: int, y1: int, x2: int, y2: int, x3: int, y3: int)
    requires InI32(x1) && InI32(y1) && InI32(x2) && InI32(y2) && InI32(x3) && InI32(y3)
    requires t.p0.x == x1 as real && t.p0.y == y1 as real
    requires t.p1.x == x2 as real && t.p1.y == y2 as real
    requires t.p2.x == x3 as real && t.p2.y == y3 as real
    ensures FilledCells(t) == TriangleCells(x1, y1, x2, y2, x3, y3)
    ensures OutlineCells(t) == Outline(x1, y1, x2, y2, x3, y3)
  {
    CastsOfInteger(x1);
    CastsOfInteger(y1);
    CastsOfInteger(x2);
    CastsOfInteger(y2);
    CastsOfInteger(x3);
    CastsOfInteger(y3);
  }

  class Drawer {
    const width: nat
    const height: nat
    const buffer: array<Color>

    predicate Valid()
    {
      buffer.Length == width * height
    }

    /** `Drawer::new`: an all-black buffer of `width * height` cells. */
    constructor (w: nat, h: nat)
      ensures width == w && height == h && Valid()
      ensures fresh(buffer)
      ensures buffer[..] == seq(w * h, _ => 0)
    {
      width, height := w, h;
      buffer := new Color[w * h](_ => 0);
    }

    /** `draw`: writes cell (x, y) when it lies inside the grid, else nothing. */
    method Draw(x: int, y: int, col: Color)
      requires Valid()
      modifies buffer
      ensures buffer[..] == Painted(old(buffer[..]), width, {(x, y)}, col)
    {
      if 0 <= x < width && 0 <= y < height {
        PaintedInside(buffer[..], width, height, x, y, col);
        buffer[y * width + x] := col;
      } else {
        PaintedOutside(buffer[..], width, height, x, y, col);
      }
    }

    /** `fill_line`: the ends are swapped into order, then every x between them is
        drawn on row `ny`. */
    method FillLine(sx: int, ex: int, ny: int, col: Color)
      requires Valid()
      modifies buffer
      ensures buffer[..] == Painted(old(buffer[..]), width, Span(sx, ex, ny), col)
    {
      var lo, hi := sx, ex;
      if lo > hi {
        lo, hi := hi, lo;
      }
      assert Row(lo, lo - 1, ny) == {};
      PaintedNothing(buffer[..], width, col);
      for x := lo to hi + 1
        invariant buffer[..] == Painted(old(buffer[..]), width, Row(lo, x - 1, ny), col)
      {
        Draw(x, ny, col);
        PaintedUnion(old(buffer[..]), width, Row(lo, x - 1, ny), {(x, ny)}, col);
        RowExtend(lo, x - 1, ny);
      }
    }

    /** `clip`: the point clamped into the grid. `fill` calls it and discards the
        result (it only changes its own copies of the arguments). */
    function Clip(x: int, y: int): (r: Cell)
      ensures width > 0 && height > 0 ==> 0 <= r.0 < width && 0 <= r.1 < height
      ensures 0 <= x < width && 0 <= y < height ==> r == (x, y)
    {
      var cx := if x < 0 then 0 else x;
      var cx := if cx >= width then width - 1 else cx;
      var cy := if y < 0 then 0 else y;
      var cy := if cy >= height then height - 1 else cy;
      (cx, cy)
    }

    /** `fill`: every cell of x1..x2 by y1..y2, both inclusive; the clip results are
        dropped, so cells outside the grid are left to `draw`. */
    method Fill(x1: int, y1: int, x2: int, y2: int, col: Color)
      requires Valid()
      modifies buffer
      ensures buffer[..] == Painted(old(buffer[..]), width, Rect(x1, y1, x2, y2), col)
    {
      ghost var target := Painted(buffer[..], width, Rect(x1, y1, x2, y2), col);
      var _ := Clip(x1, y1);
      var _ := Clip(x2, y2);
      var x := x1;
      while x <= x2
        invariant Painted(buffer[..], width, Rect(x, y1, x2, y2), col) == target
        decreases x2 - x
      {
        RectFirst(x, y1, x2, y2);
        FillColumn(x, y1, y2, col, Rect(x + 1, y1, x2, y2), target);
        x := x + 1;
      }
      assert Rect(x, y1, x2, y2) == {};
      PaintedNothing(buffer[..], width, col);
    }

    /** The inner loop of `fill`: column x from y1 to y2, as progress towards `target`. */
    method FillColumn(x: int, y1: int, y2: int, col: Color, ghost rest: set<Cell>, ghost target: seq<Color>)
      requires Valid()
      requires Painted(buffer[..], width, Column(x, y1, y2) + rest, col) == target
      modifies buffer
      ensures Painted(buffer[..], width, rest, col) == target
    {
      var y := y1;
      while y <= y2
        invariant Painted(buffer[..], width, Column(x, y, y2) + rest, col) == target
        decreases y2 - y
      {
        ColumnFirst(x, y, y2);
        assert Column(x, y, y2) + rest == {(x, y)} + (Column(x, y + 1, y2) + rest);
        DrawFirst((x, y), Column(x, y + 1, y2) + rest, target, col);
        y := y + 1;
      }
      assert Column(x, y, y2) == {};
    }

    /** The frame update's `fill(0, 0, width, height, 0)`: the whole buffer black. */
    method ClearFrame()
      requires Valid()
      modifies buffer
      ensures buffer[..] == seq(width * height, _ => 0)
    {
      Fill(0, 0, width, height, 0);
      ClearScreen(old(buffer[..]), width, height, 0);
    }

    /** A `draw` seen as progress towards `target`: the buffer that still had
        `{c} + rest` to paint has only `rest` left. */
    method DrawFirst(c: Cell, ghost rest: set<Cell>, ghost target: seq<Color>, col: Color)
      requires Valid()
      requires Painted(buffer[..], width, {c} + rest, col) == target
      modifies buffer
      ensures Painted(buffer[..], width, rest, col) == target
    {
      Draw(c.0, c.1, col);
      PaintedUnion(old(buffer[..]), width, {c}, rest, col);
    }

    /** `draw_line`: Bresenham's walk from the end with the smaller major
        coordinate, drawing one cell per step. */
    method DrawLine(x1: int, y1: int, x2: int, y2: int, col: Color)
      requires Valid()
      modifies buffer
      ensures buffer[..] == Painted(old(buffer[..]), width, Line(x1, y1, x2, y2), col)
    {
      ghost var target := Painted(buffer[..], width, Line(x1, y1, x2, y2), col);
      var dx, dy := x2 - x1, y2 - y1;
      var dx1: int, dy1: int := Abs(dx), Abs(dy);
      var px, py := 2 * dy1 - dx1, 2 * dx1 - dy1;
      var x, y;
      if dy1 <= dx1 {
        if dx >= 0 {
          x, y := x1, y1;
        } else {
          x, y := x2, y2;
        }
        ghost var walk := Walk(true, x, y, px, dx1, dx1, dy1, MinorStep(dx, dy));
        assert LinePoints(x1, y1, x2, y2) == [(x, y)] + walk;
        CellsCons((x, y), walk);
        DrawFirst((x, y), Cells(walk), target, col);
        WalkXMajor(x, y, px, dx, dy, col, target);
      } else {
        if dy >= 0 {
          x, y := x1, y1;
        } else {
          x, y := x2, y2;
        }
        ghost var walk := Walk(false, y, x, py, dy1, dy1, dx1, MinorStep(dx, dy));
        assert LinePoints(x1, y1, x2, y2) == [(x, y)] + walk;
        CellsCons((x, y), walk);
        DrawFirst((x, y), Cells(walk), target, col);
        WalkYMajor(x, y, py, dx, dy, col, target);
      }
    }

    /** The loop of `draw_line` when x is the major axis (|dy| <= |dx|): x rises by
        one per step and y follows the sign of the error term `px`. */
    method WalkXMajor(x0: int, y0: int, px0: int, dx: int, dy: int, col: Color, ghost target: seq<Color>)
      requires Valid()
      requires Painted(buffer[..], width, Cells(Walk(true, x0, y0, px0, Abs(dx), Abs(dx), Abs(dy), MinorStep(dx, dy))), col) == target
      modifies buffer
      ensures buffer[..] == target
    {
      var dx1: int, dy1: int := Abs(dx), Abs(dy);
      ghost var step := MinorStep(dx, dy);
      var x, y, px := x0, y0, px0;
      for i := 0 to dx1
        invariant Painted(buffer[..], width, Cells(Walk(true, x, y, px, dx1 - i, dx1, dy1, step)), col) == target
      {
        ghost var yBefore, pxBefore := y, px;
        if px < 0 {
          px := px + 2 * dy1;
        } else {
          if (dx < 0 && dy < 0) || (dx > 0 && dy > 0) {
            y := y + 1;
          } else {
            y := y - 1;
          }
          px := px + 2 * (dy1 - dx1);
        }
        DrawXStep(x, yBefore, pxBefore, dx1 - i, dx, dy, y, px, col, target);
        x := x + 1;
      }
      assert Cells(Walk(true, x, y, px, 0, dx1, dy1, step)) == {};
      PaintedNothing(buffer[..], width, col);
    }

    /** The loop of `draw_line` when y is the major axis (|dx| < |dy|): y rises by
        one per step and x follows the sign of the error term `py`. */
    method WalkYMajor(x0: int, y0: int, py0: int, dx: int, dy: int, col: Color, ghost target: seq<Color>)
      requires Valid()
      requires Painted(buffer[..], width, Cells(Walk(false, y0, x0, py0, Abs(dy), Abs(dy), Abs(dx), MinorStep(dx, dy))), col) == target
      modifies buffer
      ensures buffer[..] == target
    {
      var dx1: int, dy1: int := Abs(dx), Abs(dy);
      ghost var step := MinorStep(dx, dy);
      var x, y, py := x0, y0, py0;
      for i := 0 to dy1
        invariant Painted(buffer[..], width, Cells(Walk(false, y, x, py, dy1 - i, dy1, dx1, step)), col) == target
      {
        ghost var xBefore, pyBefore := x, py;
        if py <= 0 {
          py := py + 2 * dx1;
        } else {
          if (dx < 0 && dy < 0) || (dx > 0 && dy > 0) {
            x := x + 1;
          } else {
            x := x - 1;
          }
          py := py + 2 * (dx1 - dy1);
        }
        DrawYStep(xBefore, y, pyBefore, dy1 - i, dx, dy, x, py, col, target);
        y := y + 1;
      }
      assert Cells(Walk(false, y, x, py, 0, dy1, dx1, step)) == {};
      PaintedNothing(buffer[..], width, col);
    }

    /** The `draw` of one x-major step, as progress towards `target`: the walk
        still to paint loses its first cell `(x + 1, y2)`. */
    method DrawXStep(x: int, ghost y: int, ghost px: int, ghost n: nat, dx: int, dy: int, y2: int, ghost px2: int,
                     col: Color, ghost target: seq<Color>)
      requires Valid() && n > 0
      requires px < 0 ==> y2 == y && px2 == px + 2 * Abs(dy)
      requires px >= 0 ==>
        px2 == px + 2 * (Abs(dy) - Abs(dx)) &&
        y2 == (if (dx < 0 && dy < 0) || (dx > 0 && dy > 0) then y + 1 else y - 1)
      requires Painted(buffer[..], width, Cells(Walk(true, x, y, px, n, Abs(dx), Abs(dy), MinorStep(dx, dy))), col) == target
      modifies buffer
      ensures Painted(buffer[..], width, Cells(Walk(true, x + 1, y2, px2, n - 1, Abs(dx), Abs(dy), MinorStep(dx, dy))), col) == target
    {
      WalkXStep(x, y, px, n, dx, dy, y2, px2);
      DrawFirst((x + 1, y2), Cells(Walk(true, x + 1, y2, px2, n - 1, Abs(dx), Abs(dy), MinorStep(dx, dy))), target, col);
    }

    /** The `draw` of one y-major step, mirrored: the first cell is `(x2, y + 1)`. */
    method DrawYStep(ghost x: int, y: int, ghost py: int, ghost n: nat, dx: int, dy: int, x2: int, ghost py2: int,
                     col: Color, ghost target: seq<Color>)
      requires Valid() && n > 0
      requires py <= 0 ==> x2 == x && py2 == py + 2 * Abs(dx)
      requires py > 0 ==>
        py2 == py + 2 * (Abs(dx) - Abs(dy)) &&
        x2 == (if (dx < 0 && dy < 0) || (dx > 0 && dy > 0) then x + 1 else x - 1)
      requires Painted(buffer[..], width, Cells(Walk(false, y, x, py, n, Abs(dy), Abs(dx), MinorStep(dx, dy))), col) == target
      modifies buffer
      ensures Painted(buffer[..], width, Cells(Walk(false, y + 1, x2, py2, n - 1, Abs(dy), Abs(dx), MinorStep(dx, dy))), col) == target
    {
      WalkYStep(x, y, py, n, dx, dy, x2, py2);
      DrawFirst((x2, y + 1), Cells(Walk(false, y + 1, x2, py2, n - 1, Abs(dy), Abs(dx), MinorStep(dx, dy))), target, col);
    }

    /** One step of the x-major loop: from `(x, y)` with error term `px`, the
        loop moves to `(x + 1, y2)` with error term `px2`; that cell is drawn and
        the rest of the walk starts there. */
    lemma WalkXStep(x: int, y: int, px: int, n: nat, dx: int, dy: int, y2: int, px2: int)
      requires n > 0
      requires px < 0 ==> y2 == y && px2 == px + 2 * Abs(dy)
      requires px >= 0 ==>
        px2 == px + 2 * (Abs(dy) - Abs(dx)) &&
        y2 == (if (dx < 0 && dy < 0) || (dx > 0 && dy > 0) then y + 1 else y - 1)
      ensures Cells(Walk(true, x, y, px, n, Abs(dx), Abs(dy), MinorStep(dx, dy)))
        == {(x + 1, y2)} + Cells(Walk(true, x + 1, y2, px2, n - 1, Abs(dx), Abs(dy), MinorStep(dx, dy)))
    {
      var w := Walk(true, x, y, px, n, Abs(dx), Abs(dy), MinorStep(dx, dy));
      CellsCons(w[0], w[1..]);
      assert w == [w[0]] + w[1..];
    }

    /** One step of the y-major loop, mirrored: `(x, y)` moves to `(x2, y + 1)`
        with error term `py2`. */
    lemma WalkYStep(x: int, y: int, py: int, n: nat, dx: int, dy: int, x2: int, py2: int)
      requires n > 0
      requires py <= 0 ==> x2 == x && py2 == py + 2 * Abs(dx)
      requires py > 0 ==>
        py2 == py + 2 * (Abs(dx) - Abs(dy)) &&
        x2 == (if (dx < 0 && dy < 0) || (dx > 0 && dy > 0) then x + 1 else x - 1)
      ensures Cells(Walk(false, y, x, py, n, Abs(dy), Abs(dx), MinorStep(dx, dy)))
        == {(x2, y + 1)} + Cells(Walk(false, y + 1, x2, py2, n - 1, Abs(dy), Abs(dx), MinorStep(dx, dy)))
    {
      var w := Walk(false, y, x, py, n, Abs(dy), Abs(dx), MinorStep(dx, dy));
      CellsCons(w[0], w[1..]);
      assert w == [w[0]] + w[1..];
    }

    /** The eight mirrored cells one iteration of `draw_circle` draws, as progress
        towards `target`. */
    method DrawOctants(xc: int, yc: int, x: int, y: int, ghost rest: set<Cell>, ghost target: seq<Color>)
      requires Valid()
      requires Painted(buffer[..], width, Octants(xc, yc, x, y) + rest, White) == target
      modifies buffer
      ensures Painted(buffer[..], width, rest, White) == target
    {
      ghost var r7 := {(xc + x, yc - y)} + rest;
      ghost var r6 := {(xc + y, yc - x)} + r7;
      ghost var r5 := {(xc - y, yc - x)} + r6;
      ghost var r4 := {(xc - x, yc - y)} + r5;
      ghost var r3 := {(xc - x, yc + y)} + r4;
      ghost var r2 := {(xc - y, yc + x)} + r3;
      ghost var r1 := {(xc + y, yc + x)} + r2;
      assert Octants(xc, yc, x, y) + rest == {(xc + x, yc + y)} + r1;
      DrawFirst((xc + x, yc + y), r1, target, White);
      DrawFirst((xc + y, yc + x), r2, target, White);
      DrawFirst((xc - y, yc + x), r3, target, White);
      DrawFirst((xc - x, yc + y), r4, target, White);
      DrawFirst((xc - x, yc - y), r5, target, White);
      DrawFirst((xc - y, yc - x), r6, target, White);
      DrawFirst((xc + y, yc - x), r7, target, White);
      DrawFirst((xc + x, yc - y), rest, target, White);
    }

    /** `draw_circle`: the midpoint circle of radius r about (xc, yc), in white. */
    method DrawCircle(xc: int, yc: int, r: int)
      requires Valid()
      modifies buffer
      ensures buffer[..] == Painted(old(buffer[..]), width, Circle(xc, yc, r), White)
    {
      ghost var target := Painted(buffer[..], width, Circle(xc, yc, r), White);
      var x, y, p := 0, r, 3 - 2 * r;
      if r == 0 {
        PaintedNothing(buffer[..], width, White);
        return;
      }
      while y >= x
        invariant Painted(buffer[..], width, CircleCells(xc, yc, x, y, p), White) == target
        decreases y - x + 1
      {
        ghost var next := CircleNext(x, y, p);
        CircleCellsUnfold(xc, yc, x, y, p);
        DrawOctants(xc, yc, x, y, CircleCells(xc, yc, next.0, next.1, next.2), target);
        if p < 0 {
          p := p + 4 * x + 6;
        } else {
          y := y - 1;
          p := p + 4 * (x - y) + 10;
        }
        x := x + 1;
        assert x == next.0 && y == next.1 && p == next.2;
      }
      PaintedNothing(buffer[..], width, White);
    }

    /** `draw_triangle`: its three edges, as lines. */
    method DrawTriangle(x1: int, y1: int, x2: int, y2: int, x3: int, y3: int, col: Color)
      requires Valid()
      modifies buffer
      ensures buffer[..] == Painted(old(buffer[..]), width, Outline(x1, y1, x2, y2, x3, y3), col)
    {
      DrawLine(x1, y1, x2, y2, col);
      DrawLine(x2, y2, x3, y3, col);
      PaintedUnion(old(buffer[..]), width, Line(x1, y1, x2, y2), Line(x2, y2, x3, y3), col);
      DrawLine(x3, y3, x1, y1, col);
      PaintedUnion(old(buffer[..]), width, Line(x1, y1, x2, y2) + Line(x2, y2, x3, y3), Line(x3, y3, x1, y1), col);
    }

    /** `draw_square`: the outlines of the two halves of the rectangle. */
    method DrawSquare(x1: int, y1: int, x2: int, y2: int, col: Color)
      requires Valid()
      modifies buffer
      ensures buffer[..] == Painted(old(buffer[..]), width, SquareCells(x1, y1, x2, y2), col)
    {
      DrawTriangle(x1, y1, x2, y1, x2, y2, col);
      DrawTriangle(x1, y1, x1, y2, x2, y2, col);
      PaintedUnion(old(buffer[..]), width, Outline(x1, y1, x2, y1, x2, y2), Outline(x1, y1, x1, y2, x2, y2), col);
    }

    /** `fill_triangle`: the points sorted by y, then one span per row between the
        short edge and the long edge p1-p3, first over rows y1..y2, then y2..y3. */
    method FillTriangle(x1: int, y1: int, x2: int, y2: int, x3: int, y3: int, col: Color)
      requires Valid()
      modifies buffer
      ensures buffer[..] == Painted(old(buffer[..]), width, TriangleCells(x1, y1, x2, y2, x3, y3), col)
    {
      ghost var target := Painted(buffer[..], width, TriangleCells(x1, y1, x2, y2, x3, y3), col);
      var points := SortByY((x1, y1), (x2, y2), (x3, y3));
      var p1, p2, p3 := points.0, points.1, points.2;
      var slopeA := Slope(p1.0, p1.1, p2.0, p2.1);
      var slopeB := Slope(p1.0, p1.1, p3.0, p3.1);
      var slopeC := Slope(p2.0, p2.1, p3.0, p3.1);
      ghost var lower := Rows(p2, slopeC, p1, slopeB, p2.1, p3.1);
      assert TriangleCells(x1, y1, x2, y2, x3, y3) == Rows(p1, slopeA, p1, slopeB, p1.1, p2.1) + lower;
      FillRows(p1, slopeA, p1, slopeB, p1.1, p2.1, col, lower, target);
      assert lower == lower + {};
      FillRows(p2, slopeC, p1, slopeB, p2.1, p3.1, col, {}, target);
      PaintedNothing(buffer[..], width, col);
    }

    /** A `fill_line` seen as progress towards `target`: the buffer that still had
        the span and `rest` to paint has only `rest` left. */
    method FillFirst(sx: int, ex: int, y: int, col: Color, ghost rest: set<Cell>, ghost target: seq<Color>)
      requires Valid()
      requires Painted(buffer[..], width, Span(sx, ex, y) + rest, col) == target
      modifies buffer
      ensures Painted(buffer[..], width, rest, col) == target
    {
      FillLine(sx, ex, y, col);
      PaintedUnion(old(buffer[..]), width, Span(sx, ex, y), rest, col);
    }

    /** One loop of `fill_triangle`: for each row y of lo..hi, the span between the
        edge through `a` with inverse slope `sa` and the edge through `b` with `sb`,
        as progress towards `target`. */
    method FillRows(a: Cell, sa: real, b: Cell, sb: real, lo: int, hi: int, col: Color,
                    ghost rest: set<Cell>, ghost target: seq<Color>)
      requires Valid()
      requires Painted(buffer[..], width, Rows(a, sa, b, sb, lo, hi) + rest, col) == target
      modifies buffer
      ensures Painted(buffer[..], width, rest, col) == target
    {
      var y := lo;
      while y <= hi
        invariant Painted(buffer[..], width, Rows(a, sa, b, sb, y, hi) + rest, col) == target
        decreases hi - y
      {
        var xa := EdgeX(a.0, a.1, sa, y);
        var xb := EdgeX(b.0, b.1, sb, y);
        RowsFirst(a, sa, b, sb, y, hi, rest);
        FillFirst(RoundI32(xa), RoundI32(xb), y, col, Rows(a, sa, b, sb, y + 1, hi) + rest, target);
        y := y + 1;
      }
    }

    /** `fill_triangle_from`: the triangle's vertices cast to cells, filled in its colour. */
    method FillTriangleFrom(t: Triangle)
      requires Valid()
      modifies buffer
      ensures buffer[..] == Painted(old(buffer[..]), width, FilledCells(t), t.color)
    {
      FillTriangle(CastI32(t.p0.x), CastI32(t.p0.y), CastI32(t.p1.x), CastI32(t.p1.y),
                   CastI32(t.p2.x), CastI32(t.p2.y), t.color);
    }

    /** `draw_triangle_from`: the triangle's vertices cast to cells, outlined in its colour. */
    method DrawTriangleFrom(t: Triangle)
      requires Valid()
      modifies buffer
      ensures buffer[..] == Painted(old(buffer[..]), width, OutlineCells(t), t.color)
    {
      DrawTriangle(CastI32(t.p0.x), CastI32(t.p0.y), CastI32(t.p1.x), CastI32(t.p1.y),
                   CastI32(t.p2.x), CastI32(t.p2.y), t.color);
    }

    /** The last loop of the frame update: fill every triangle that leaves the
        screen-edge worklist, in order. */
    method FillAll(list: seq<Triangle>)
      requires Valid()
      modifies buffer
      ensures buffer[..] == PaintAll(old(buffer[..]), width, list)
    {
      for i := 0 to |list|
        invariant buffer[..] == PaintAll(old(buffer[..]), width, list[..i])
      {
        PaintAllPrefix(old(buffer[..]), width, list, i);
        FillTriangleFrom(list[i]);
      }
      assert list[..|list|] == list;
    }
  }
}
