/** The pixel grid of the drawer and the sets of cells its primitives paint.
    A buffer is a row-major sequence of `u32` colours, `width` cells per row; a
    primitive is specified by the set of cells it draws, and `Painted` says what a
    buffer looks like after those cells are drawn in one colour. Cells outside
    the grid are dropped, as `draw` drops them. */
module Raster {

  /** A `u32` colour, `0x00RRGGBB`. */
  type Color = c: int | 0 <= c < 0x1_0000_0000

  /** A cell of the grid as (x, y). */
  type Cell = (int, int)

  function Min(a: int, b: int): int { if a <= b then a else b }
  function Max(a: int, b: int): int { if a <= b then b else a }
  function Abs(a: int): nat { if a < 0 then -a else a }

  // ---- The grid ------------------------------------------------------------------

  /** The cell that buffer index `k` stands for, in a grid `w` cells wide. */
  function CellAt(w: nat, k: nat): Cell
    requires w > 0
  {
    (k % w, k / w)
  }

  /** The buffer `b` after every cell of `cells` inside the grid is set to `col`. */
  function Painted(b: seq<Color>, w: nat, cells: set<Cell>, col: Color): seq<Color>
  {
    if w == 0 then b
    else seq(|b|, k requires 0 <= k < |b| => if CellAt(w, k) in cells then col else b[k])
  }

  /** A product that is strictly between -w and w is 0 when w > 0. */
  lemma SmallMultiple(a: int, w: int)
    requires w > 0 && -w < a * w < w
    ensures a == 0
  {
  }

  /** Index `y * w + x` of an in-bounds cell lies in the buffer and stands for (x, y). */
  lemma IndexOfCell(w: nat, h: nat, x: int, y: int)
    requires 0 <= x < w && 0 <= y < h
    ensures 0 <= y * w + x < w * h
    ensures CellAt(w, y * w + x) == (x, y)
  {
    IndexBound(w, h, x, y);
    DivModUnique(y * w + x, w, x, y);
  }

  lemma IndexBound(w: nat, h: nat, x: int, y: int)
    requires 0 <= x < w && 0 <= y < h
    ensures 0 <= y * w + x < w * h
  {
    assert (h - 1 - y) * w >= 0;
    assert (h - 1 - y) * w == w * h - w - y * w;
  }

  /** Euclidean division of `y * w + x` by `w` gives quotient y and remainder x. */
  lemma DivModUnique(k: int, w: int, x: int, y: int)
    requires w > 0 && 0 <= x < w && k == y * w + x
    ensures k / w == y && k % w == x
  {
    var q, r := k / w, k % w;
    assert q * w + r == y * w + x;
    assert (q - y) * w == x - r;
    SmallMultiple(q - y, w);
  }

  /** Every index of a `w * h` buffer stands for a cell inside the grid. */
  lemma CellOfIndex(w: nat, h: nat, k: nat)
    requires k < w * h
    ensures w > 0
    ensures 0 <= CellAt(w, k).0 < w && 0 <= CellAt(w, k).1 < h
    ensures CellAt(w, k).1 * w + CellAt(w, k).0 == k
  {
  }

  /** Painting nothing leaves the buffer as it was. */
  lemma PaintedNothing(b: seq<Color>, w: nat, col: Color)
    ensures Painted(b, w, {}, col) == b
  {
  }

  /** Painting `s` and then `t` in one colour is painting their union. */
  lemma PaintedUnion(b: seq<Color>, w: nat, s: set<Cell>, t: set<Cell>, col: Color)
    ensures Painted(Painted(b, w, s, col), w, t, col) == Painted(b, w, s + t, col)
  {
  }

  /** Painting one in-bounds cell writes exactly its index `y * w + x`. */
  lemma PaintedInside(b: seq<Color>, w: nat, h: nat, x: int, y: int, col: Color)
    requires |b| == w * h && 0 <= x < w && 0 <= y < h
    ensures 0 <= y * w + x < |b|
    ensures Painted(b, w, {(x, y)}, col) == b[y * w + x := col]
  {
    IndexOfCell(w, h, x, y);
    forall k | 0 <= k < |b|
      ensures Painted(b, w, {(x, y)}, col)[k] == b[y * w + x := col][k]
    {
      CellOfIndex(w, h, k);
    }
  }

  /** Painting one cell outside the grid changes nothing. */
  lemma PaintedOutside(b: seq<Color>, w: nat, h: nat, x: int, y: int, col: Color)
    requires |b| == w * h && !(0 <= x < w && 0 <= y < h)
    ensures Painted(b, w, {(x, y)}, col) == b
  {
    forall k | 0 <= k < |b|
      ensures Painted(b, w, {(x, y)}, col)[k] == b[k]
    {
      CellOfIndex(w, h, k);
    }
  }

  // ---- Spans and rectangles ----------------------------------------------------------

  /** The cells lo..hi (inclusive) of row y; empty when hi < lo. */
  function Row(lo: int, hi: int, y: int): set<Cell>
  {
    set x | lo <= x <= hi :: (x, y)
  }

  /** The cells lo..hi (inclusive) of column x; empty when hi < lo. */
  function Column(x: int, lo: int, hi: int): set<Cell>
  {
    set y | lo <= y <= hi :: (x, y)
  }

  /** What `fill_line(sx, ex, y)` paints: row y between sx and ex, in either order. */
  function Span(sx: int, ex: int, y: int): set<Cell>
  {
    Row(Min(sx, ex), Max(sx, ex), y)
  }

  /** What `fill(x1, y1, x2, y2)` paints: x1..x2 by y1..y2, both inclusive, and
      nothing when x2 < x1 or y2 < y1 (the loops do not swap). */
  function Rect(x1: int, y1: int, x2: int, y2: int): set<Cell>
  {
    set x, y | x1 <= x <= x2 && y1 <= y <= y2 :: (x, y)
  }

  /** A non-empty column is its top cell and the column below it. */
  lemma ColumnFirst(x: int, lo: int, hi: int)
    requires lo <= hi
    ensures Column(x, lo, hi) == {(x, lo)} + Column(x, lo + 1, hi)
  {
    assert (x, lo) in Column(x, lo, hi);
  }

  /** A non-empty rectangle is its leftmost column and the rectangle to its right. */
  lemma RectFirst(x1: int, y1: int, x2: int, y2: int)
    requires x1 <= x2
    ensures Rect(x1, y1, x2, y2) == Column(x1, y1, y2) + Rect(x1 + 1, y1, x2, y2)
  {
  }

  /** A row grows by one cell at its right end. */
  lemma RowExtend(lo: int, hi: int, y: int)
    ensures Row(lo, hi, y) + {(hi + 1, y)} == Row(lo, hi + 1, y) || hi + 1 < lo
  {
    if lo <= hi + 1 {
      assert (hi + 1, y) in Row(lo, hi + 1, y);
    }
  }

  /** A span is the row between its ends in either order, and nothing off row y. */
  lemma SpanCells(sx: int, ex: int, y: int, c: Cell)
    ensures Span(sx, ex, y) == Span(ex, sx, y)
    ensures c in Span(sx, ex, y) <==> c.1 == y && Min(sx, ex) <= c.0 <= Max(sx, ex)
    ensures (sx, y) in Span(sx, ex, y) && (ex, y) in Span(sx, ex, y)
  {
    if c.1 == y && Min(sx, ex) <= c.0 <= Max(sx, ex) {
      assert c == (c.0, y);
    }
    assert (sx, y) in Span(sx, ex, y);
    assert (ex, y) in Span(sx, ex, y);
  }

  /** `fill(0, 0, width, height, col)`, as the frame update calls it, sets every cell
      of a `width * height` buffer to `col`: the cells of row x = width and column
      y = height that the inclusive loops also reach fall outside the grid. */
  lemma ClearScreen(b: seq<Color>, w: nat, h: nat, col: Color)
    requires |b| == w * h
    ensures Painted(b, w, Rect(0, 0, w, h), col) == seq(|b|, _ => col)
  {
    forall k | 0 <= k < |b|
      ensures Painted(b, w, Rect(0, 0, w, h), col)[k] == col
    {
      CellOfIndex(w, h, k);
      var c := CellAt(w, k);
      assert c in Rect(0, 0, w, h);
    }
  }

  /** The cells of a sequence of cells. */
  function Cells(s: seq<Cell>): set<Cell>
  {
    set c | c in s
  }

  lemma CellsCons(c: Cell, s: seq<Cell>)
    ensures Cells([c] + s) == {c} + Cells(s)
  {
    forall d
      ensures d in Cells([c] + s) <==> d == c || d in Cells(s)
    {
      assert d in [c] + s <==> d == c || d in s;
    }
  }

  // ---- Lines (draw_line) -----------------------------------------------------------

  /** The direction of the minor coordinate: +1 when both differences have the same
      strict sign, -1 otherwise (also when one of them is 0). */
  function MinorStep(dx: int, dy: int): int
  {
    if (dx < 0 && dy < 0) || (dx > 0 && dy > 0) then 1 else -1
  }

  /** A cell given by its major coordinate `u` and its minor coordinate `v`. */
  function Orient(xMajor: bool, u: int, v: int): Cell
  {
    if xMajor then (u, v) else (v, u)
  }

  /** Whether the walk moves along the minor axis at error `e`: the x-major loop
      stays while `px < 0`, the y-major loop while `py <= 0`. */
  predicate MinorMove(xMajor: bool, e: int)
  {
    if xMajor then e >= 0 else e > 0
  }

  /** The cells drawn by `n` iterations of one of the two loops of `draw_line`,
      from the cell (`u`, `v`) with error term `e`; `du` and `dv` are the absolute
      differences along the major and the minor axis. */
  function Walk(xMajor: bool, u: int, v: int, e: int, n: nat, du: int, dv: int, step: int): (r: seq<Cell>)
    ensures |r| == n
    decreases n
  {
    if n == 0 then []
    else if MinorMove(xMajor, e) then
      [Orient(xMajor, u + 1, v + step)] + Walk(xMajor, u + 1, v + step, e + 2 * (dv - du), n - 1, du, dv, step)
    else
      [Orient(xMajor, u + 1, v)] + Walk(xMajor, u + 1, v, e + 2 * dv, n - 1, du, dv, step)
  }

  /** The cells `draw_line(x1, y1, x2, y2)` draws, in drawing order. */
  function LinePoints(x1: int, y1: int, x2: int, y2: int): seq<Cell>
  {
    var dx, dy := x2 - x1, y2 - y1;
    var dx1: nat, dy1: nat := Abs(dx), Abs(dy);
    if dy1 <= dx1 then
      var s := if dx >= 0 then (x1, y1) else (x2, y2);
      [s] + Walk(true, s.0, s.1, 2 * dy1 - dx1, dx1, dx1, dy1, MinorStep(dx, dy))
    else
      var s := if dy >= 0 then (x1, y1) else (x2, y2);
      [s] + Walk(false, s.1, s.0, 2 * dx1 - dy1, dy1, dy1, dx1, MinorStep(dx, dy))
  }

  /** The set of cells `draw_line` paints. */
  function Line(x1: int, y1: int, x2: int, y2: int): set<Cell>
  {
    Cells(LinePoints(x1, y1, x2, y2))
  }

  /** The window each loop keeps its error term in. */
  predicate InWindow(xMajor: bool, e: int, du: int, dv: int)
  {
    if xMajor then 2 * dv - 2 * du <= e < 2 * dv else 2 * dv - 2 * du < e <= 2 * dv
  }

  lemma MulMono(m: int, a: int, b: int)
    requires m >= 0
    ensures a >= b ==> m * a >= m * b
  {
    if a >= b {
      assert m * a - m * b == m * (a - b);
    }
  }

  /** An integer t with -2m <= m(2t - 1) <= 0, m > 0, is 0. */
  lemma HalfPinned(m: int, t: int)
    requires m > 0 && -2 * m <= m * (2 * t - 1) <= 0
    ensures t == 0
  {
    MulMono(m, 2 * t - 1, 1);
    MulMono(m, -3, 2 * t - 1);
  }

  /** The error term after one more major move, with or without a minor move. */
  lemma ErrorAfterMove(du: int, dv: int, a: int, b: int)
    ensures 2 * dv * (a + 1) - du * (2 * b + 1) + 2 * (dv - du) == 2 * dv * (a + 2) - du * (2 * (b + 1) + 1)
    ensures 2 * dv * (a + 1) - du * (2 * b + 1) + 2 * dv == 2 * dv * (a + 2) - du * (2 * b + 1)
  {
  }

  /** At the end of the walk (`a + 1 == du` moves counted from the start cell), an
      error term in its window pins the number of minor moves to `dv`. */
  lemma ErrorAtEnd(xMajor: bool, e: int, du: int, dv: int, b: int)
    requires 0 < du
    requires e == 2 * dv * (du + 1) - du * (2 * b + 1) && InWindow(xMajor, e, du, dv)
    ensures b == dv
  {
    assert e == 2 * dv + du * (2 * (dv - b) - 1) by {
      assert 2 * dv * (du + 1) == 2 * dv + du * (2 * dv);
    }
    HalfPinned(du, dv - b);
  }

  /** After the walk has made `a` major and `b` minor moves, with the error term in
      its window and equal to 2dv(a + 1) - du(2b + 1), its last cell is `du` major and
      exactly `dv` minor moves from where it began. */
  lemma {:induction false} WalkEnd(xMajor: bool, u: int, v: int, e: int, n: nat, du: int, dv: int, step: int, a: int, b: int)
    requires 0 <= dv <= du && 0 < du && n + a == du && (step == 1 || step == -1)
    requires e == 2 * dv * (a + 1) - du * (2 * b + 1) && InWindow(xMajor, e, du, dv)
    ensures ([Orient(xMajor, u, v)] + Walk(xMajor, u, v, e, n, du, dv, step))[n]
         == Orient(xMajor, u + n, if step == 1 then v + (dv - b) else v - (dv - b))
    decreases n, 1
  {
    if n == 0 {
      ErrorAtEnd(xMajor, e, du, dv, b);
    } else if MinorMove(xMajor, e) {
      WalkEndMinor(xMajor, u, v, e, n, du, dv, step, a, b);
    } else {
      WalkEndMajor(xMajor, u, v, e, n, du, dv, step, a, b);
    }
  }

  /** WalkEnd when the first move is diagonal: the minor count goes up by one. */
  lemma {:induction false} WalkEndMinor(xMajor: bool, u: int, v: int, e: int, n: nat, du: int, dv: int, step: int, a: int, b: int)
    requires 0 <= dv <= du && 0 < du && n + a == du && (step == 1 || step == -1)
    requires n > 0 && MinorMove(xMajor, e)
    requires e == 2 * dv * (a + 1) - du * (2 * b + 1) && InWindow(xMajor, e, du, dv)
    ensures ([Orient(xMajor, u, v)] + Walk(xMajor, u, v, e, n, du, dv, step))[n]
         == Orient(xMajor, u + n, if step == 1 then v + (dv - b) else v - (dv - b))
    decreases n, 0
  {
    ErrorAfterMove(du, dv, a, b);
    var rest := [Orient(xMajor, u + 1, v + step)] + Walk(xMajor, u + 1, v + step, e + 2 * (dv - du), n - 1, du, dv, step);
    assert Walk(xMajor, u, v, e, n, du, dv, step) == rest;
    WalkEnd(xMajor, u + 1, v + step, e + 2 * (dv - du), n - 1, du, dv, step, a + 1, b + 1);
    assert ([Orient(xMajor, u, v)] + rest)[n] == rest[n - 1];
  }

  /** WalkEnd when the first move is straight: the minor count stays. */
  lemma {:induction false} WalkEndMajor(xMajor: bool, u: int, v: int, e: int, n: nat, du: int, dv: int, step: int, a: int, b: int)
    requires 0 <= dv <= du && 0 < du && n + a == du && (step == 1 || step == -1)
    requires n > 0 && !MinorMove(xMajor, e)
    requires e == 2 * dv * (a + 1) - du * (2 * b + 1) && InWindow(xMajor, e, du, dv)
    ensures ([Orient(xMajor, u, v)] + Walk(xMajor, u, v, e, n, du, dv, step))[n]
         == Orient(xMajor, u + n, if step == 1 then v + (dv - b) else v - (dv - b))
    decreases n, 0
  {
    ErrorAfterMove(du, dv, a, b);
    var rest := [Orient(xMajor, u + 1, v)] + Walk(xMajor, u + 1, v, e + 2 * dv, n - 1, du, dv, step);
    assert Walk(xMajor, u, v, e, n, du, dv, step) == rest;
    WalkEnd(xMajor, u + 1, v, e + 2 * dv, n - 1, du, dv, step, a + 1, b);
    assert ([Orient(xMajor, u, v)] + rest)[n] == rest[n - 1];
  }

  /** `draw_line` begins at the endpoint with the smaller major coordinate, ends at
      the other one, and draws one cell per unit of the larger difference. */
  lemma LineEnds(x1: int, y1: int, x2: int, y2: int)
    ensures |LinePoints(x1, y1, x2, y2)| == Max(Abs(x2 - x1), Abs(y2 - y1)) + 1
    ensures var P := LinePoints(x1, y1, x2, y2);
      {P[0], P[|P| - 1]} == {(x1, y1), (x2, y2)}
    ensures (x1, y1) in Line(x1, y1, x2, y2) && (x2, y2) in Line(x1, y1, x2, y2)
  {
    var P := LinePoints(x1, y1, x2, y2);
    if Abs(y2 - y1) <= Abs(x2 - x1) {
      XMajorEnds(x1, y1, x2, y2);
    } else {
      YMajorEnds(x1, y1, x2, y2);
    }
    assert P[0] in P && P[|P| - 1] in P;
  }

  /** Drawing a line from either end gives the same cells in the same order. */
  lemma LineSymmetric(x1: int, y1: int, x2: int, y2: int)
    ensures LinePoints(x1, y1, x2, y2) == LinePoints(x2, y2, x1, y1)
  {
  }

  /** A walk of `du > 0` major steps set up as `draw_line` sets it up, towards a
      minor difference `m` with `Abs(m) <= du`, ends exactly `m` away. */
  lemma WalkReaches(xMajor: bool, u: int, v: int, du: int, m: int)
    requires 0 < du && Abs(m) <= du
    ensures var P := [Orient(xMajor, u, v)] + Walk(xMajor, u, v, 2 * Abs(m) - du, du, du, Abs(m), MinorStep(du, m));
      |P| == du + 1 && P[du] == Orient(xMajor, u + du, v + m)
  {
    var dv: nat := Abs(m);
    assert InWindow(xMajor, 2 * dv - du, du, dv);
    assert 2 * dv - du == 2 * dv * (0 + 1) - du * (2 * 0 + 1);
    WalkEnd(xMajor, u, v, 2 * dv - du, du, du, dv, MinorStep(du, m), 0, 0);
  }

  /** The cells of an x-major line drawn left to right: its first end point, then
      the walk. */
  lemma LinePointsOfX(x1: int, y1: int, x2: int, y2: int)
    requires Abs(y2 - y1) <= x2 - x1
    ensures LinePoints(x1, y1, x2, y2)
         == [(x1, y1)] + Walk(true, x1, y1, 2 * Abs(y2 - y1) - (x2 - x1), x2 - x1, x2 - x1, Abs(y2 - y1), MinorStep(x2 - x1, y2 - y1))
  {
  }

  /** The cells of a y-major line drawn top to bottom: its first end point, then
      the walk. */
  lemma LinePointsOfY(x1: int, y1: int, x2: int, y2: int)
    requires Abs(x2 - x1) < y2 - y1
    ensures LinePoints(x1, y1, x2, y2)
         == [(x1, y1)] + Walk(false, y1, x1, 2 * Abs(x2 - x1) - (y2 - y1), y2 - y1, y2 - y1, Abs(x2 - x1), MinorStep(y2 - y1, x2 - x1))
  {
  }

  /** An x-major line drawn left to right starts at its first end point and ends
      at its second. */
  lemma XMajorForward(x1: int, y1: int, x2: int, y2: int)
    requires Abs(y2 - y1) <= x2 - x1
    ensures var P := LinePoints(x1, y1, x2, y2);
      |P| == x2 - x1 + 1 && P[0] == (x1, y1) && P[|P| - 1] == (x2, y2)
  {
    LinePointsOfX(x1, y1, x2, y2);
    if x2 > x1 {
      WalkReaches(true, x1, y1, x2 - x1, y2 - y1);
    }
  }

  /** A y-major line drawn top to bottom starts at its first end point and ends
      at its second. */
  lemma YMajorForward(x1: int, y1: int, x2: int, y2: int)
    requires Abs(x2 - x1) < y2 - y1
    ensures var P := LinePoints(x1, y1, x2, y2);
      |P| == y2 - y1 + 1 && P[0] == (x1, y1) && P[|P| - 1] == (x2, y2)
  {
    LinePointsOfY(x1, y1, x2, y2);
    WalkReaches(false, y1, x1, y2 - y1, x2 - x1);
  }

  lemma XMajorEnds(x1: int, y1: int, x2: int, y2: int)
    requires Abs(y2 - y1) <= Abs(x2 - x1)
    ensures var P := LinePoints(x1, y1, x2, y2);
      |P| == Abs(x2 - x1) + 1 &&
      if x2 - x1 >= 0 then P[0] == (x1, y1) && P[|P| - 1] == (x2, y2)
      else P[0] == (x2, y2) && P[|P| - 1] == (x1, y1)
  {
    if x2 - x1 >= 0 {
      XMajorForward(x1, y1, x2, y2);
    } else {
      LineSymmetric(x1, y1, x2, y2);
      XMajorForward(x2, y2, x1, y1);
    }
  }

  lemma YMajorEnds(x1: int, y1: int, x2: int, y2: int)
    requires Abs(x2 - x1) < Abs(y2 - y1)
    ensures var P := LinePoints(x1, y1, x2, y2);
      |P| == Abs(y2 - y1) + 1 &&
      if y2 - y1 >= 0 then P[0] == (x1, y1) && P[|P| - 1] == (x2, y2)
      else P[0] == (x2, y2) && P[|P| - 1] == (x1, y1)
  {
    if y2 - y1 >= 0 {
      YMajorForward(x1, y1, x2, y2);
    } else {
      LineSymmetric(x1, y1, x2, y2);
      YMajorForward(x2, y2, x1, y1);
    }
  }

  /** Consecutive cells of a line are neighbours: the major coordinate grows by one
      and the minor one changes by at most one. */
  lemma LineConnected(x1: int, y1: int, x2: int, y2: int, i: nat)
    requires i + 1 < |LinePoints(x1, y1, x2, y2)|
    ensures var P := LinePoints(x1, y1, x2, y2);
      Abs(P[i + 1].0 - P[i].0) <= 1 && Abs(P[i + 1].1 - P[i].1) <= 1
    ensures var P := LinePoints(x1, y1, x2, y2);
      if Abs(y2 - y1) <= Abs(x2 - x1) then P[i + 1].0 == P[i].0 + 1 else P[i + 1].1 == P[i].1 + 1
  {
    if Abs(y2 - y1) <= Abs(x2 - x1) {
      if x2 - x1 >= 0 {
        XConnected(x1, y1, x2, y2, i);
      } else {
        LineSymmetric(x1, y1, x2, y2);
        XConnected(x2, y2, x1, y1, i);
      }
    } else {
      if y2 - y1 >= 0 {
        YConnected(x1, y1, x2, y2, i);
      } else {
        LineSymmetric(x1, y1, x2, y2);
        YConnected(x2, y2, x1, y1, i);
      }
    }
  }

  /** LineConnected for an x-major line drawn left to right. */
  lemma XConnected(x1: int, y1: int, x2: int, y2: int, i: nat)
    requires Abs(y2 - y1) <= x2 - x1 && i < x2 - x1
    ensures var P := LinePoints(x1, y1, x2, y2);
      P[i + 1].0 == P[i].0 + 1 && Abs(P[i + 1].1 - P[i].1) <= 1
  {
    LinePointsOfX(x1, y1, x2, y2);
    WalkSteps(true, x1, y1, 2 * Abs(y2 - y1) - (x2 - x1), x2 - x1, x2 - x1, Abs(y2 - y1), MinorStep(x2 - x1, y2 - y1), i);
  }

  /** LineConnected for a y-major line drawn top to bottom. */
  lemma YConnected(x1: int, y1: int, x2: int, y2: int, i: nat)
    requires Abs(x2 - x1) < y2 - y1 && i < y2 - y1
    ensures var P := LinePoints(x1, y1, x2, y2);
      P[i + 1].1 == P[i].1 + 1 && Abs(P[i + 1].0 - P[i].0) <= 1
  {
    LinePointsOfY(x1, y1, x2, y2);
    WalkSteps(false, y1, x1, 2 * Abs(x2 - x1) - (y2 - y1), y2 - y1, y2 - y1, Abs(x2 - x1), MinorStep(y2 - y1, x2 - x1), i);
  }

  /** `b` follows `a` in a walk: one step along the major axis and at most one
      along the minor axis. */
  predicate Adjacent(xMajor: bool, a: Cell, b: Cell)
  {
    if xMajor then b.0 == a.0 + 1 && Abs(b.1 - a.1) <= 1
    else b.1 == a.1 + 1 && Abs(b.0 - a.0) <= 1
  }

  lemma {:induction false} WalkSteps(xMajor: bool, u: int, v: int, e: int, n: nat, du: int, dv: int, step: int, i: nat)
    requires step == 1 || step == -1
    requires i < n
    ensures var P := [Orient(xMajor, u, v)] + Walk(xMajor, u, v, e, n, du, dv, step);
      Adjacent(xMajor, P[i], P[i + 1])
    decreases n
  {
    var o := Orient(xMajor, u, v);
    var next := if MinorMove(xMajor, e) then (v + step, e + 2 * (dv - du)) else (v, e + 2 * dv);
    var rest := [Orient(xMajor, u + 1, next.0)] + Walk(xMajor, u + 1, next.0, next.1, n - 1, du, dv, step);
    assert Walk(xMajor, u, v, e, n, du, dv, step) == rest;
    if i > 0 {
      WalkSteps(xMajor, u + 1, next.0, next.1, n - 1, du, dv, step, i - 1);
      assert ([o] + rest)[i] == rest[i - 1] && ([o] + rest)[i + 1] == rest[i];
    }
  }

  /** With no minor difference the walk never leaves its row (or column). */
  lemma {:induction false} WalkStraight(xMajor: bool, u: int, v: int, e: int, n: nat, du: int, step: int)
    requires e < 0 && du >= 0
    ensures Cells([Orient(xMajor, u, v)] + Walk(xMajor, u, v, e, n, du, 0, step))
      == if xMajor then Row(u, u + n, v) else Column(v, u, u + n)
    decreases n
  {
    var o := Orient(xMajor, u, v);
    if n == 0 {
      if xMajor {
        assert Row(u, u, v) == {(u, v)} by {
          forall c | c in Row(u, u, v) ensures c == (u, v) { }
        }
      } else {
        assert Column(v, u, u) == {(v, u)} by {
          forall c | c in Column(v, u, u) ensures c == (v, u) { }
        }
      }
      assert Cells([o]) == {o};
    } else {
      var rest := Walk(xMajor, u + 1, v, e, n - 1, du, 0, step);
      WalkStraight(xMajor, u + 1, v, e, n - 1, du, step);
      assert [o] + Walk(xMajor, u, v, e, n, du, 0, step) == [o] + ([Orient(xMajor, u + 1, v)] + rest);
      CellsCons(o, [Orient(xMajor, u + 1, v)] + rest);
      if xMajor {
        RowStart(u, u + n, v);
      } else {
        ColumnFirst(v, u, u + n);
      }
    }
  }

  /** A non-empty row is its first cell and the rest. */
  lemma RowStart(lo: int, hi: int, y: int)
    requires lo <= hi
    ensures Row(lo, hi, y) == {(lo, y)} + Row(lo + 1, hi, y)
  {
    assert (lo, y) in Row(lo, hi, y);
  }

  /** A horizontal line paints the span between its ends. */
  lemma HorizontalLine(x1: int, x2: int, y: int)
    ensures Line(x1, y, x2, y) == Span(x1, x2, y)
  {
    var dx1: nat := Abs(x2 - x1);
    if dx1 == 0 {
      assert Line(x1, y, x2, y) == Cells([(x1, y)]);
      assert Span(x1, x2, y) == {(x1, y)} by {
        forall c | c in Span(x1, x2, y) ensures c == (x1, y) { }
      }
    } else {
      var s := if x2 - x1 >= 0 then (x1, y) else (x2, y);
      WalkStraight(true, s.0, s.1, -(dx1 as int), dx1, dx1, MinorStep(x2 - x1, 0));
    }
  }

  /** A vertical line paints the column between its ends. */
  lemma VerticalLine(x: int, y1: int, y2: int)
    ensures Line(x, y1, x, y2) == Column(x, Min(y1, y2), Max(y1, y2))
  {
    var dy1: nat := Abs(y2 - y1);
    if dy1 == 0 {
      assert Line(x, y1, x, y2) == Cells([(x, y1)]);
      assert Column(x, Min(y1, y2), Max(y1, y2)) == {(x, y1)} by {
        forall c | c in Column(x, Min(y1, y2), Max(y1, y2)) ensures c == (x, y1) { }
      }
    } else {
      var s := if y2 - y1 >= 0 then (x, y1) else (x, y2);
      WalkStraight(false, s.1, s.0, -(dy1 as int), dy1, dy1, MinorStep(0, y2 - y1));
    }
  }

  // ---- Circles (draw_circle) ---------------------------------------------------------

  /** The eight cells one iteration of `draw_circle` draws for offsets (x, y). */
  function Octants(xc: int, yc: int, x: int, y: int): set<Cell>
  {
    {(xc + x, yc + y), (xc + y, yc + x), (xc - y, yc + x), (xc - x, yc + y),
     (xc - x, yc - y), (xc - y, yc - x), (xc + y, yc - x), (xc + x, yc - y)}
  }

  /** The cells the loop of `draw_circle` draws from state (x, y, p) on. */
  function CircleCells(xc: int, yc: int, x: int, y: int, p: int): set<Cell>
    decreases if y >= x then y - x + 1 else 0
  {
    if y < x then {}
    else
      var next := CircleNext(x, y, p);
      Octants(xc, yc, x, y) + CircleCells(xc, yc, next.0, next.1, next.2)
  }

  /** The cells `draw_circle(xc, yc, r)` draws; radius 0 returns before the loop. */
  function Circle(xc: int, yc: int, r: int): set<Cell>
  {
    if r == 0 then {} else CircleCells(xc, yc, 0, r, 3 - 2 * r)
  }

  /** Mirror images of a cell about the vertical, the horizontal and the diagonal
      line through the centre. */
  function MirrorX(xc: int, c: Cell): Cell { (2 * xc - c.0, c.1) }
  function MirrorY(yc: int, c: Cell): Cell { (c.0, 2 * yc - c.1) }
  function MirrorDiagonal(xc: int, yc: int, c: Cell): Cell { (xc + (c.1 - yc), yc + (c.0 - xc)) }

  /** The state the loop of `draw_circle` moves to from (x, y, p). */
  function CircleNext(x: int, y: int, p: int): (int, int, int)
  {
    if p < 0 then (x + 1, y, p + 4 * x + 6) else (x + 1, y - 1, p + 4 * (x - (y - 1)) + 10)
  }

  lemma CircleCellsUnfold(xc: int, yc: int, x: int, y: int, p: int)
    requires x <= y
    ensures var next := CircleNext(x, y, p);
      CircleCells(xc, yc, x, y, p) == Octants(xc, yc, x, y) + CircleCells(xc, yc, next.0, next.1, next.2)
  {
  }

  lemma OctantsSymmetric(xc: int, yc: int, x: int, y: int, c: Cell)
    requires c in Octants(xc, yc, x, y)
    ensures MirrorX(xc, c) in Octants(xc, yc, x, y)
    ensures MirrorY(yc, c) in Octants(xc, yc, x, y)
    ensures MirrorDiagonal(xc, yc, c) in Octants(xc, yc, x, y)
  {
  }

  lemma {:induction false} CircleCellsSymmetric(xc: int, yc: int, x: int, y: int, p: int, c: Cell)
    requires c in CircleCells(xc, yc, x, y, p)
    ensures MirrorX(xc, c) in CircleCells(xc, yc, x, y, p)
    ensures MirrorY(yc, c) in CircleCells(xc, yc, x, y, p)
    ensures MirrorDiagonal(xc, yc, c) in CircleCells(xc, yc, x, y, p)
    decreases if y >= x then y - x + 1 else 0
  {
    var next := CircleNext(x, y, p);
    CircleCellsUnfold(xc, yc, x, y, p);
    if c in Octants(xc, yc, x, y) {
      OctantsSymmetric(xc, yc, x, y, c);
    } else {
      CircleCellsSymmetric(xc, yc, next.0, next.1, next.2, c);
    }
  }

  /** A drawn circle is symmetric about both axes and both diagonals through its
      centre (the diagonal mirror and the two axis mirrors generate them all). */
  lemma CircleSymmetric(xc: int, yc: int, r: int, c: Cell)
    requires c in Circle(xc, yc, r)
    ensures MirrorX(xc, c) in Circle(xc, yc, r)
    ensures MirrorY(yc, c) in Circle(xc, yc, r)
    ensures MirrorDiagonal(xc, yc, c) in Circle(xc, yc, r)
  {
    CircleCellsSymmetric(xc, yc, 0, r, 3 - 2 * r, c);
  }

  lemma {:induction false} CircleCellsBounded(xc: int, yc: int, x: int, y: int, p: int, r: int, c: Cell)
    requires 0 <= x && y <= r
    requires c in CircleCells(xc, yc, x, y, p)
    ensures Abs(c.0 - xc) <= r && Abs(c.1 - yc) <= r
    decreases if y >= x then y - x + 1 else 0
  {
    var next := CircleNext(x, y, p);
    CircleCellsUnfold(xc, yc, x, y, p);
    if c !in Octants(xc, yc, x, y) {
      CircleCellsBounded(xc, yc, next.0, next.1, next.2, r, c);
    }
  }

  /** Every cell of a circle lies in the square of half-side r around the centre. */
  lemma CircleBounded(xc: int, yc: int, r: int, c: Cell)
    requires c in Circle(xc, yc, r)
    ensures Abs(c.0 - xc) <= r && Abs(c.1 - yc) <= r
  {
    CircleCellsBounded(xc, yc, 0, r, 3 - 2 * r, r, c);
  }

  /** A circle of positive radius reaches the four axis points at distance r; a
      radius of zero or less draws nothing. */
  lemma CircleAxes(xc: int, yc: int, r: int)
    ensures r > 0 ==>
      (xc + r, yc) in Circle(xc, yc, r) && (xc - r, yc) in Circle(xc, yc, r) &&
      (xc, yc + r) in Circle(xc, yc, r) && (xc, yc - r) in Circle(xc, yc, r)
    ensures r <= 0 ==> Circle(xc, yc, r) == {}
  {
    if r > 0 {
      CircleCellsUnfold(xc, yc, 0, r, 3 - 2 * r);
    }
  }

  // ---- Filled triangles (fill_triangle) ------------------------------------------------

  /** `p` comes before `q` in the triple `r`. */
  predicate Precedes(r: (Cell, Cell, Cell), p: Cell, q: Cell)
  {
    (r.0 == p && (r.1 == q || r.2 == q)) || (r.1 == p && r.2 == q)
  }

  /** The points of `fill_triangle` after the stable `sort_by_key` on y: sorted by y,
      a permutation of the input, and points with equal y keep their input order. */
  function SortByY(a: Cell, b: Cell, c: Cell): (r: (Cell, Cell, Cell))
    ensures r.0.1 <= r.1.1 <= r.2.1
    ensures multiset{r.0, r.1, r.2} == multiset{a, b, c}
    ensures a.1 == b.1 ==> Precedes(r, a, b)
    ensures a.1 == c.1 ==> Precedes(r, a, c)
    ensures b.1 == c.1 ==> Precedes(r, b, c)
    ensures a.1 <= b.1 <= c.1 ==> r == (a, b, c)
  {
    if a.1 <= b.1 then
      if b.1 <= c.1 then (a, b, c) else if a.1 <= c.1 then (a, c, b) else (c, a, b)
    else
      if a.1 <= c.1 then (b, a, c) else if b.1 <= c.1 then (b, c, a) else (c, b, a)
  }

  const I32Min: int := -0x8000_0000
  const I32Max: int := 0x7fff_ffff

  predicate InI32(i: int) { I32Min <= i <= I32Max }

  /** `f32::round`: to the nearest integer, halfway cases away from zero. */
  function RoundHalfAway(r: real): (i: int)
    ensures r >= 0.0 ==> r - 0.5 < i as real <= r + 0.5
    ensures r < 0.0 ==> r - 0.5 <= i as real < r + 0.5
  {
    if r >= 0.0 then (r + 0.5).Floor else -((-r + 0.5).Floor)
  }

  /** The integer part of `r`, dropping the fraction towards zero. */
  function TruncTowardZero(r: real): (i: int)
    ensures r >= 0.0 ==> 0 <= i && i as real <= r < i as real + 1.0
    ensures r < 0.0 ==> i <= 0 && i as real - 1.0 < r <= i as real
  {
    if r >= 0.0 then r.Floor else -((-r).Floor)
  }

  /** An integer clamped to the `i32` range, as a float-to-int `as` cast clamps. */
  function SaturateI32(i: int): (r: int)
    ensures InI32(r)
    ensures InI32(i) ==> r == i
    ensures i < I32Min ==> r == I32Min
    ensures i > I32Max ==> r == I32Max
  {
    if i < I32Min then I32Min else if i > I32Max then I32Max else i
  }

  /** `r as i32` for a float `r`: truncation toward zero, then saturation. */
  function CastI32(r: real): int
  {
    SaturateI32(TruncTowardZero(r))
  }

  /** `r.round() as i32`. */
  function RoundI32(r: real): int
  {
    SaturateI32(RoundHalfAway(r))
  }

  /** An integer-valued real rounds and casts to that integer. */
  lemma CastsOfInteger(i: int)
    requires InI32(i)
    ensures RoundI32(i as real) == i && CastI32(i as real) == i
  {
  }

  /** The inverse slope (x per row) of the edge from (x0, y0) to (x1, y1); 0 for a
      horizontal edge. */
  function Slope(x0: int, y0: int, x1: int, y1: int): real
  {
    if y1 - y0 != 0 then (x1 - x0) as real / (y1 - y0) as real else 0.0
  }

  /** The x of the edge through (x0, y0) with inverse slope `slope` on row y. */
  function EdgeX(x0: int, y0: int, slope: real, y: int): real
  {
    x0 as real + slope * (y - y0) as real
  }

  /** An edge passes through both of its end points. */
  lemma EdgeThroughEnds(x0: int, y0: int, x1: int, y1: int)
    ensures EdgeX(x0, y0, Slope(x0, y0, x1, y1), y0) == x0 as real
    ensures y1 != y0 ==> EdgeX(x0, y0, Slope(x0, y0, x1, y1), y1) == x1 as real
  {
  }

  /** The spans of rows lo..hi that one loop of `fill_triangle` draws, between the
      edge through `a` with inverse slope `sa` and the edge through `b` with `sb`. */
  function Rows(a: Cell, sa: real, b: Cell, sb: real, lo: int, hi: int): set<Cell>
    decreases hi - lo
  {
    if hi < lo then {}
    else
      var first := Span(RoundI32(EdgeX(a.0, a.1, sa, lo)), RoundI32(EdgeX(b.0, b.1, sb, lo)), lo);
      first + Rows(a, sa, b, sb, lo + 1, hi)
  }

  /** The first row of a non-empty run of rows, then the rest, next to any other cells. */
  lemma RowsFirst(a: Cell, sa: real, b: Cell, sb: real, lo: int, hi: int, rest: set<Cell>)
    requires lo <= hi
    ensures Rows(a, sa, b, sb, lo, hi) + rest
         == Span(RoundI32(EdgeX(a.0, a.1, sa, lo)), RoundI32(EdgeX(b.0, b.1, sb, lo)), lo)
          + (Rows(a, sa, b, sb, lo + 1, hi) + rest)
  {
  }

  /** The cells `fill_triangle` paints for the points sorted by y: the upper loop
      between edges p1-p2 and p1-p3 over rows y1..y2, the lower one between edges
      p2-p3 and p1-p3 over rows y2..y3. */
  function SortedTriangleCells(p1: Cell, p2: Cell, p3: Cell): set<Cell>
  {
    var sa := Slope(p1.0, p1.1, p2.0, p2.1);
    var sb := Slope(p1.0, p1.1, p3.0, p3.1);
    var sc := Slope(p2.0, p2.1, p3.0, p3.1);
    Rows(p1, sa, p1, sb, p1.1, p2.1) + Rows(p2, sc, p1, sb, p2.1, p3.1)
  }

  /** The cells `fill_triangle(x1, y1, x2, y2, x3, y3)` paints. */
  function TriangleCells(x1: int, y1: int, x2: int, y2: int, x3: int, y3: int): set<Cell>
  {
    var (p1, p2, p3) := SortByY((x1, y1), (x2, y2), (x3, y3));
    SortedTriangleCells(p1, p2, p3)
  }

  lemma {:induction false} RowsWithin(a: Cell, sa: real, b: Cell, sb: real, lo: int, hi: int, c: Cell)
    requires c in Rows(a, sa, b, sb, lo, hi)
    ensures lo <= c.1 <= hi
    decreases hi - lo
  {
    var first := Span(RoundI32(EdgeX(a.0, a.1, sa, lo)), RoundI32(EdgeX(b.0, b.1, sb, lo)), lo);
    if c !in first {
      RowsWithin(a, sa, b, sb, lo + 1, hi, c);
    }
  }

  lemma {:induction false} RowsReach(a: Cell, sa: real, b: Cell, sb: real, lo: int, hi: int, y: int)
    requires lo <= y <= hi
    ensures (RoundI32(EdgeX(a.0, a.1, sa, y)), y) in Rows(a, sa, b, sb, lo, hi)
    ensures (RoundI32(EdgeX(b.0, b.1, sb, y)), y) in Rows(a, sa, b, sb, lo, hi)
    decreases hi - lo
  {
    if y == lo {
      SpanCells(RoundI32(EdgeX(a.0, a.1, sa, lo)), RoundI32(EdgeX(b.0, b.1, sb, lo)), lo, (0, 0));
    } else {
      RowsReach(a, sa, b, sb, lo + 1, hi, y);
    }
  }

  /** A filled triangle only writes rows between its lowest and highest vertex. */
  lemma TriangleRowsWithin(x1: int, y1: int, x2: int, y2: int, x3: int, y3: int, c: Cell)
    requires c in TriangleCells(x1, y1, x2, y2, x3, y3)
    ensures Min(y1, Min(y2, y3)) <= c.1 <= Max(y1, Max(y2, y3))
  {
    var (p1, p2, p3) := SortByY((x1, y1), (x2, y2), (x3, y3));
    assert p1 in multiset{(x1, y1), (x2, y2), (x3, y3)};
    assert p3 in multiset{(x1, y1), (x2, y2), (x3, y3)};
    var sa := Slope(p1.0, p1.1, p2.0, p2.1);
    var sb := Slope(p1.0, p1.1, p3.0, p3.1);
    var sc := Slope(p2.0, p2.1, p3.0, p3.1);
    if c in Rows(p1, sa, p1, sb, p1.1, p2.1) {
      RowsWithin(p1, sa, p1, sb, p1.1, p2.1, c);
    } else {
      RowsWithin(p2, sc, p1, sb, p2.1, p3.1, c);
    }
  }

  /** Every row from the top to the bottom vertex gets the cell of the long edge
      p1-p3, so a filled triangle has no empty row. */
  lemma TriangleRowsCovered(p1: Cell, p2: Cell, p3: Cell, y: int)
    requires p1.1 <= p2.1 <= p3.1 && p1.1 <= y <= p3.1
    ensures (RoundI32(EdgeX(p1.0, p1.1, Slope(p1.0, p1.1, p3.0, p3.1), y)), y) in SortedTriangleCells(p1, p2, p3)
  {
    var sa := Slope(p1.0, p1.1, p2.0, p2.1);
    var sb := Slope(p1.0, p1.1, p3.0, p3.1);
    var sc := Slope(p2.0, p2.1, p3.0, p3.1);
    if y <= p2.1 {
      RowsReach(p1, sa, p1, sb, p1.1, p2.1, y);
    } else {
      RowsReach(p2, sc, p1, sb, p2.1, p3.1, y);
    }
  }

  /** The top and middle vertices are always painted, and the bottom one too unless
      all three lie on one row. */
  lemma TriangleVertices(p1: Cell, p2: Cell, p3: Cell)
    requires p1.1 <= p2.1 <= p3.1
    requires InI32(p1.0) && InI32(p2.0) && InI32(p3.0)
    ensures p1 in SortedTriangleCells(p1, p2, p3)
    ensures p2 in SortedTriangleCells(p1, p2, p3)
    ensures p1.1 != p3.1 ==> p3 in SortedTriangleCells(p1, p2, p3)
  {
    var sa := Slope(p1.0, p1.1, p2.0, p2.1);
    var sb := Slope(p1.0, p1.1, p3.0, p3.1);
    var sc := Slope(p2.0, p2.1, p3.0, p3.1);
    EdgeThroughEnds(p1.0, p1.1, p2.0, p2.1);
    EdgeThroughEnds(p1.0, p1.1, p3.0, p3.1);
    EdgeThroughEnds(p2.0, p2.1, p3.0, p3.1);
    CastsOfInteger(p1.0);
    CastsOfInteger(p2.0);
    CastsOfInteger(p3.0);
    RowsReach(p1, sa, p1, sb, p1.1, p2.1, p1.1);
    RowsReach(p2, sc, p1, sb, p2.1, p3.1, p2.1);
    if p1.1 != p3.1 {
      RowsReach(p2, sc, p1, sb, p2.1, p3.1, p3.1);
    }
  }

  /** On one row, only the span between the first two vertices is painted: the
      flat triangle (0, 0), (1, 0), (5, 0) leaves its third vertex out. */
  lemma FlatTriangle()
    ensures (5, 0) !in TriangleCells(0, 0, 1, 0, 5, 0)
    ensures TriangleCells(0, 0, 1, 0, 5, 0) == Span(0, 1, 0)
  {
    var p1, p2, p3 := (0, 0), (1, 0), (5, 0);
    assert Rows(p1, 0.0, p1, 0.0, 0, 0) == Span(0, 0, 0) + Rows(p1, 0.0, p1, 0.0, 1, 0);
    assert Rows(p2, 0.0, p1, 0.0, 0, 0) == Span(1, 0, 0) + Rows(p2, 0.0, p1, 0.0, 1, 0);
    SpanCells(0, 1, 0, (5, 0));
    assert Span(0, 0, 0) <= Span(0, 1, 0) by {
      forall c | c in Span(0, 0, 0) ensures c in Span(0, 1, 0) {
        SpanCells(0, 0, 0, c);
        SpanCells(0, 1, 0, c);
      }
    }
    assert Span(1, 0, 0) == Span(0, 1, 0) by { SpanCells(1, 0, 0, (0, 0)); }
  }

  // ---- Shading (get_color) ------------------------------------------------------------

  /** The 13 grey levels of `get_color`, darkest first. */
  const Palette: seq<Color> := [
    0x000000, 0x151515, 0x2a2a2a, 0x3f3f3f, 0x555555, 0x6a6a6a, 0x7f7f7f,
    0x949494, 0xaaaaaa, 0xbfbfbf, 0xd4d4d4, 0xe9e9e9, 0xffffff]

  /** The palette entry for index `i`, black for any index outside 0..12. */
  function ColorOfIndex(i: int): Color
  {
    if 0 <= i < |Palette| then Palette[i] else 0x000000
  }

  /** `get_color(lum)` as written: the index is `(13.0 * lum) as i32`. */
  function GetColor(lum: real): Color
  {
    ColorOfIndex(CastI32(13.0 * lum))
  }

  /** A colour whose red, green and blue bytes are equal. */
  predicate IsGrey(c: Color)
  {
    c / 0x10000 == (c / 0x100) % 0x100 == c % 0x100
  }

  /** The palette is a strictly increasing sequence of greys. */
  lemma PaletteGreys(i: int, j: int)
    requires 0 <= i < j < |Palette|
    ensures Palette[i] < Palette[j]
    ensures IsGrey(Palette[i]) && IsGrey(Palette[j])
  {
  }

  /** An intensity in [0, 1) picks palette entry floor(13 * lum). */
  lemma GetColorBand(lum: real)
    requires 0.0 <= lum < 1.0
    ensures 0 <= (13.0 * lum).Floor < |Palette|
    ensures GetColor(lum) == Palette[(13.0 * lum).Floor]
  {
  }

  /** Brighter intensities in [0, 1) never give a darker grey. */
  lemma GetColorMonotone(l1: real, l2: real)
    requires 0.0 <= l1 <= l2 < 1.0
    ensures GetColor(l1) <= GetColor(l2)
  {
    GetColorBand(l1);
    GetColorBand(l2);
    var i, j := (13.0 * l1).Floor, (13.0 * l2).Floor;
    if i < j {
      PaletteGreys(i, j);
    }
  }

  /** The frame update passes at least 0.1, which never maps to black below 1. */
  lemma GetColorLit(lum: real)
    requires 0.1 <= lum < 1.0
    ensures GetColor(lum) >= 0x151515
  {
    GetColorBand(lum);
    GetColorBand(0.1);
    GetColorMonotone(0.1, lum);
  }

  /** As written, full intensity falls off the palette and is drawn black, as is
      every intensity from 1 up to 14/13 and above. */
  lemma GetColorFullIntensityIsBlack(lum: real)
    requires lum >= 1.0
    ensures GetColor(1.0) == 0x000000
    ensures GetColor(lum) == 0x000000
  {
  }

  /** The palette lookup with the index clamped to 12, so that full intensity is
      white. */
  function GetColorClamped(lum: real): Color
  {
    ColorOfIndex(Min(CastI32(13.0 * lum), |Palette| - 1))
  }

  /** The clamped lookup agrees with `get_color` below 1, is white from 12/13 on,
      and never gets darker as the intensity grows past 0. */
  lemma GetColorClampedIntended(l1: real, l2: real)
    requires 0.0 <= l1 <= l2
    ensures l1 < 1.0 ==> GetColorClamped(l1) == GetColor(l1)
    ensures GetColorClamped(1.0) == 0xffffff
    ensures l1 >= 12.0 / 13.0 ==> GetColorClamped(l1) == 0xffffff
    ensures GetColorClamped(l1) <= GetColorClamped(l2)
  {
    var i, j := Min(CastI32(13.0 * l1), 12), Min(CastI32(13.0 * l2), 12);
    assert 0 <= i <= j <= 12;
    if i < j {
      PaletteGreys(i, j);
    }
  }
}
