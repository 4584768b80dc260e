/** The canvas buffer as a value: `height` rows of `width` colour bytes,
    indexed [row][column] like the source's `byte[,] canvas`, and the
    effect of a sequence of PutPixel calls on it. */
module Pixels {
  import opened Base
  import opened Raster

  type Grid = seq<seq<byte>>

  /** A grid of h rows of w cells each. */
  predicate Shaped(g: Grid, h: int, w: int) {
    |g| == h && forall i :: 0 <= i < |g| ==> |g[i]| == w
  }

  /** A grid with every cell black (colour 0), as BeginDraw leaves it. */
  predicate Blank(g: Grid) {
    forall i, j :: 0 <= i < |g| && 0 <= j < |g[i]| ==> g[i][j] == 0
  }

  /** One PutPixel call while drawing: the cell at column p.0, row p.1
      takes colour c when both coordinates are in range (the InBounds
      tests of Canvas.cs:162); a position outside the buffer is dropped. */
  function PaintAt(g: Grid, p: Point, c: byte): Grid
  {
    var (x, y) := p;
    if 0 <= y < |g| && 0 <= x < |g[y]| then g[y := g[y][x := c]] else g
  }

  /** PaintAt changes the one cell it names, if it exists, and nothing else. */
  lemma PaintAtCells(g: Grid, p: Point, c: byte)
    ensures |PaintAt(g, p, c)| == |g|
    ensures forall i :: 0 <= i < |g| ==> |PaintAt(g, p, c)[i]| == |g[i]|
    ensures forall i, j :: 0 <= i < |g| && 0 <= j < |g[i]| ==>
      PaintAt(g, p, c)[i][j] == if (j, i) == p then c else g[i][j]
  {
  }

  /** A sequence of PutPixel calls in colour c, in order. */
  function Paint(g: Grid, ps: seq<Point>, c: byte): Grid
    decreases |ps|
  {
    if ps == [] then g else PaintAt(Paint(g, ps[..|ps| - 1], c), ps[|ps| - 1], c)
  }

  /** After the calls, a cell has colour c exactly when one of the calls
      named it, and keeps its colour otherwise; the shape never changes. */
  lemma {:induction false} PaintCells(g: Grid, ps: seq<Point>, c: byte)
    ensures |Paint(g, ps, c)| == |g|
    ensures forall i :: 0 <= i < |g| ==> |Paint(g, ps, c)[i]| == |g[i]|
    ensures forall i, j :: 0 <= i < |g| && 0 <= j < |g[i]| ==>
      Paint(g, ps, c)[i][j] == if (j, i) in ps then c else g[i][j]
    decreases |ps|
  {
    if ps != [] {
      var init := ps[..|ps| - 1];
      PaintCells(g, init, c);
      PaintAtCells(Paint(g, init, c), ps[|ps| - 1], c);
      assert ps == init + [ps[|ps| - 1]];
      forall i, j | 0 <= i < |g| && 0 <= j < |g[i]|
        ensures Paint(g, ps, c)[i][j] == if (j, i) in ps then c else g[i][j]
      {
        assert (j, i) in ps <==> (j, i) in init || (j, i) == ps[|ps| - 1];
      }
    }
  }

  /** One more call at the end is one more PaintAt. */
  lemma PaintSnoc(g: Grid, ps: seq<Point>, p: Point, c: byte)
    ensures Paint(g, ps + [p], c) == PaintAt(Paint(g, ps, c), p, c)
  {
    assert (ps + [p])[..|ps + [p]| - 1] == ps;
  }

  /** Two more calls at the end are two more PaintAt, in order. */
  lemma PaintSnocPair(g: Grid, ps: seq<Point>, p: Point, q: Point, c: byte)
    ensures Paint(g, ps + [p, q], c) == PaintAt(PaintAt(Paint(g, ps, c), p, c), q, c)
  {
    assert ps + [p, q] == (ps + [p]) + [q];
    PaintSnoc(g, ps + [p], q, c);
    PaintSnoc(g, ps, p, c);
  }

  /** A call that may or may not be made. */
  lemma PaintMaybe(g: Grid, ps: seq<Point>, p: Point, made: bool, c: byte)
    ensures Paint(g, ps + (if made then [p] else []), c) == if made then PaintAt(Paint(g, ps, c), p, c) else Paint(g, ps, c)
  {
    if made {
      PaintSnoc(g, ps, p, c);
    } else {
      assert ps + [] == ps;
    }
  }

  /** Painting one more element of a run of calls ps[lo..i]. */
  lemma PaintSliceStep(g: Grid, ps: seq<Point>, lo: int, i: int, c: byte)
    requires 0 <= lo <= i < |ps|
    ensures Paint(g, ps[lo..i + 1], c) == PaintAt(Paint(g, ps[lo..i], c), ps[i], c)
  {
    assert ps[lo..i + 1] == ps[lo..i] + [ps[i]];
    PaintSnoc(g, ps[lo..i], ps[i], c);
  }

  // The loop steps of the shape routines: the grid after one more pass
  // of a loop is the grid of the calls that pass adds.

  lemma PaintSidesStep(g0: Grid, g: Grid, g': Grid, x: int, y: int, w: int, n: int, c: byte)
    requires n >= 0 && g == Paint(g0, SidePairs(x, y, w, n), c)
    requires g' == PaintAt(PaintAt(g, (x, y + n), c), (x + w - 1, y + n), c)
    ensures g' == Paint(g0, SidePairs(x, y, w, n + 1), c)
  {
    SidePairsSnoc(x, y, w, n);
    PaintSnocPair(g0, SidePairs(x, y, w, n), (x, y + n), (x + w - 1, y + n), c);
  }

  lemma PaintEdgesStep(g0: Grid, g: Grid, g': Grid, x: int, y: int, h: int, n: int, c: byte)
    requires n >= 0 && g == Paint(g0, EdgePairs(x, y, h, n), c)
    requires g' == PaintAt(PaintAt(g, (x + n, y), c), (x + n, y + h - 1), c)
    ensures g' == Paint(g0, EdgePairs(x, y, h, n + 1), c)
  {
    EdgePairsSnoc(x, y, h, n);
    PaintSnocPair(g0, EdgePairs(x, y, h, n), (x + n, y), (x + n, y + h - 1), c);
  }

  lemma PaintRunStep(g0: Grid, g: Grid, g': Grid, x: int, row: int, n: int, c: byte)
    requires n >= 0 && g == Paint(g0, RowRun(x, row, n), c)
    requires g' == PaintAt(g, (x + n, row), c)
    ensures g' == Paint(g0, RowRun(x, row, n + 1), c)
  {
    RowRunSnoc(x, row, n);
    PaintSnoc(g0, RowRun(x, row, n), (x + n, row), c);
  }

  lemma PaintBoxStep(g0: Grid, g: Grid, g': Grid, x: int, y: int, w: int, n: int, c: byte)
    requires n >= 0 && g == Paint(g0, BoxOrder(x, y, w, n), c)
    requires g' == Paint(g, RowRun(x, y + n, w), c)
    ensures g' == Paint(g0, BoxOrder(x, y, w, n + 1), c)
  {
    BoxOrderSnoc(x, y, w, n);
    PaintAppend(g0, BoxOrder(x, y, w, n), RowRun(x, y + n, w), c);
  }

  lemma PaintColumnStep(g0: Grid, g: Grid, g': Grid, cx: int, cy: int, px: int, b: int, n: int,
                        inside: (int, int) -> bool, c: byte)
    requires n >= 0 && g == Paint(g0, ColumnScan(cx, cy, px, b, n, inside), c)
    requires g' == if inside(px, -b + n) then PaintAt(g, (px + cx, -b + n + cy), c) else g
    ensures g' == Paint(g0, ColumnScan(cx, cy, px, b, n + 1, inside), c)
  {
    ColumnScanSnoc(cx, cy, px, b, n, inside);
    PaintMaybe(g0, ColumnScan(cx, cy, px, b, n, inside), (px + cx, -b + n + cy), inside(px, -b + n), c);
  }

  lemma PaintEllipseStep(g0: Grid, g: Grid, g': Grid, cx: int, cy: int, a: int, b: int, n: int,
                         inside: (int, int) -> bool, c: byte)
    requires n >= 0 && g == Paint(g0, EllipseScan(cx, cy, a, b, n, inside), c)
    requires g' == Paint(g, ColumnScan(cx, cy, -a + n, b, 2 * b, inside), c)
    ensures g' == Paint(g0, EllipseScan(cx, cy, a, b, n + 1, inside), c)
  {
    EllipseScanSnoc(cx, cy, a, b, n, inside);
    PaintAppend(g0, EllipseScan(cx, cy, a, b, n, inside), ColumnScan(cx, cy, -a + n, b, 2 * b, inside), c);
  }

  /** Two grids of the same shape that agree on every cell are equal. */
  lemma GridEqual(a: Grid, b: Grid)
    requires |a| == |b| && forall i :: 0 <= i < |a| ==> |a[i]| == |b[i]|
    requires forall i, j :: 0 <= i < |a| && 0 <= j < |a[i]| ==> a[i][j] == b[i][j]
    ensures a == b
  {
    forall i | 0 <= i < |a|
      ensures a[i] == b[i]
    {
      assert forall j :: 0 <= j < |a[i]| ==> a[i][j] == b[i][j];
    }
  }

  /** The buffer depends only on which cells the calls name, not on their
      order or repetition: every call writes the same colour. */
  lemma PaintSameCells(g: Grid, ps: seq<Point>, qs: seq<Point>, c: byte)
    requires forall p :: p in ps <==> p in qs
    ensures Paint(g, ps, c) == Paint(g, qs, c)
  {
    PaintCells(g, ps, c);
    PaintCells(g, qs, c);
    GridEqual(Paint(g, ps, c), Paint(g, qs, c));
  }

  /** Running the calls ps and then qs is running ps + qs. */
  lemma {:induction false} PaintAppend(g: Grid, ps: seq<Point>, qs: seq<Point>, c: byte)
    ensures Paint(g, ps + qs, c) == Paint(Paint(g, ps, c), qs, c)
    decreases |qs|
  {
    if qs == [] {
      assert ps + qs == ps;
    } else {
      var init := qs[..|qs| - 1];
      var last := qs[|qs| - 1];
      assert qs == init + [last];
      assert ps + qs == (ps + init) + [last];
      PaintAppend(g, ps, init, c);
      PaintSnoc(g, ps + init, last, c);
      PaintSnoc(Paint(g, ps, c), init, last, c);
    }
  }

  /** Drawing the same shape twice in the same colour is drawing it once. */
  lemma PaintIdempotent(g: Grid, ps: seq<Point>, c: byte)
    ensures Paint(Paint(g, ps, c), ps, c) == Paint(g, ps, c)
  {
    PaintAppend(g, ps, ps, c);
    PaintSameCells(g, ps + ps, ps, c);
  }

  /** After FillRect a cell has the pen colour exactly when it lies in the
      box, and keeps its colour otherwise. */
  lemma FillRectEffect(g: Grid, x: int, y: int, w: int, h: int, c: byte)
    ensures |Paint(g, BoxOrder(x, y, w, h), c)| == |g|
    ensures forall i :: 0 <= i < |g| ==> |Paint(g, BoxOrder(x, y, w, h), c)[i]| == |g[i]|
    ensures forall i, j :: 0 <= i < |g| && 0 <= j < |g[i]| ==>
      Paint(g, BoxOrder(x, y, w, h), c)[i][j] == if InBox(x, y, w, h, j, i) then c else g[i][j]
  {
    PaintCells(g, BoxOrder(x, y, w, h), c);
    BoxOrderCells(x, y, w, h);
  }

  /** After StrokeRect a cell has the pen colour exactly when it lies on
      the outline its loops reach, and keeps its colour otherwise. */
  lemma StrokeRectEffect(g: Grid, x: int, y: int, w: int, h: int, c: byte)
    ensures |Paint(g, OutlineOrder(x, y, w, h), c)| == |g|
    ensures forall i :: 0 <= i < |g| ==> |Paint(g, OutlineOrder(x, y, w, h), c)[i]| == |g[i]|
    ensures forall i, j :: 0 <= i < |g| && 0 <= j < |g[i]| ==>
      Paint(g, OutlineOrder(x, y, w, h), c)[i][j] == if OnOutline(x, y, w, h, j, i) then c else g[i][j]
  {
    PaintCells(g, OutlineOrder(x, y, w, h), c);
    OutlineOrderCells(x, y, w, h);
  }

  /** After FillEllipse a cell has the pen colour exactly when its offset
      from the centre lies in [-a, a) x [-b, b) and passes the inclusion
      test, and keeps its colour otherwise. */
  lemma FillEllipseEffect(g: Grid, cx: int, cy: int, a: int, b: int, inside: (int, int) -> bool, c: byte)
    ensures |Paint(g, EllipseScan(cx, cy, a, b, 2 * a, inside), c)| == |g|
    ensures forall i :: 0 <= i < |g| ==> |Paint(g, EllipseScan(cx, cy, a, b, 2 * a, inside), c)[i]| == |g[i]|
    ensures forall i, j :: 0 <= i < |g| && 0 <= j < |g[i]| ==>
      Paint(g, EllipseScan(cx, cy, a, b, 2 * a, inside), c)[i][j]
        == if EllipseCovers(cx, cy, a, b, inside, j, i) then c else g[i][j]
  {
    PaintCells(g, EllipseScan(cx, cy, a, b, 2 * a, inside), c);
    EllipseFillCells(cx, cy, a, b, inside);
  }
}
