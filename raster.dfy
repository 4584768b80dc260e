/** The pixel sets and orders of the canvas's shape algorithms, stated as
    values: the sequence of positions each algorithm hands to PutPixel.
    The canvas methods are proved to issue exactly these calls. */
module Raster {

  /** A pixel position as PutPixel takes it: (x, y), column then row. */
  type Point = (int, int)

  function Abs(n: int): nat {
    if n < 0 then -n else n
  }

  /** The step direction from `from` towards `to` (`sx`, `sy` in the
      source): +1 when `to` is not below `from`, else -1. */
  function Dir(from: int, to: int): int {
    if to >= from then 1 else -1
  }

  /** n steps from `from` in the direction of `to`. */
  function Toward(from: int, to: int, n: int): (r: int)
    ensures r == from + Dir(from, to) * n
  {
    if to >= from then from + n else from - n
  }

  // ---------------------------------------------------------------------
  // Lines

  /** n/m rounded to the nearest integer, halves rounded down; 0 when m is 0.
      Bresenham's decision variable keeps the minor coordinate at exactly
      this rounding of the ideal line. */
  function Nearest(n: nat, m: nat): (k: nat)
    ensures m > 0 ==> 2 * m * k <= 2 * n + m - 1 < 2 * m * (k + 1)
  {
    if m == 0 then 0 else NearestBounds(n, m); (2 * n + m - 1) / (2 * m)
  }

  lemma NearestBounds(n: nat, m: nat)
    requires m > 0
    ensures var k := (2 * n + m - 1) / (2 * m);
      k >= 0 && 2 * m * k <= 2 * n + m - 1 < 2 * m * (k + 1)
  {
    var a, d := 2 * n + m - 1, 2 * m;
    var k, r := a / d, a % d;
    assert a == d * k + r && 0 <= r < d;
    assert 2 * m * (k + 1) == d * k + d;
  }

  lemma MulLess(m: int, a: int, b: int)
    requires m > 0 && m * a < m * b
    ensures a < b
  {
    assert m * (b - a) == m * b - m * a > 0;
  }

  /** The bounds of Nearest determine it. */
  lemma NearestUnique(n: nat, m: nat, k: int)
    requires m > 0
    requires 2 * m * k <= 2 * n + m - 1 < 2 * m * (k + 1)
    ensures Nearest(n, m) == k
  {
    var q := Nearest(n, m);
    MulLess(2 * m, q, k + 1);
    MulLess(2 * m, k, q + 1);
  }

  /** The number of steps of a line: the length of its driving axis. */
  function LineSteps(x0: int, y0: int, x1: int, y1: int): nat {
    var dx, dy := Abs(x1 - x0), Abs(y1 - y0);
    if dy <= dx then dx else dy
  }

  /** The i-th pixel of the line from (x0, y0) to (x1, y1): the driving
      axis (x when dy <= dx, else y) advances i steps, the other axis by
      i*minor/major rounded to the nearest integer, halves towards the start. */
  function LinePoint(x0: int, y0: int, x1: int, y1: int, i: nat): Point {
    var dx, dy := Abs(x1 - x0), Abs(y1 - y0);
    if dy <= dx then (Toward(x0, x1, i), Toward(y0, y1, Nearest(i * dy, dx)))
    else (Toward(x0, x1, Nearest(i * dx, dy)), Toward(y0, y1, i))
  }

  /** The pixels StrokeLine hands to PutPixel, in order. */
  function LinePoints(x0: int, y0: int, x1: int, y1: int): seq<Point> {
    seq(LineSteps(x0, y0, x1, y1) + 1, i requires 0 <= i => LinePoint(x0, y0, x1, y1, i))
  }

  /** A line has max(|dx|, |dy|) + 1 pixels and runs from its start to its end. */
  lemma LineEndpoints(x0: int, y0: int, x1: int, y1: int)
    ensures var ps := LinePoints(x0, y0, x1, y1);
      && |ps| == (if Abs(y1 - y0) <= Abs(x1 - x0) then Abs(x1 - x0) else Abs(y1 - y0)) + 1
      && ps[0] == (x0, y0)
      && ps[|ps| - 1] == (x1, y1)
  {
    var ps := LinePoints(x0, y0, x1, y1);
    LineStart(x0, y0, x1, y1);
    assert ps[0] == LinePoint(x0, y0, x1, y1, 0);
    LineEnd(x0, y0, x1, y1);
    assert ps[|ps| - 1] == LinePoint(x0, y0, x1, y1, LineSteps(x0, y0, x1, y1));
  }

  lemma LineStart(x0: int, y0: int, x1: int, y1: int)
    ensures LinePoint(x0, y0, x1, y1, 0) == (x0, y0)
  {
    var dx, dy := Abs(x1 - x0), Abs(y1 - y0);
    if dx > 0 {
      NearestOfMultiple(0, dx);
    }
    if dy > 0 {
      NearestOfMultiple(0, dy);
    }
  }

  lemma LineEnd(x0: int, y0: int, x1: int, y1: int)
    ensures LinePoint(x0, y0, x1, y1, LineSteps(x0, y0, x1, y1)) == (x1, y1)
  {
    var dx, dy := Abs(x1 - x0), Abs(y1 - y0);
    var sx, sy := Dir(x0, x1), Dir(y0, y1);
    assert x0 + sx * dx == x1 && y0 + sy * dy == y1;
    if dy <= dx {
      if dx > 0 {
        NearestOfMultiple(dy, dx);
        assert dx * dy == dy * dx;
      }
    } else {
      NearestOfMultiple(dx, dy);
      assert dy * dx == dx * dy;
    }
  }

  lemma NearestOfMultiple(q: nat, m: nat)
    requires m > 0
    ensures Nearest(q * m, m) == q
  {
    assert 2 * m * q <= 2 * (q * m) + m - 1 < 2 * m * (q + 1);
    NearestUnique(q * m, m, q);
  }

  /** From one step to the next the rounded minor coordinate grows by 0 or 1. */
  lemma NearestStep(i: nat, minor: nat, major: nat)
    requires minor <= major && major > 0
    ensures Nearest((i + 1) * minor, major) - Nearest(i * minor, major) in {0, 1}
  {
    var k, k' := Nearest(i * minor, major), Nearest((i + 1) * minor, major);
    assert (i + 1) * minor == i * minor + minor;
    MulLess(2 * major, k, k' + 1);
    MulLess(2 * major, k', k + 2);
  }

  /** Bresenham's decision rule. With k the minor offset of step i - 1 and
      d = 2*minor*i - major - 2*major*k the decision variable at step i,
      the minor offset of step i is k + 1 when d > 0 and k otherwise. */
  lemma BresenhamStep(minor: nat, major: nat, i: nat, k: nat)
    requires 0 < major && minor <= major && 1 <= i
    requires k == Nearest((i - 1) * minor, major)
    ensures Nearest(i * minor, major) == if 2 * minor * i - major - 2 * major * k > 0 then k + 1 else k
  {
    var n := (i - 1) * minor;
    assert i * minor == n + minor;
    assert 2 * major * (k + 1) == 2 * major * k + 2 * major;
    assert 2 * minor * i == 2 * n + 2 * minor;
    if 2 * minor * i - major - 2 * major * k > 0 {
      assert 2 * major * (k + 2) == 2 * major * k + 4 * major;
      NearestUnique(i * minor, major, k + 1);
    } else {
      NearestUnique(i * minor, major, k);
    }
  }

  /** The state of StrokeLine's loop when x drives (dy <= dx), before
      step i: x is already the column of step i, y is still the row of
      step i - 1 (minor offset k), and d is the decision variable for
      step i. */
  predicate AlongX(x0: int, y0: int, x1: int, y1: int, i: int, k: int, x: int, y: int, d: int) {
    var dx, dy := Abs(x1 - x0), Abs(y1 - y0);
    && 1 <= i && k == Nearest((i - 1) * dy, dx)
    && x == Toward(x0, x1, i) && y == Toward(y0, y1, k)
    && d == 2 * dy * i - dx - 2 * dx * k
  }

  /** The loop's first state: one step along x, the start row, d = 2dy - dx. */
  lemma AlongXStart(x0: int, y0: int, x1: int, y1: int)
    ensures AlongX(x0, y0, x1, y1, 1, 0, x0 + Dir(x0, x1), y0, 2 * Abs(y1 - y0) - Abs(x1 - x0))
  {
    if x1 != x0 {
      NearestOfMultiple(0, Abs(x1 - x0));
    }
  }

  /** One pass of the loop body: the row steps exactly when d > 0, d moves
      by 2(dy - dx) or 2dy, and the pixel written is the line's step i. */
  lemma AlongXStep(x0: int, y0: int, x1: int, y1: int, i: int, k: int, x: int, y: int, d: int,
                   k': int, y': int, d': int)
    requires Abs(y1 - y0) <= Abs(x1 - x0) && i <= Abs(x1 - x0)
    requires AlongX(x0, y0, x1, y1, i, k, x, y, d)
    requires d > 0 ==> k' == k + 1 && y' == y + Dir(y0, y1) && d' == d + 2 * (Abs(y1 - y0) - Abs(x1 - x0))
    requires d <= 0 ==> k' == k && y' == y && d' == d + 2 * Abs(y1 - y0)
    ensures LinePoint(x0, y0, x1, y1, i) == (x, y')
    ensures AlongX(x0, y0, x1, y1, i + 1, k', x + Dir(x0, x1), y', d')
  {
    var dx, dy := Abs(x1 - x0), Abs(y1 - y0);
    BresenhamStep(dy, dx, i, k);
    DecisionUpdate(dy, dx, i, k, d);
  }

  /** The state of StrokeLine's loop when y drives (dx < dy), before step i. */
  predicate AlongY(x0: int, y0: int, x1: int, y1: int, i: int, k: int, x: int, y: int, d: int) {
    var dx, dy := Abs(x1 - x0), Abs(y1 - y0);
    && 1 <= i && k == Nearest((i - 1) * dx, dy)
    && y == Toward(y0, y1, i) && x == Toward(x0, x1, k)
    && d == 2 * dx * i - dy - 2 * dy * k
  }

  lemma AlongYStart(x0: int, y0: int, x1: int, y1: int)
    ensures AlongY(x0, y0, x1, y1, 1, 0, x0, y0 + Dir(y0, y1), 2 * Abs(x1 - x0) - Abs(y1 - y0))
  {
    if y1 != y0 {
      NearestOfMultiple(0, Abs(y1 - y0));
    }
  }

  lemma AlongYStep(x0: int, y0: int, x1: int, y1: int, i: int, k: int, x: int, y: int, d: int,
                   k': int, x': int, d': int)
    requires Abs(x1 - x0) < Abs(y1 - y0) && i <= Abs(y1 - y0)
    requires AlongY(x0, y0, x1, y1, i, k, x, y, d)
    requires d > 0 ==> k' == k + 1 && x' == x + Dir(x0, x1) && d' == d + 2 * (Abs(x1 - x0) - Abs(y1 - y0))
    requires d <= 0 ==> k' == k && x' == x && d' == d + 2 * Abs(x1 - x0)
    ensures LinePoint(x0, y0, x1, y1, i) == (x', y)
    ensures AlongY(x0, y0, x1, y1, i + 1, k', x', y + Dir(y0, y1), d')
  {
    var dx, dy := Abs(x1 - x0), Abs(y1 - y0);
    BresenhamStep(dx, dy, i, k);
    DecisionUpdate(dx, dy, i, k, d);
  }

  lemma MulSucc(s: int, a: int)
    ensures s * (a + 1) == s * a + s
  {
  }

  /** The decision variable's update keeps it at 2*minor*i - major - 2*major*k. */
  lemma DecisionUpdate(minor: int, major: int, i: int, k: int, d: int)
    requires d == 2 * minor * i - major - 2 * major * k
    ensures d + (if d > 0 then 2 * (minor - major) else 2 * minor)
            == 2 * minor * (i + 1) - major - 2 * major * (if d > 0 then k + 1 else k)
  {
    assert 2 * minor * (i + 1) == 2 * minor * i + 2 * minor;
    assert 2 * major * (k + 1) == 2 * major * k + 2 * major;
  }

  /** Each step moves the driving axis by exactly one step of its sign and
      the other axis by 0 or one step of its sign, so the line is
      8-connected. */
  lemma LineStep(x0: int, y0: int, x1: int, y1: int, i: nat)
    requires i < LineSteps(x0, y0, x1, y1)
    ensures var p, q := LinePoint(x0, y0, x1, y1, i), LinePoint(x0, y0, x1, y1, i + 1);
      if Abs(y1 - y0) <= Abs(x1 - x0) then
        q.0 - p.0 == Dir(x0, x1) && q.1 - p.1 in {0, Dir(y0, y1)}
      else
        q.1 - p.1 == Dir(y0, y1) && q.0 - p.0 in {0, Dir(x0, x1)}
  {
    var dx, dy := Abs(x1 - x0), Abs(y1 - y0);
    if dy <= dx {
      NearestStep(i, dy, dx);
    } else {
      NearestStep(i, dx, dy);
    }
  }

  /** The line is not symmetric: Bresenham's tie rule rounds halves towards
      the start, so (0,0)-(2,1) and (2,1)-(0,0) differ in their middle pixel. */
  lemma LineNotSymmetric()
    ensures LinePoints(0, 0, 2, 1) == [(0, 0), (1, 0), (2, 1)]
    ensures LinePoints(2, 1, 0, 0) == [(2, 1), (1, 1), (0, 0)]
  {
    assert Nearest(1, 2) == 0;
    assert Nearest(2, 2) == 1;
  }

  // ---------------------------------------------------------------------
  // Rectangles

  /** The box [x, x+w) x [y, y+h). */
  predicate InBox(x: int, y: int, w: int, h: int, px: int, py: int) {
    x <= px < x + w && y <= py < y + h
  }

  /** The cells StrokeRect's two loops reach: columns x and x+w-1 for the
      rows [y, y+h), and rows y and y+h-1 for the columns [x, x+w). */
  predicate OnOutline(x: int, y: int, w: int, h: int, px: int, py: int) {
    || (y <= py < y + h && (px == x || px == x + w - 1))
    || (x <= px < x + w && (py == y || py == y + h - 1))
  }

  /** The first n cells of row `row` from column x, left to right. */
  function RowRun(x: int, row: int, n: int): seq<Point>
    decreases n
  {
    if n <= 0 then [] else RowRun(x, row, n - 1) + [(x + n - 1, row)]
  }

  /** FillRect's calls for its first n rows, row by row. */
  function BoxOrder(x: int, y: int, w: int, n: int): seq<Point>
    decreases n
  {
    if n <= 0 then [] else BoxOrder(x, y, w, n - 1) + RowRun(x, y + n - 1, w)
  }

  /** StrokeRect's first loop for its first n rows: left then right column. */
  function SidePairs(x: int, y: int, w: int, n: int): seq<Point>
    decreases n
  {
    if n <= 0 then [] else SidePairs(x, y, w, n - 1) + [(x, y + n - 1), (x + w - 1, y + n - 1)]
  }

  /** StrokeRect's second loop for its first n columns: top then bottom row. */
  function EdgePairs(x: int, y: int, h: int, n: int): seq<Point>
    decreases n
  {
    if n <= 0 then [] else EdgePairs(x, y, h, n - 1) + [(x + n - 1, y), (x + n - 1, y + h - 1)]
  }

  /** Each loop's sequence grows by the calls of one more pass. */
  lemma SidePairsSnoc(x: int, y: int, w: int, n: int)
    requires n >= 0
    ensures SidePairs(x, y, w, n + 1) == SidePairs(x, y, w, n) + [(x, y + n), (x + w - 1, y + n)]
  {
  }

  lemma EdgePairsSnoc(x: int, y: int, h: int, n: int)
    requires n >= 0
    ensures EdgePairs(x, y, h, n + 1) == EdgePairs(x, y, h, n) + [(x + n, y), (x + n, y + h - 1)]
  {
  }

  lemma RowRunSnoc(x: int, row: int, n: int)
    requires n >= 0
    ensures RowRun(x, row, n + 1) == RowRun(x, row, n) + [(x + n, row)]
  {
  }

  lemma BoxOrderSnoc(x: int, y: int, w: int, n: int)
    requires n >= 0
    ensures BoxOrder(x, y, w, n + 1) == BoxOrder(x, y, w, n) + RowRun(x, y + n, w)
  {
  }

  /** The calls StrokeRect makes, in order. */
  function OutlineOrder(x: int, y: int, w: int, h: int): seq<Point> {
    SidePairs(x, y, w, h) + EdgePairs(x, y, h, w)
  }

  lemma {:induction false} RowRunCells(x: int, row: int, n: int)
    ensures |RowRun(x, row, n)| == if n <= 0 then 0 else n
    ensures forall p :: p in RowRun(x, row, n) <==> p.1 == row && x <= p.0 < x + n
    decreases n
  {
    if n > 0 {
      RowRunCells(x, row, n - 1);
    }
  }

  /** FillRect calls PutPixel once for every cell of the box [x, x+w) x
      [y, y+h) and for nothing else, so it calls nothing when w <= 0 or h <= 0. */
  lemma {:induction false} BoxOrderCells(x: int, y: int, w: int, n: int)
    ensures |BoxOrder(x, y, w, n)| == (if n <= 0 then 0 else n) * (if w <= 0 then 0 else w)
    ensures forall p :: p in BoxOrder(x, y, w, n) <==> InBox(x, y, w, n, p.0, p.1)
    decreases n
  {
    if n > 0 {
      BoxOrderCells(x, y, w, n - 1);
      RowRunCells(x, y + n - 1, w);
      BoxStep(x, y, w, n, BoxOrder(x, y, w, n - 1), RowRun(x, y + n - 1, w), BoxOrder(x, y, w, n));
    }
  }

  /** One more row of the box. */
  lemma BoxStep(x: int, y: int, w: int, n: int, s: seq<Point>, r: seq<Point>, t: seq<Point>)
    requires n > 0 && t == s + r
    requires |s| == (if n - 1 <= 0 then 0 else n - 1) * (if w <= 0 then 0 else w)
    requires forall p :: p in s <==> InBox(x, y, w, n - 1, p.0, p.1)
    requires |r| == (if w <= 0 then 0 else w)
    requires forall p :: p in r <==> p.1 == y + n - 1 && x <= p.0 < x + w
    ensures |t| == (if n <= 0 then 0 else n) * (if w <= 0 then 0 else w)
    ensures forall p :: p in t <==> InBox(x, y, w, n, p.0, p.1)
  {
    var a, b := if n - 1 <= 0 then 0 else n - 1, if w <= 0 then 0 else w;
    assert (a + 1) * b == a * b + b;
  }

  lemma {:induction false} SidePairsCells(x: int, y: int, w: int, n: int)
    ensures |SidePairs(x, y, w, n)| == if n <= 0 then 0 else 2 * n
    ensures forall p :: p in SidePairs(x, y, w, n) <==> y <= p.1 < y + n && (p.0 == x || p.0 == x + w - 1)
    decreases n
  {
    if n > 0 {
      SidePairsCells(x, y, w, n - 1);
      SideStep(x, y, w, n, SidePairs(x, y, w, n - 1), SidePairs(x, y, w, n));
    }
  }

  /** One more row of the outline's sides. */
  lemma SideStep(x: int, y: int, w: int, n: int, s: seq<Point>, t: seq<Point>)
    requires n > 0 && t == s + [(x, y + n - 1), (x + w - 1, y + n - 1)]
    requires |s| == 2 * (n - 1)
    requires forall p :: p in s <==> y <= p.1 < y + n - 1 && (p.0 == x || p.0 == x + w - 1)
    ensures |t| == 2 * n
    ensures forall p :: p in t <==> y <= p.1 < y + n && (p.0 == x || p.0 == x + w - 1)
  {
  }

  lemma {:induction false} EdgePairsCells(x: int, y: int, h: int, n: int)
    ensures |EdgePairs(x, y, h, n)| == if n <= 0 then 0 else 2 * n
    ensures forall p :: p in EdgePairs(x, y, h, n) <==> x <= p.0 < x + n && (p.1 == y || p.1 == y + h - 1)
    decreases n
  {
    if n > 0 {
      EdgePairsCells(x, y, h, n - 1);
      EdgeStep(x, y, h, n, EdgePairs(x, y, h, n - 1), EdgePairs(x, y, h, n));
    }
  }

  /** One more column of the outline's top and bottom. */
  lemma EdgeStep(x: int, y: int, h: int, n: int, s: seq<Point>, t: seq<Point>)
    requires n > 0 && t == s + [(x + n - 1, y), (x + n - 1, y + h - 1)]
    requires |s| == 2 * (n - 1)
    requires forall p :: p in s <==> x <= p.0 < x + n - 1 && (p.1 == y || p.1 == y + h - 1)
    ensures |t| == 2 * n
    ensures forall p :: p in t <==> x <= p.0 < x + n && (p.1 == y || p.1 == y + h - 1)
  {
  }

  /** StrokeRect makes 2*h + 2*w calls (for positive sizes) and reaches
      exactly the cells OnOutline describes. */
  lemma OutlineOrderCells(x: int, y: int, w: int, h: int)
    ensures |OutlineOrder(x, y, w, h)| == (if h <= 0 then 0 else 2 * h) + (if w <= 0 then 0 else 2 * w)
    ensures forall p :: p in OutlineOrder(x, y, w, h) <==> OnOutline(x, y, w, h, p.0, p.1)
  {
    SidePairsCells(x, y, w, h);
    EdgePairsCells(x, y, h, w);
  }

  /** For a box of positive size the outline is its border: the cells of the
      box in its first or last column or its first or last row. */
  lemma OutlineIsBorder(x: int, y: int, w: int, h: int, px: int, py: int)
    requires w >= 1 && h >= 1
    ensures OnOutline(x, y, w, h, px, py)
        <==> InBox(x, y, w, h, px, py) && (px == x || px == x + w - 1 || py == y || py == y + h - 1)
  {
  }

  /** A box of height 0 is empty, yet StrokeRect's second loop still draws
      the rows y and y-1 across its width. */
  lemma OutlineOfFlatBox(x: int, y: int, w: int, px: int, py: int)
    requires w >= 1
    ensures !InBox(x, y, w, 0, px, py)
    ensures OnOutline(x, y, w, 0, px, py) <==> x <= px < x + w && (py == y || py == y - 1)
  {
  }

  // ---------------------------------------------------------------------
  // Filled ellipses

  /** FillEllipse's inner loop for offset column px: the offsets y in
      [-b, -b+n) that pass the inclusion test give the pixel
      (px + cx, y + cy). */
  function ColumnScan(cx: int, cy: int, px: int, b: int, n: int, inside: (int, int) -> bool): seq<Point>
    decreases n
  {
    if n <= 0 then []
    else ColumnScan(cx, cy, px, b, n - 1, inside)
         + (if inside(px, -b + n - 1) then [(px + cx, -b + n - 1 + cy)] else [])
  }

  /** FillEllipse's calls for the first n offset columns from -a. */
  function EllipseScan(cx: int, cy: int, a: int, b: int, n: int, inside: (int, int) -> bool): seq<Point>
    decreases n
  {
    if n <= 0 then []
    else EllipseScan(cx, cy, a, b, n - 1, inside) + ColumnScan(cx, cy, -a + n - 1, b, 2 * b, inside)
  }

  lemma ColumnScanSnoc(cx: int, cy: int, px: int, b: int, n: int, inside: (int, int) -> bool)
    requires n >= 0
    ensures ColumnScan(cx, cy, px, b, n + 1, inside)
         == ColumnScan(cx, cy, px, b, n, inside) + (if inside(px, -b + n) then [(px + cx, -b + n + cy)] else [])
  {
  }

  lemma EllipseScanSnoc(cx: int, cy: int, a: int, b: int, n: int, inside: (int, int) -> bool)
    requires n >= 0
    ensures EllipseScan(cx, cy, a, b, n + 1, inside)
         == EllipseScan(cx, cy, a, b, n, inside) + ColumnScan(cx, cy, -a + n, b, 2 * b, inside)
  {
  }

  lemma {:induction false} ColumnScanCells(cx: int, cy: int, px: int, b: int, n: int, inside: (int, int) -> bool)
    ensures forall p :: (p in ColumnScan(cx, cy, px, b, n, inside)
      <==> p.0 == px + cx && -b <= p.1 - cy < -b + n && inside(px, p.1 - cy))
    decreases n
  {
    if n > 0 {
      ColumnScanCells(cx, cy, px, b, n - 1, inside);
    }
  }

  /** Every pixel FillEllipse writes has its offset from the centre in
      [-a, a) x [-b, b) and passes the inclusion test, and every such
      offset is written. */
  lemma {:induction false} EllipseScanCells(cx: int, cy: int, a: int, b: int, n: int, inside: (int, int) -> bool)
    ensures forall p :: (p in EllipseScan(cx, cy, a, b, n, inside)
      <==> -a <= p.0 - cx < -a + n && -b <= p.1 - cy < b && inside(p.0 - cx, p.1 - cy))
    decreases n
  {
    if n > 0 {
      EllipseScanCells(cx, cy, a, b, n - 1, inside);
      ColumnScanCells(cx, cy, -a + n - 1, b, 2 * b, inside);
    }
  }

  /** The pixels FillEllipse writes: offset from the centre in [-a, a) x
      [-b, b), accepted by the inclusion test. */
  predicate EllipseCovers(cx: int, cy: int, a: int, b: int, inside: (int, int) -> bool, px: int, py: int) {
    -a <= px - cx < a && -b <= py - cy < b && inside(px - cx, py - cy)
  }

  /** FillEllipse's whole scan writes exactly the pixels EllipseCovers names. */
  lemma EllipseFillCells(cx: int, cy: int, a: int, b: int, inside: (int, int) -> bool)
    ensures forall p :: p in EllipseScan(cx, cy, a, b, 2 * a, inside) <==> EllipseCovers(cx, cy, a, b, inside, p.0, p.1)
  {
    EllipseScanCells(cx, cy, a, b, 2 * a, inside);
  }
}
