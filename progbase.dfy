/** The canvas (Canvas.cs): a buffer of colour bytes drawn between
    BeginDraw and EndDraw, with the shape routines that fill it and the
    compositor that writes it to the console. Failures that the source
    signals by throwing are returned as an Outcome naming the exception. */
module Progbase {
  import opened Base
  import opened ColorEncoder
  import opened Raster
  import opened Terminal
  import opened Compositor
  import opened Pixels

  /** The first n cells of row i of a buffer. */
  ghost function RowOf(a: array2<byte>, i: int, n: int): seq<byte>
    reads a
    requires 0 <= i < a.Length0 && 0 <= n <= a.Length1
    decreases n
  {
    if n == 0 then [] else RowOf(a, i, n - 1) + [a[i, n - 1]]
  }

  lemma {:induction false} RowOfCells(a: array2<byte>, i: int, n: int)
    requires 0 <= i < a.Length0 && 0 <= n <= a.Length1
    ensures |RowOf(a, i, n)| == n && forall j :: 0 <= j < n ==> RowOf(a, i, n)[j] == a[i, j]
    decreases n
  {
    if n > 0 {
      RowOfCells(a, i, n - 1);
    }
  }

  /** The first m rows of a buffer. */
  ghost function GridOf(a: array2<byte>, m: int): Grid
    reads a
    requires 0 <= m <= a.Length0
    decreases m
  {
    if m == 0 then [] else GridOf(a, m - 1) + [RowOf(a, m - 1, a.Length1)]
  }

  lemma {:induction false} GridOfCells(a: array2<byte>, m: int)
    requires 0 <= m <= a.Length0
    ensures Shaped(GridOf(a, m), m, a.Length1)
    ensures forall i, j :: 0 <= i < m && 0 <= j < a.Length1 ==> GridOf(a, m)[i][j] == a[i, j]
    decreases m
  {
    if m > 0 {
      GridOfCells(a, m - 1);
      RowOfCells(a, m - 1, a.Length1);
    }
  }

  /** The colour BeginDraw clears the buffer to and resets the pen to. */
  const BlackColor: byte := 0

  class Canvas {
    /** The buffer, [row, column]; null until the first SetSize. */
    var canvas: array2?<byte>
    /** The pen colour PutPixel writes. */
    var currentColor: byte
    var originRow: int
    var originColumn: int
    var width: int
    var height: int
    var isDrawing: bool
    var isYOrientationInverted: bool

    /** What every public operation keeps: a positive size, a non-negative
        origin, a buffer of the recorded size once there is one, and a
        buffer while drawing. */
    ghost predicate Valid()
      reads this`width, this`height, this`originRow, this`originColumn, this`canvas, this`isDrawing
    {
      && width >= 1 && height >= 1
      && originRow >= 0 && originColumn >= 0
      && (canvas != null ==> canvas.Length0 == height && canvas.Length1 == width)
      && (isDrawing ==> canvas != null)
    }

    /** A new canvas: no buffer, a 1x1 size, origin (1, 1), black pen,
        not drawing, not inverted. */
    constructor ()
      ensures Valid()
      ensures canvas == null && currentColor == BlackColor
      ensures originRow == 1 && originColumn == 1 && width == 1 && height == 1
      ensures !isDrawing && !isYOrientationInverted
    {
      canvas := null;
      currentColor := BlackColor;
      originRow := 1;
      originColumn := 1;
      width := 1;
      height := 1;
      isDrawing := false;
      isYOrientationInverted := false;
    }

    /** The buffer as a value, [row][column]. */
    ghost function Cells(): Grid
      reads this`canvas, canvas
      requires canvas != null
    {
      GridOf(canvas, canvas.Length0)
    }

    /** Cells() is the buffer, cell for cell. */
    lemma CellsMirror()
      requires canvas != null
      ensures Shaped(Cells(), canvas.Length0, canvas.Length1)
      ensures forall i, j :: 0 <= i < canvas.Length0 && 0 <= j < canvas.Length1 ==> Cells()[i][j] == canvas[i, j]
    {
      GridOfCells(canvas, canvas.Length0);
    }

    /** The configuration EndDraw reads. */
    function CurrentLayout(): Layout
      reads this`width, this`height, this`originRow, this`originColumn, this`isYOrientationInverted
    {
      Layout(width, height, originRow, originColumn, isYOrientationInverted)
    }

    /** The colour of the buffer at column x, row y. */
    function GetColorAt(x: int, y: int): (c: byte)
      reads this`canvas, canvas
      requires canvas != null && 0 <= y < canvas.Length0 && 0 <= x < canvas.Length1
      ensures y < |Cells()| && x < |Cells()[y]| && c == Cells()[y][x]
    {
      CellsMirror();
      canvas[y, x]
    }

    static predicate InBounds(x: int, a: int, b: int) {
      x >= a && x <= b
    }

    // -------------------------------------------------------------------
    // Configuration

    /** Moves where EndDraw draws; refused while drawing, and for a negative
        row or column. */
    method SetOrigin(conRow: int, conColumn: int) returns (r: Outcome)
      requires Valid()
      modifies this`originRow, this`originColumn
      ensures Valid()
      ensures r == if isDrawing then Fail(InvalidOperation)
                   else if conRow < 0 || conColumn < 0 then Fail(ArgumentOutOfRange)
                   else Ok
      ensures r.Ok? ==> originRow == conRow && originColumn == conColumn
      ensures r.Fail? ==> originRow == old(originRow) && originColumn == old(originColumn)
    {
      if isDrawing {
        return Fail(InvalidOperation);
      }
      if conRow < 0 {
        return Fail(ArgumentOutOfRange);
      }
      if conColumn < 0 {
        return Fail(ArgumentOutOfRange);
      }
      originRow := conRow;
      originColumn := conColumn;
      return Ok;
    }

    /** Replaces the buffer by a new all-black one of the given size;
        refused while drawing, and for a width or height below 1. */
    method SetSize(widthPixels: int, heightPixels: int) returns (r: Outcome)
      requires Valid()
      modifies this`width, this`height, this`canvas
      ensures Valid()
      ensures r == if isDrawing then Fail(InvalidOperation)
                   else if widthPixels < 1 || heightPixels < 1 then Fail(ArgumentOutOfRange)
                   else Ok
      ensures r.Ok? ==> width == widthPixels && height == heightPixels
      ensures r.Ok? ==> canvas != null && fresh(canvas) && Shaped(Cells(), height, width) && Blank(Cells())
      ensures r.Fail? ==> width == old(width) && height == old(height) && canvas == old(canvas)
    {
      if isDrawing {
        return Fail(InvalidOperation);
      }
      if widthPixels < 1 {
        return Fail(ArgumentOutOfRange);
      }
      if heightPixels < 1 {
        return Fail(ArgumentOutOfRange);
      }
      width := widthPixels;
      height := heightPixels;
      canvas := new byte[height, width]((i, j) => BlackColor);
      CellsMirror();
      return Ok;
    }

    /** Flips the orientation flag; refused while drawing. */
    method InvertYOrientation() returns (r: Outcome)
      requires Valid()
      modifies this`isYOrientationInverted
      ensures Valid()
      ensures r == if isDrawing then Fail(InvalidOperation) else Ok
      ensures isYOrientationInverted == (if r.Ok? then !old(isYOrientationInverted) else old(isYOrientationInverted))
    {
      if isDrawing {
        return Fail(InvalidOperation);
      }
      isYOrientationInverted := !isYOrientationInverted;
      return Ok;
    }

    // -------------------------------------------------------------------
    // The pen

    /** Sets the pen to a palette index; only while drawing. */
    method SetColor(value: byte) returns (r: Outcome)
      requires Valid()
      modifies this`currentColor
      ensures Valid()
      ensures r == if isDrawing then Ok else Fail(InvalidOperation)
      ensures currentColor == if r.Ok? then value else old(currentColor)
    {
      if !isDrawing {
        return Fail(InvalidOperation);
      }
      currentColor := value;
      return Ok;
    }

    /** Sets the pen to the colour-cube entry nearest below (red, green, blue). */
    method SetColorRgb(red: byte, green: byte, blue: byte) returns (r: Outcome)
      requires Valid()
      modifies this`currentColor
      ensures Valid()
      ensures r == if isDrawing then Ok else Fail(InvalidOperation)
      ensures currentColor == if r.Ok? then EncodeColor(red, green, blue) else old(currentColor)
    {
      r := SetColor(EncodeColor(red, green, blue));
    }

    /** Sets the pen from a hex string. The string is parsed first, so a
        malformed one fails the same way whether or not the canvas is
        drawing. */
    method SetColorHex(hexColor: string) returns (r: Outcome)
      requires Valid()
      modifies this`currentColor
      ensures Valid()
      ensures r == match ParseHexColor(hexColor)
                   case Failure(e) => Fail(e)
                   case Success(_) => if isDrawing then Ok else Fail(InvalidOperation)
      ensures r.Ok? ==> ParseHexColor(hexColor).Success?
      ensures currentColor == if r.Ok? then
                                var c := ParseHexColor(hexColor).value;
                                EncodeColor(c.red, c.green, c.blue)
                              else old(currentColor)
    {
      var parsed := ParseHexColor(hexColor);
      if parsed.Failure? {
        return Fail(parsed.error);
      }
      var c := parsed.value;
      r := SetColorRgb(c.red, c.green, c.blue);
    }

    // -------------------------------------------------------------------
    // Drawing

    /** Starts a frame: hides the cursor, clears the buffer to black and
        resets the pen. Refused while drawing; with no buffer yet the
        cursor is already hidden when the clearing loop fails. `written`
        is what goes to the console. */
    method BeginDraw() returns (r: Outcome, written: seq<Event>)
      requires Valid()
      modifies this`currentColor, this`isDrawing, canvas
      ensures Valid()
      ensures r == if old(isDrawing) then Fail(InvalidOperation)
                   else if canvas == null then Fail(NullReference)
                   else Ok
      ensures written == if old(isDrawing) then [] else [CursorVisible(false)]
      ensures r.Ok? ==> isDrawing && currentColor == BlackColor && Shaped(Cells(), height, width) && Blank(Cells())
      ensures r.Fail? ==> isDrawing == old(isDrawing) && currentColor == old(currentColor)
      ensures r.Fail? && canvas != null ==> unchanged(canvas)
    {
      if isDrawing {
        return Fail(InvalidOperation), [];
      }
      written := [CursorVisible(false)];
      if canvas == null {
        return Fail(NullReference), written;
      }
      var i := 0;
      while i < height
        modifies canvas
        invariant 0 <= i <= height
        invariant forall i', j' :: 0 <= i' < i && 0 <= j' < width ==> canvas[i', j'] == BlackColor
      {
        var j := 0;
        while j < width
          modifies canvas
          invariant 0 <= j <= width
          invariant forall i', j' :: 0 <= i' < i && 0 <= j' < width ==> canvas[i', j'] == BlackColor
          invariant forall j' :: 0 <= j' < j ==> canvas[i, j'] == BlackColor
        {
          canvas[i, j] := BlackColor;
          j := j + 1;
        }
        i := i + 1;
      }
      CellsMirror();
      currentColor := BlackColor;
      isDrawing := true;
      return Ok, written;
    }

    /** Ends a frame: writes the buffer to the console as the compositor's
        stream, then resets the colours and shows the cursor. Refused when
        not drawing. `written` is what goes to the console. */
    method EndDraw() returns (r: Outcome, written: seq<Event>)
      requires Valid()
      modifies this`isDrawing
      ensures Valid()
      ensures r == if old(isDrawing) then Ok else Fail(InvalidOperation)
      ensures r.Ok? ==> canvas != null && !isDrawing && Fits(old(Cells()), CurrentLayout())
      ensures r.Ok? ==> written == Flush(old(Cells()), CurrentLayout())
      ensures r.Fail? ==> written == [] && isDrawing == old(isDrawing)
    {
      if !isDrawing {
        return Fail(InvalidOperation), [];
      }
      CellsMirror();
      ghost var g := Cells();
      written := WriteFrame(g, CurrentLayout());
      written := written + [Reset, CursorVisible(true)];
      isDrawing := false;
      return Ok, written;
    }

    /** EndDraw's outer loop: the height/2 terminal rows of the frame. */
    method WriteFrame(ghost g: Grid, ghost L: Layout) returns (written: seq<Event>)
      requires canvas != null && canvas.Length0 == height && canvas.Length1 == width
      requires g == Cells() && L == CurrentLayout() && Fits(g, L)
      ensures written == Render(g, L)
    {
      var rColorUpper := -1;
      var rColorLower := -1;
      var setPosManually := originRow > 0 || originColumn > 0;
      written := [];
      var rows := height / 2;
      var yi := 0;
      while yi < rows
        invariant 0 <= yi <= rows == L.height / 2
        invariant written == FrameEvents(g, L, yi)
        invariant yi < height / 2 ==> rColorUpper == PrevUpper(g, L, yi, 0) && rColorLower == PrevLower(g, L, yi, 0)
      {
        var line;
        line, rColorUpper, rColorLower := WriteLine(g, L, yi, setPosManually, rColorUpper, rColorLower);
        written := written + line;
        RowCarry(g, L, yi, rColorUpper, rColorLower);
        yi := yi + 1;
      }
    }

    /** Terminal row yi of EndDraw's scan (one pass of its outer loop): the
        row pair it shows, the cursor move or the line break, and its
        columns. */
    method WriteLine(ghost g: Grid, ghost L: Layout, yi: int, setPosManually: bool,
                     rColorUpper: int, rColorLower: int)
      returns (written: seq<Event>, newUpper: int, newLower: int)
      requires canvas != null && canvas.Length0 == height && canvas.Length1 == width
      requires g == Cells() && L == CurrentLayout() && Fits(g, L)
      requires 0 <= yi < L.height / 2 && setPosManually == Manual(L)
      requires rColorUpper == PrevUpper(g, L, yi, 0) && rColorLower == PrevLower(g, L, yi, 0)
      ensures written == LineEvents(g, L, yi)
      ensures newUpper == PrevUpper(g, L, yi, L.width) && newLower == PrevLower(g, L, yi, L.width)
    {
      var y := yi;
      if isYOrientationInverted {
        y := (height / 2) - yi - 1;
      }
      assert y == PairIndex(L, yi);
      RowHeadIs(L, yi, originRow, originColumn);
      written := [];
      if setPosManually {
        written := [Goto(originColumn, originRow + yi)];
      }
      var row;
      row, newUpper, newLower := WriteRow(g, L, yi, y, rColorUpper, rColorLower);
      written := written + row;
      if !setPosManually {
        written := written + [NewLine];
      }
    }

    /** The columns of terminal row yi, left to right (the inner loop of
        EndDraw). */
    method WriteRow(ghost g: Grid, ghost L: Layout, yi: int, y: int,
                    rColorUpper: int, rColorLower: int)
      returns (written: seq<Event>, newUpper: int, newLower: int)
      requires canvas != null && canvas.Length0 == height && canvas.Length1 == width
      requires g == Cells() && L == CurrentLayout() && Fits(g, L)
      requires 0 <= yi < L.height / 2 && y == PairIndex(L, yi)
      requires rColorUpper == PrevUpper(g, L, yi, 0) && rColorLower == PrevLower(g, L, yi, 0)
      ensures written == RowEvents(g, L, yi, L.width)
      ensures newUpper == PrevUpper(g, L, yi, L.width) && newLower == PrevLower(g, L, yi, L.width)
    {
      newUpper, newLower := rColorUpper, rColorLower;
      written := [];
      var x := 0;
      while x < width
        invariant 0 <= x <= width
        invariant written == RowEvents(g, L, yi, x)
        invariant newUpper == PrevUpper(g, L, yi, x) && newLower == PrevLower(g, L, yi, x)
      {
        var cell;
        cell, newUpper, newLower := WriteCell(g, L, yi, x, y, newUpper, newLower);
        written := written + cell;
        x := x + 1;
      }
    }

    /** One cell of EndDraw's scan: reads the two buffer rows of pair y at
        column x, writes each slot's escape when its colour differs from
        the one last written, then the half block; returns the colours now
        in effect. */
    method WriteCell(ghost g: Grid, ghost L: Layout, yi: int, x: int, y: int,
                     rColorUpper: int, rColorLower: int)
      returns (written: seq<Event>, newUpper: int, newLower: int)
      requires canvas != null && canvas.Length0 == height && canvas.Length1 == width
      requires g == Cells() && L == CurrentLayout() && Fits(g, L)
      requires 0 <= yi < L.height / 2 && 0 <= x < L.width && y == PairIndex(L, yi)
      requires rColorUpper == PrevUpper(g, L, yi, x) && rColorLower == PrevLower(g, L, yi, x)
      ensures written == CellEvents(g, L, yi, x)
      ensures newUpper == PrevUpper(g, L, yi, x + 1) && newLower == PrevLower(g, L, yi, x + 1)
    {
      newUpper, newLower := rColorUpper, rColorLower;
      written := [];
      var newColUp := GetColorAt(x, y * 2);
      assert newColUp == Upper(g, L, yi, x);
      if newColUp as int != rColorUpper {
        written := written + [if isYOrientationInverted then SetBg(newColUp) else SetFg(newColUp)];
        newUpper := newColUp as int;
      }
      var newColDown := GetColorAt(x, y * 2 + 1);
      assert newColDown == Lower(g, L, yi, x);
      if newColDown as int != rColorLower {
        written := written + [if isYOrientationInverted then SetFg(newColDown) else SetBg(newColDown)];
        newLower := newColDown as int;
      }
      written := written + [Glyph];
    }

    /** Writes the pen colour at column x, row y when that lies in the
        buffer; a position outside it is ignored. Only while drawing. */
    method PutPixel(x: int, y: int) returns (r: Outcome)
      requires Valid()
      modifies canvas
      ensures Valid()
      ensures r == if isDrawing then Ok else Fail(InvalidOperation)
      ensures isDrawing ==> Cells() == PaintAt(old(Cells()), (x, y), currentColor)
      ensures !isDrawing && canvas != null ==> unchanged(canvas)
    {
      if !isDrawing {
        return Fail(InvalidOperation);
      }
      CellsMirror();
      ghost var g0 := Cells();
      if InBounds(x, 0, width - 1) && InBounds(y, 0, height - 1) {
        canvas[y, x] := currentColor;
      }
      CellsMirror();
      PaintAtCells(g0, (x, y), currentColor);
      GridEqual(Cells(), PaintAt(g0, (x, y), currentColor));
      return Ok;
    }

    /** Bresenham's line from (x0, y0) to (x1, y1): the pixels of
        LinePoints, in order. */
    method StrokeLine(x0: int, y0: int, x1: int, y1: int) returns (r: Outcome)
      requires Valid()
      modifies canvas
      ensures Valid()
      ensures r == if isDrawing then Ok else Fail(InvalidOperation)
      ensures isDrawing ==> Cells() == Paint(old(Cells()), LinePoints(x0, y0, x1, y1), currentColor)
      ensures !isDrawing && canvas != null ==> unchanged(canvas)
    {
      if !isDrawing {
        return Fail(InvalidOperation);
      }
      ghost var g0 := Cells();
      ghost var pts := LinePoints(x0, y0, x1, y1);
      var dx: int := Abs(x1 - x0);
      var dy: int := Abs(y1 - y0);
      var _ := PutPixel(x0, y0);
      ghost var g1 := Cells();
      if dy <= dx {
        LineAlongX(x0, y0, x1, y1);
      } else {
        LineAlongY(x0, y0, x1, y1);
      }
      Raster.LineStart(x0, y0, x1, y1);
      assert pts == [pts[0]] + pts[1..];
      PaintSnoc(g0, [], pts[0], currentColor);
      PaintAppend(g0, [pts[0]], pts[1..], currentColor);
      return Ok;
    }

    /** StrokeLine's loop when x drives (dy <= dx): the pixels of steps
        1 to dx of the line, in order. */
    method LineAlongX(x0: int, y0: int, x1: int, y1: int)
      requires Valid() && isDrawing && Abs(y1 - y0) <= Abs(x1 - x0)
      modifies canvas
      ensures Cells() == Paint(old(Cells()), LinePoints(x0, y0, x1, y1)[1..], currentColor)
    {
      ghost var g0 := Cells();
      ghost var pts := LinePoints(x0, y0, x1, y1);
      var dx: int := Abs(x1 - x0);
      var dy: int := Abs(y1 - y0);
      var sx := if x1 >= x0 then 1 else -1;
      var sy := if y1 >= y0 then 1 else -1;
      var d: int := 2 * dy - dx;
      var d1: int := 2 * dy;
      var d2: int := 2 * (dy - dx);
      var x, y, i := x0 + sx, y0, 1;
      ghost var k := 0;
      assert sx == Dir(x0, x1) && sy == Dir(y0, y1);
      AlongXStart(x0, y0, x1, y1);
      assert pts[1..1] == [];
      while i <= dx
        invariant i <= dx + 1
        invariant AlongX(x0, y0, x1, y1, i, k, x, y, d)
        invariant Cells() == Paint(g0, pts[1..i], currentColor)
      {
        ghost var (k0, y0', d0) := (k, y, d);
        if d > 0 {
          d := d + d2;
          y := y + sy;
          k := k + 1;
        } else {
          d := d + d1;
        }
        AlongXStep(x0, y0, x1, y1, i, k0, x, y0', d0, k, y, d);
        assert pts[i] == (x, y);
        assert AlongX(x0, y0, x1, y1, i + 1, k, x + sx, y, d);
        PaintSliceStep(g0, pts, 1, i, currentColor);
        var _ := PutPixel(x, y);
        i := i + 1;
        x := x + sx;
      }
      assert pts[1..i] == pts[1..];
    }

    /** StrokeLine's loop when y drives (dx < dy): the pixels of steps
        1 to dy of the line, in order. */
    method LineAlongY(x0: int, y0: int, x1: int, y1: int)
      requires Valid() && isDrawing && Abs(x1 - x0) < Abs(y1 - y0)
      modifies canvas
      ensures Cells() == Paint(old(Cells()), LinePoints(x0, y0, x1, y1)[1..], currentColor)
    {
      ghost var g0 := Cells();
      ghost var pts := LinePoints(x0, y0, x1, y1);
      var dx: int := Abs(x1 - x0);
      var dy: int := Abs(y1 - y0);
      var sx := if x1 >= x0 then 1 else -1;
      var sy := if y1 >= y0 then 1 else -1;
      var d: int := 2 * dx - dy;
      var d1: int := 2 * dx;
      var d2: int := 2 * (dx - dy);
      var y, x, i := y0 + sy, x0, 1;
      ghost var k := 0;
      assert sx == Dir(x0, x1) && sy == Dir(y0, y1);
      AlongYStart(x0, y0, x1, y1);
      assert pts[1..1] == [];
      while i <= dy
        invariant i <= dy + 1
        invariant AlongY(x0, y0, x1, y1, i, k, x, y, d)
        invariant Cells() == Paint(g0, pts[1..i], currentColor)
      {
        ghost var (k0, x0', d0) := (k, x, d);
        if d > 0 {
          d := d + d2;
          x := x + sx;
          k := k + 1;
        } else {
          d := d + d1;
        }
        AlongYStep(x0, y0, x1, y1, i, k0, x0', y, d0, k, x, d);
        assert pts[i] == (x, y);
        assert AlongY(x0, y0, x1, y1, i + 1, k, x, y + sy, d);
        PaintSliceStep(g0, pts, 1, i, currentColor);
        var _ := PutPixel(x, y);
        i := i + 1;
        y := y + sy;
      }
      assert pts[1..i] == pts[1..];
    }

    /** The outline of the box [x, x+width) x [y, y+height): the left and
        right columns row by row, then the top and bottom rows column by
        column (OutlineOrder). */
    method StrokeRect(x: int, y: int, width: int, height: int) returns (r: Outcome)
      requires Valid()
      modifies canvas
      ensures Valid()
      ensures r == if isDrawing then Ok else Fail(InvalidOperation)
      ensures isDrawing ==> Cells() == Paint(old(Cells()), OutlineOrder(x, y, width, height), currentColor)
      ensures !isDrawing && canvas != null ==> unchanged(canvas)
    {
      if !isDrawing {
        return Fail(InvalidOperation);
      }
      ghost var g0 := Cells();
      StrokeSides(x, y, width, height);
      ghost var g1 := Cells();
      StrokeEdges(x, y, width, height);
      PaintAppend(g0, SidePairs(x, y, width, height), EdgePairs(x, y, height, width), currentColor);
      return Ok;
    }

    /** StrokeRect's first loop: columns x and x+w-1 of each row of the box. */
    method StrokeSides(x: int, y: int, w: int, h: int)
      requires Valid() && isDrawing
      modifies canvas
      ensures Cells() == Paint(old(Cells()), SidePairs(x, y, w, h), currentColor)
    {
      ghost var g0 := Cells();
      var i := y;
      ghost var n := 0;
      while i < y + h
        invariant n >= 0 && i == y + n && (i <= y + h || n == 0)
        invariant Cells() == Paint(g0, SidePairs(x, y, w, n), currentColor)
      {
        ghost var g := Cells();
        var _ := PutPixel(x, i);
        var _ := PutPixel(x + w - 1, i);
        PaintSidesStep(g0, g, Cells(), x, y, w, n, currentColor);
        i, n := i + 1, n + 1;
      }
    }

    /** StrokeRect's second loop: rows y and y+h-1 of each column of the box. */
    method StrokeEdges(x: int, y: int, w: int, h: int)
      requires Valid() && isDrawing
      modifies canvas
      ensures Cells() == Paint(old(Cells()), EdgePairs(x, y, h, w), currentColor)
    {
      ghost var g0 := Cells();
      var j := x;
      ghost var n := 0;
      while j < x + w
        invariant n >= 0 && j == x + n && (j <= x + w || n == 0)
        invariant Cells() == Paint(g0, EdgePairs(x, y, h, n), currentColor)
      {
        ghost var g := Cells();
        var _ := PutPixel(j, y);
        var _ := PutPixel(j, y + h - 1);
        PaintEdgesStep(g0, g, Cells(), x, y, h, n, currentColor);
        j, n := j + 1, n + 1;
      }
    }

    /** Every cell of the box [x, x+width) x [y, y+height), row by row and
        left to right (BoxOrder). */
    method FillRect(x: int, y: int, width: int, height: int) returns (r: Outcome)
      requires Valid()
      modifies canvas
      ensures Valid()
      ensures r == if isDrawing then Ok else Fail(InvalidOperation)
      ensures isDrawing ==> Cells() == Paint(old(Cells()), BoxOrder(x, y, width, height), currentColor)
      ensures !isDrawing && canvas != null ==> unchanged(canvas)
    {
      if !isDrawing {
        return Fail(InvalidOperation);
      }
      FillRows(x, y, width, height);
      return Ok;
    }

    /** FillRect's outer loop: the rows [y, y+h), top to bottom. */
    method FillRows(x: int, y: int, w: int, h: int)
      requires Valid() && isDrawing
      modifies canvas
      ensures Cells() == Paint(old(Cells()), BoxOrder(x, y, w, h), currentColor)
    {
      ghost var g0 := Cells();
      var i := y;
      ghost var n := 0;
      while i < y + h
        invariant n >= 0 && i == y + n && (i <= y + h || n == 0)
        invariant Cells() == Paint(g0, BoxOrder(x, y, w, n), currentColor)
      {
        ghost var g := Cells();
        FillRow(x, i, w);
        PaintBoxStep(g0, g, Cells(), x, y, w, n, currentColor);
        i, n := i + 1, n + 1;
      }
    }

    /** FillRect's inner loop: the first w cells of row `row` from column x. */
    method FillRow(x: int, row: int, w: int)
      requires Valid() && isDrawing
      modifies canvas
      ensures Cells() == Paint(old(Cells()), RowRun(x, row, w), currentColor)
    {
      ghost var g0 := Cells();
      var j := x;
      ghost var n := 0;
      while j < x + w
        invariant n >= 0 && j == x + n && (j <= x + w || n == 0)
        invariant Cells() == Paint(g0, RowRun(x, row, n), currentColor)
      {
        ghost var g := Cells();
        var _ := PutPixel(j, row);
        PaintRunStep(g0, g, Cells(), x, row, n, currentColor);
        j, n := j + 1, n + 1;
      }
    }

    /** The circle of the given radius about (x0, y0) is the ellipse with
        both semi-axes equal to it; `samples` are the positions the
        ellipse's trigonometric sampling produces. */
    method StrokeCircle(x0: int, y0: int, radius: int, samples: seq<Point>) returns (r: Outcome)
      requires Valid()
      modifies canvas
      ensures Valid()
      ensures r == if !isDrawing then Fail(InvalidOperation)
                   else if radius <= 0 then Fail(ArgumentOutOfRange) else Ok
      ensures r == Ok ==> Cells() == Paint(old(Cells()), samples, currentColor)
      ensures r != Ok && canvas != null ==> unchanged(canvas)
    {
      if !isDrawing {
        return Fail(InvalidOperation);
      }
      r := StrokeEllipse(x0, y0, radius, radius, samples);
    }

    /** The disc of the given radius about (x0, y0): refused for a radius
        that is not positive, otherwise the ellipse with both semi-axes
        equal to it. */
    method FillCircle(x0: int, y0: int, radius: int, inside: (int, int) -> bool) returns (r: Outcome)
      requires Valid()
      modifies canvas
      ensures Valid()
      ensures r == if !isDrawing then Fail(InvalidOperation)
                   else if radius <= 0 then Fail(ArgumentOutOfRange) else Ok
      ensures r == Ok ==> Cells() == Paint(old(Cells()), EllipseScan(x0, y0, radius, radius, 2 * radius, inside), currentColor)
      ensures r != Ok && canvas != null ==> unchanged(canvas)
    {
      if !isDrawing {
        return Fail(InvalidOperation);
      }
      if radius <= 0 {
        return Fail(ArgumentOutOfRange);
      }
      r := FillEllipse(x0, y0, radius, radius, inside);
    }

    /** The outline of the ellipse with centre (cx, cy) and semi-axes a and
        b. Both semi-axes must be positive; the pixels are the positions
        `samples` that the source's sampling by angle computes in floating
        point, written in order. */
    method StrokeEllipse(cx: int, cy: int, a: int, b: int, samples: seq<Point>) returns (r: Outcome)
      requires Valid()
      modifies canvas
      ensures Valid()
      ensures r == if !isDrawing then Fail(InvalidOperation)
                   else if a <= 0 || b <= 0 then Fail(ArgumentOutOfRange) else Ok
      ensures r == Ok ==> Cells() == Paint(old(Cells()), samples, currentColor)
      ensures r != Ok && canvas != null ==> unchanged(canvas)
    {
      if !isDrawing {
        return Fail(InvalidOperation);
      }
      if a <= 0 {
        return Fail(ArgumentOutOfRange);
      }
      if b <= 0 {
        return Fail(ArgumentOutOfRange);
      }
      ghost var g0 := Cells();
      var i := 0;
      while i < |samples|
        invariant 0 <= i <= |samples|
        invariant Cells() == Paint(g0, samples[..i], currentColor)
      {
        PaintSliceStep(g0, samples, 0, i, currentColor);
        assert samples[0..i] == samples[..i] && samples[0..i + 1] == samples[..i + 1];
        var _ := PutPixel(samples[i].0, samples[i].1);
        i := i + 1;
      }
      assert samples[..i] == samples;
      return Ok;
    }

    /** The filled ellipse with centre (cx, cy) and semi-axes a and b: for
        each offset column in [-a, a) and offset row in [-b, b), in that
        order, the pixel at the offset from the centre when the inclusion
        test `inside` accepts the offset (EllipseScan). */
    method FillEllipse(cx: int, cy: int, a: int, b: int, inside: (int, int) -> bool) returns (r: Outcome)
      requires Valid()
      modifies canvas
      ensures Valid()
      ensures r == if !isDrawing then Fail(InvalidOperation)
                   else if a <= 0 || b <= 0 then Fail(ArgumentOutOfRange) else Ok
      ensures r == Ok ==> Cells() == Paint(old(Cells()), EllipseScan(cx, cy, a, b, 2 * a, inside), currentColor)
      ensures r != Ok && canvas != null ==> unchanged(canvas)
    {
      if !isDrawing {
        return Fail(InvalidOperation);
      }
      if a <= 0 {
        return Fail(ArgumentOutOfRange);
      }
      if b <= 0 {
        return Fail(ArgumentOutOfRange);
      }
      FillColumns(cx, cy, a, b, inside);
      return Ok;
    }

    /** FillEllipse's outer loop: the offset columns [-a, a), one after the other. */
    method FillColumns(cx: int, cy: int, a: int, b: int, inside: (int, int) -> bool)
      requires Valid() && isDrawing && a > 0 && b > 0
      modifies canvas
      ensures Cells() == Paint(old(Cells()), EllipseScan(cx, cy, a, b, 2 * a, inside), currentColor)
    {
      ghost var g0 := Cells();
      var x := -a;
      while x < a
        invariant -a <= x <= a
        invariant Cells() == Paint(g0, EllipseScan(cx, cy, a, b, x + a, inside), currentColor)
      {
        ghost var g := Cells();
        FillColumn(cx, cy, x, b, inside);
        PaintEllipseStep(g0, g, Cells(), cx, cy, a, b, x + a, inside, currentColor);
        x := x + 1;
      }
    }

    /** FillEllipse's inner loop for offset column px: the offset rows in
        [-b, b) that pass the inclusion test (ColumnScan). */
    method FillColumn(cx: int, cy: int, px: int, b: int, inside: (int, int) -> bool)
      requires Valid() && isDrawing && b > 0
      modifies canvas
      ensures Cells() == Paint(old(Cells()), ColumnScan(cx, cy, px, b, 2 * b, inside), currentColor)
    {
      ghost var g0 := Cells();
      var y := -b;
      ghost var n := 0;
      while y < b
        invariant 0 <= n <= 2 * b && y == -b + n
        invariant Cells() == Paint(g0, ColumnScan(cx, cy, px, b, n, inside), currentColor)
      {
        ghost var g := Cells();
        if inside(px, y) {
          var _ := PutPixel(px + cx, y + cy);
        }
        PaintColumnStep(g0, g, Cells(), cx, cy, px, b, n, inside, currentColor);
        y, n := y + 1, n + 1;
      }
    }
  }
}
