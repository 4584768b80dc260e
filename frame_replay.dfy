/** What EndDraw's stream (Canvas.cs:105-156) does to a terminal: replayed
    anywhere, it paints every terminal cell with the two buffer pixels it
    stands for, so the compositor loses nothing. */
module FrameReplay {
  import opened Base
  import opened Terminal
  import opened Compositor

  /** The buffer row shown in the top half of terminal row yi: row 2*yi,
      or with the orientation inverted the picture flipped vertically
      (the odd last row left out). */
  function TopRow(L: Layout, yi: int): int {
    if L.inverted then 2 * (L.height / 2) - 1 - 2 * yi else 2 * yi
  }

  /** The buffer row shown in the bottom half of terminal row yi. */
  function BottomRow(L: Layout, yi: int): int {
    if L.inverted then 2 * (L.height / 2) - 2 - 2 * yi else 2 * yi + 1
  }

  /** What the terminal cell for column x of terminal row yi must show. */
  function Shows(g: seq<seq<byte>>, L: Layout, yi: int, x: int): Shade
    requires Fits(g, L) && 0 <= yi < L.height / 2 && 0 <= x < L.width
  {
    Shade(g[TopRow(L, yi)][x] as int, g[BottomRow(L, yi)][x] as int)
  }

  /** Where column x of terminal row yi lands when the stream is replayed
      from terminal t0: at the origin with absolute positioning, otherwise
      from the cursor onwards, each later row at the start of its line. */
  function ScreenPos(L: Layout, t0: Screen, yi: int, x: int): Pos {
    if Manual(L) then Pos(L.originColumn + x, L.originRow + yi)
    else Pos((if yi == 0 then t0.column else 0) + x, t0.row + yi)
  }

  /** The terminal's colour in the upper row's slot. */
  function UpperSlot(L: Layout, t: Screen): int {
    if L.inverted then t.bg else t.fg
  }

  function LowerSlot(L: Layout, t: Screen): int {
    if L.inverted then t.fg else t.bg
  }

  /** The terminal holds the colours last written for each slot, where
      one has been written (-1: none yet). */
  predicate Carries(L: Layout, t: Screen, pu: int, pl: int) {
    (pu != -1 ==> UpperSlot(L, t) == pu) && (pl != -1 ==> LowerSlot(L, t) == pl)
  }

  /** Replaying one cell paints the cell under the cursor with the two
      buffer pixels it stands for, and leaves both slots at that cell's colours. */
  lemma ReplayCell(g: seq<seq<byte>>, L: Layout, yi: int, x: int, t: Screen)
    requires Fits(g, L) && 0 <= yi < L.height / 2 && 0 <= x < L.width
    requires Carries(L, t, PrevUpper(g, L, yi, x), PrevLower(g, L, yi, x))
    ensures var t' := Replay(t, CellEvents(g, L, yi, x));
      && t'.column == t.column + 1 && t'.row == t.row && t'.cursorVisible == t.cursorVisible
      && t'.cells == t.cells[Pos(t.column, t.row) := Shows(g, L, yi, x)]
      && UpperSlot(L, t') == Upper(g, L, yi, x) as int
      && LowerSlot(L, t') == Lower(g, L, yi, x) as int
  {
    var u, l := UpperEscape(g, L, yi, x), LowerEscape(g, L, yi, x);
    ReplayAppend(t, u + l, [Glyph]);
    ReplayAppend(t, u, l);
    ReplayUpperEscape(g, L, yi, x, t);
    var ta := Replay(t, u);
    ReplayLowerEscape(g, L, yi, x, ta);
    var tb := Replay(ta, l);
    ReplayGlyph(tb);
    ShadeOfSlots(g, L, yi, x, tb);
  }

  /** The upper escape leaves the upper slot at the cell's upper colour
      and changes nothing else that matters. */
  lemma ReplayUpperEscape(g: seq<seq<byte>>, L: Layout, yi: int, x: int, t: Screen)
    requires Fits(g, L) && 0 <= yi < L.height / 2 && 0 <= x < L.width
    requires PrevUpper(g, L, yi, x) != -1 ==> UpperSlot(L, t) == PrevUpper(g, L, yi, x)
    ensures var ta := Replay(t, UpperEscape(g, L, yi, x));
      && ta.cells == t.cells && ta.column == t.column && ta.row == t.row && ta.cursorVisible == t.cursorVisible
      && UpperSlot(L, ta) == Upper(g, L, yi, x) as int && LowerSlot(L, ta) == LowerSlot(L, t)
  {
    if Upper(g, L, yi, x) as int != PrevUpper(g, L, yi, x) {
      assert Replay(t, UpperEscape(g, L, yi, x)) == Step(t, UpperToken(L, Upper(g, L, yi, x)));
    }
  }

  /** The lower escape leaves the lower slot at the cell's lower colour. */
  lemma ReplayLowerEscape(g: seq<seq<byte>>, L: Layout, yi: int, x: int, t: Screen)
    requires Fits(g, L) && 0 <= yi < L.height / 2 && 0 <= x < L.width
    requires PrevLower(g, L, yi, x) != -1 ==> LowerSlot(L, t) == PrevLower(g, L, yi, x)
    ensures var tb := Replay(t, LowerEscape(g, L, yi, x));
      && tb.cells == t.cells && tb.column == t.column && tb.row == t.row && tb.cursorVisible == t.cursorVisible
      && LowerSlot(L, tb) == Lower(g, L, yi, x) as int && UpperSlot(L, tb) == UpperSlot(L, t)
  {
    if Lower(g, L, yi, x) as int != PrevLower(g, L, yi, x) {
      assert Replay(t, LowerEscape(g, L, yi, x)) == Step(t, LowerToken(L, Lower(g, L, yi, x)));
    }
  }

  lemma ReplayGlyph(t: Screen)
    ensures Replay(t, [Glyph]) == Step(t, Glyph)
  {
  }

  /** With both slots at a cell's colours, a half block shows that cell. */
  lemma ShadeOfSlots(g: seq<seq<byte>>, L: Layout, yi: int, x: int, t: Screen)
    requires Fits(g, L) && 0 <= yi < L.height / 2 && 0 <= x < L.width
    requires UpperSlot(L, t) == Upper(g, L, yi, x) as int && LowerSlot(L, t) == Lower(g, L, yi, x) as int
    ensures Shade(t.fg, t.bg) == Shows(g, L, yi, x)
  {
  }

  /** What replaying the first n cells of terminal row yi on t leaves on
      terminal t': n consecutive cells of the cursor's row painted, the
      slots at the colours of the last of them, nothing else changed. */
  ghost predicate RowPainted(g: seq<seq<byte>>, L: Layout, yi: int, n: int, t: Screen, t': Screen)
    requires Fits(g, L) && 0 <= yi < L.height / 2 && 0 <= n <= L.width
  {
    && t'.column == t.column + n && t'.row == t.row && t'.cursorVisible == t.cursorVisible
    && (n == 0 ==> t' == t)
    && (n > 0 ==>
          UpperSlot(L, t') == Upper(g, L, yi, n - 1) as int && LowerSlot(L, t') == Lower(g, L, yi, n - 1) as int)
    && (forall p: Pos :: p.row == t.row && t.column <= p.column < t.column + n ==>
          p in t'.cells && t'.cells[p] == Shows(g, L, yi, p.column - t.column))
    && (forall p: Pos :: p.row != t.row || p.column < t.column || p.column >= t.column + n ==>
          (p in t'.cells <==> p in t.cells) && (p in t.cells ==> t'.cells[p] == t.cells[p]))
  }

  /** Replaying the first n cells of a row paints n consecutive cells of
      the cursor's row and nothing else. */
  lemma {:induction false} ReplayRow(g: seq<seq<byte>>, L: Layout, yi: int, n: int, t: Screen)
    requires Fits(g, L) && 0 <= yi < L.height / 2 && 0 <= n <= L.width
    requires Carries(L, t, PrevUpper(g, L, yi, 0), PrevLower(g, L, yi, 0))
    ensures RowPainted(g, L, yi, n, t, Replay(t, RowEvents(g, L, yi, n)))
    decreases n
  {
    if n > 0 {
      ReplayRow(g, L, yi, n - 1, t);
      var tm := Replay(t, RowEvents(g, L, yi, n - 1));
      ReplayAppend(t, RowEvents(g, L, yi, n - 1), CellEvents(g, L, yi, n - 1));
      RowCarries(g, L, yi, n - 1, t, tm);
      ReplayCell(g, L, yi, n - 1, tm);
      RowStep(g, L, yi, n, t, tm, Replay(tm, CellEvents(g, L, yi, n - 1)));
    }
  }

  /** Within a row, the slots hold the colours of the previous cell. */
  lemma RowCarries(g: seq<seq<byte>>, L: Layout, yi: int, n: int, t: Screen, tm: Screen)
    requires Fits(g, L) && 0 <= yi < L.height / 2 && 0 <= n < L.width
    requires Carries(L, t, PrevUpper(g, L, yi, 0), PrevLower(g, L, yi, 0))
    requires RowPainted(g, L, yi, n, t, tm)
    ensures Carries(L, tm, PrevUpper(g, L, yi, n), PrevLower(g, L, yi, n))
  {
  }

  /** Painting cell n - 1 after the first n - 1 cells paints the first n. */
  lemma RowStep(g: seq<seq<byte>>, L: Layout, yi: int, n: int, t: Screen, tm: Screen, t': Screen)
    requires Fits(g, L) && 0 <= yi < L.height / 2 && 0 < n <= L.width
    requires RowPainted(g, L, yi, n - 1, t, tm)
    requires t'.column == tm.column + 1 && t'.row == tm.row && t'.cursorVisible == tm.cursorVisible
    requires t'.cells == tm.cells[Pos(tm.column, tm.row) := Shows(g, L, yi, n - 1)]
    requires UpperSlot(L, t') == Upper(g, L, yi, n - 1) as int && LowerSlot(L, t') == Lower(g, L, yi, n - 1) as int
    ensures RowPainted(g, L, yi, n, t, t')
  {
  }

  /** Where a terminal row starts when its events are replayed on t. */
  function LineStart(L: Layout, yi: int, t: Screen): Pos {
    if Manual(L) then Pos(L.originColumn, L.originRow + yi) else Pos(t.column, t.row)
  }

  /** What replaying terminal row yi on t leaves on terminal t': `width`
      consecutive cells painted from where the row starts, the slots at the
      colours of its last column, and no cell of another row changed. */
  ghost predicate LinePainted(g: seq<seq<byte>>, L: Layout, yi: int, t: Screen, t': Screen)
    requires Fits(g, L) && 0 <= yi < L.height / 2
  {
    var s := LineStart(L, yi, t);
    && t'.cursorVisible == t.cursorVisible
    && UpperSlot(L, t') == Upper(g, L, yi, L.width - 1) as int
    && LowerSlot(L, t') == Lower(g, L, yi, L.width - 1) as int
    && (!Manual(L) ==> t'.column == 0 && t'.row == t.row + 1)
    && (forall p: Pos :: p.row == s.row && s.column <= p.column < s.column + L.width ==>
          p in t'.cells && t'.cells[p] == Shows(g, L, yi, p.column - s.column))
    && (forall p: Pos :: p.row != s.row ==>
          (p in t'.cells <==> p in t.cells) && (p in t.cells ==> t'.cells[p] == t.cells[p]))
  }

  /** Replaying one terminal row paints `width` consecutive cells from
      where the row starts, and no cell of another row. */
  lemma ReplayLine(g: seq<seq<byte>>, L: Layout, yi: int, t: Screen)
    requires Fits(g, L) && 0 <= yi < L.height / 2
    requires Carries(L, t, PrevUpper(g, L, yi, 0), PrevLower(g, L, yi, 0))
    ensures LinePainted(g, L, yi, t, Replay(t, LineEvents(g, L, yi)))
  {
    var head, row, tail := RowHead(L, yi), RowEvents(g, L, yi, L.width), RowTail(L);
    ReplayAppend(t, head + row, tail);
    ReplayAppend(t, head, row);
    var th := Replay(t, head);
    ReplayHead(L, yi, t);
    ReplayRow(g, L, yi, L.width, th);
    var tr := Replay(th, row);
    ReplayTail(L, tr);
    LineStep(g, L, yi, t, th, tr, Replay(tr, tail));
  }

  /** The row head only moves the cursor, to where the row starts. */
  lemma ReplayHead(L: Layout, yi: int, t: Screen)
    ensures var th := Replay(t, RowHead(L, yi));
      && th.cells == t.cells && th.fg == t.fg && th.bg == t.bg && th.cursorVisible == t.cursorVisible
      && Pos(th.column, th.row) == LineStart(L, yi, t)
  {
    if Manual(L) {
      assert Replay(t, RowHead(L, yi)) == Step(t, Goto(L.originColumn, L.originRow + yi));
    }
  }

  /** The row tail only moves the cursor, to the next line without
      absolute positioning. */
  lemma ReplayTail(L: Layout, t: Screen)
    ensures var t' := Replay(t, RowTail(L));
      && t'.cells == t.cells && t'.fg == t.fg && t'.bg == t.bg && t'.cursorVisible == t.cursorVisible
      && (!Manual(L) ==> t'.column == 0 && t'.row == t.row + 1)
  {
    if !Manual(L) {
      assert Replay(t, RowTail(L)) == Step(t, NewLine);
    }
  }

  /** Head, cells and tail together paint the terminal row. */
  lemma LineStep(g: seq<seq<byte>>, L: Layout, yi: int, t: Screen, th: Screen, tr: Screen, t': Screen)
    requires Fits(g, L) && 0 <= yi < L.height / 2
    requires th.cells == t.cells && th.fg == t.fg && th.bg == t.bg && th.cursorVisible == t.cursorVisible
    requires Pos(th.column, th.row) == LineStart(L, yi, t)
    requires RowPainted(g, L, yi, L.width, th, tr)
    requires t'.cells == tr.cells && t'.fg == tr.fg && t'.bg == tr.bg && t'.cursorVisible == tr.cursorVisible
    requires !Manual(L) ==> t'.column == 0 && t'.row == tr.row + 1
    ensures LinePainted(g, L, yi, t, t')
  {
  }

  /** What replaying the first n terminal rows from t0 leaves on terminal t. */
  predicate FramePainted(g: seq<seq<byte>>, L: Layout, n: int, t0: Screen, t: Screen)
    requires Fits(g, L) && 0 <= n <= L.height / 2
  {
    && t.cursorVisible == t0.cursorVisible
    && (n == 0 ==> t == t0)
    && (n > 0 ==>
          UpperSlot(L, t) == Upper(g, L, n - 1, L.width - 1) as int
          && LowerSlot(L, t) == Lower(g, L, n - 1, L.width - 1) as int)
    && (n > 0 && !Manual(L) ==> t.column == 0 && t.row == t0.row + n)
    && (forall yi, x :: 0 <= yi < n && 0 <= x < L.width ==>
          ScreenPos(L, t0, yi, x) in t.cells && t.cells[ScreenPos(L, t0, yi, x)] == Shows(g, L, yi, x))
  }

  /** After the first k terminal rows, the slots hold the colours the
      next row's first cell is compared with. */
  lemma FrameCarries(g: seq<seq<byte>>, L: Layout, k: int, t0: Screen, t: Screen)
    requires Fits(g, L) && 0 <= k < L.height / 2
    requires FramePainted(g, L, k, t0, t)
    ensures Carries(L, t, PrevUpper(g, L, k, 0), PrevLower(g, L, k, 0))
  {
  }

  /** One more terminal row keeps the rows already painted and paints the next. */
  lemma FrameStep(g: seq<seq<byte>>, L: Layout, n: int, t0: Screen, t: Screen, t': Screen)
    requires Fits(g, L) && 0 < n <= L.height / 2
    requires FramePainted(g, L, n - 1, t0, t)
    requires LinePainted(g, L, n - 1, t, t')
    ensures FramePainted(g, L, n, t0, t')
  {
    var k := n - 1;
    var s := LineStart(L, k, t);
    forall yi, x | 0 <= yi < k + 1 && 0 <= x < L.width
      ensures ScreenPos(L, t0, yi, x) in t'.cells && t'.cells[ScreenPos(L, t0, yi, x)] == Shows(g, L, yi, x)
    {
      if yi < k {
        KeepRow(t.cells, t'.cells, s.row, ScreenPos(L, t0, yi, x), Shows(g, L, yi, x));
      } else {
        assert ScreenPos(L, t0, yi, x) == Pos(s.column + x, s.row);
        PaintedCell(g, L, k, t'.cells, s, x);
      }
    }
  }

  /** Replaying the first n terminal rows paints every cell of them where
      ScreenPos says, with the pixels Shows says. */
  lemma {:induction false} ReplayFrame(g: seq<seq<byte>>, L: Layout, n: int, t0: Screen)
    requires Fits(g, L) && 0 <= n <= L.height / 2
    ensures FramePainted(g, L, n, t0, Replay(t0, FrameEvents(g, L, n)))
    decreases n
  {
    if n > 0 {
      ReplayFrame(g, L, n - 1, t0);
      ReplayFrameStep(g, L, n, t0);
    }
  }

  lemma ReplayFrameStep(g: seq<seq<byte>>, L: Layout, n: int, t0: Screen)
    requires Fits(g, L) && 0 < n <= L.height / 2
    requires FramePainted(g, L, n - 1, t0, Replay(t0, FrameEvents(g, L, n - 1)))
    ensures FramePainted(g, L, n, t0, Replay(t0, FrameEvents(g, L, n)))
  {
    var t := Replay(t0, FrameEvents(g, L, n - 1));
    FrameCarries(g, L, n - 1, t0, t);
    ReplayLine(g, L, n - 1, t);
    FrameStep(g, L, n, t0, t, Replay(t, LineEvents(g, L, n - 1)));
    ReplayFrameSnoc(g, L, n, t0);
    FramePaintedSame(g, L, n, t0, Replay(t, LineEvents(g, L, n - 1)), Replay(t0, FrameEvents(g, L, n)));
  }

  lemma FramePaintedSame(g: seq<seq<byte>>, L: Layout, n: int, t0: Screen, a: Screen, b: Screen)
    requires Fits(g, L) && 0 <= n <= L.height / 2
    requires a == b && FramePainted(g, L, n, t0, a)
    ensures FramePainted(g, L, n, t0, b)
  {
  }

  /** Replaying n terminal rows is replaying n - 1 and then row n - 1. */
  lemma ReplayFrameSnoc(g: seq<seq<byte>>, L: Layout, n: int, t0: Screen)
    requires Fits(g, L) && 0 < n <= L.height / 2
    ensures Replay(t0, FrameEvents(g, L, n)) == Replay(Replay(t0, FrameEvents(g, L, n - 1)), LineEvents(g, L, n - 1))
  {
    FrameSnocEq(g, L, n);
    ReplayAppend(t0, FrameEvents(g, L, n - 1), LineEvents(g, L, n - 1));
  }

  /** A cell off the row being painted keeps what it showed. */
  lemma KeepRow(before: map<Pos, Shade>, after: map<Pos, Shade>, row: int, p: Pos, v: Shade)
    requires p.row != row && p in before && before[p] == v
    requires forall q: Pos :: q.row != row ==>
      (q in after <==> q in before) && (q in before ==> after[q] == before[q])
    ensures p in after && after[p] == v
  {
  }

  /** The cell at offset x of a painted row shows column x. */
  lemma PaintedCell(g: seq<seq<byte>>, L: Layout, yi: int, after: map<Pos, Shade>, s: Pos, x: int)
    requires Fits(g, L) && 0 <= yi < L.height / 2 && 0 <= x < L.width
    requires forall q: Pos :: q.row == s.row && s.column <= q.column < s.column + L.width ==>
      q in after && after[q] == Shows(g, L, yi, q.column - s.column)
    ensures Pos(s.column + x, s.row) in after && after[Pos(s.column + x, s.row)] == Shows(g, L, yi, x)
  {
    var q := Pos(s.column + x, s.row);
    assert q.column - s.column == x;
  }

  /** The compositor is lossless: replayed on any terminal, the frame
      paints terminal row yi, column x with buffer row TopRow(yi) in the
      top half and BottomRow(yi) in the bottom half, for every yi below
      height/2 and every x below width; EndDraw's closing events then
      restore the default colours and show the cursor, leaving the
      picture as it is. */
  lemma FlushShowsBuffer(g: seq<seq<byte>>, L: Layout, t0: Screen)
    requires Fits(g, L)
    ensures var t := Replay(t0, Flush(g, L));
      && t.cursorVisible && t.fg == -1 && t.bg == -1
      && (forall yi, x :: 0 <= yi < L.height / 2 && 0 <= x < L.width ==>
            ScreenPos(L, t0, yi, x) in t.cells && t.cells[ScreenPos(L, t0, yi, x)] == Shows(g, L, yi, x))
  {
    ReplayFrame(g, L, L.height / 2, t0);
    ReplayAppend(t0, Render(g, L), [Reset, CursorVisible(true)]);
    var t := Replay(t0, Render(g, L));
    assert Replay(t, [Reset, CursorVisible(true)]) == Step(Step(t, Reset), CursorVisible(true));
  }
}
