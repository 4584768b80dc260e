/** The run-length compression of EndDraw's colour escapes
    (Canvas.cs:120-150): an escape is written exactly when a slot's colour
    changes. */
module FrameEscapes {
  import opened Base
  import opened Terminal
  import opened Compositor
  import opened FrameReplay

  /** Everything EndDraw writes before the events of column x of terminal row yi. */
  function CellPrefix(g: seq<seq<byte>>, L: Layout, yi: int, x: int): seq<Event>
    requires Fits(g, L) && 0 <= yi < L.height / 2 && 0 <= x < L.width
  {
    FrameEvents(g, L, yi) + RowHead(L, yi) + RowEvents(g, L, yi, x)
  }

  lemma {:induction false} RowEventsGrow(g: seq<seq<byte>>, L: Layout, yi: int, m: int, n: int)
    requires Fits(g, L) && 0 <= yi < L.height / 2 && 0 <= m <= n <= L.width
    ensures RowEvents(g, L, yi, m) <= RowEvents(g, L, yi, n)
    decreases n
  {
    if m < n {
      RowEventsGrow(g, L, yi, m, n - 1);
    }
  }

  lemma FrameEventsGrow(g: seq<seq<byte>>, L: Layout, m: int, n: int)
    requires Fits(g, L) && 0 <= m <= n <= L.height / 2
    ensures FrameEvents(g, L, m) <= FrameEvents(g, L, n)
  {
    var k := m;
    while k < n
      invariant m <= k <= n
      invariant FrameEvents(g, L, m) <= FrameEvents(g, L, k)
    {
      FrameEventsSnoc(g, L, m, k);
      k := k + 1;
    }
  }

  /** One more terminal row keeps an earlier prefix a prefix. */
  lemma FrameEventsSnoc(g: seq<seq<byte>>, L: Layout, m: int, k: int)
    requires Fits(g, L) && 0 <= m <= k < L.height / 2
    requires FrameEvents(g, L, m) <= FrameEvents(g, L, k)
    ensures FrameEvents(g, L, m) <= FrameEvents(g, L, k + 1)
  {
    PrefixSnoc(FrameEvents(g, L, m), FrameEvents(g, L, k), LineEvents(g, L, k), FrameEvents(g, L, k + 1));
  }

  /** The events of terminal row yi complete the frame of the rows before it. */
  lemma FrameUnfold(g: seq<seq<byte>>, L: Layout, yi: int)
    requires Fits(g, L) && 0 <= yi < L.height / 2
    ensures FrameEvents(g, L, yi + 1)
            == FrameEvents(g, L, yi) + RowHead(L, yi) + (RowEvents(g, L, yi, L.width) + RowTail(L))
  {
  }

  /** Within one terminal row, the events up to and including column x
      come before the end of that row. */
  lemma RowPrefixInFrame(g: seq<seq<byte>>, L: Layout, yi: int, x: int)
    requires Fits(g, L) && 0 <= yi < L.height / 2 && 0 <= x < L.width
    ensures FrameEvents(g, L, yi) + RowHead(L, yi) + RowEvents(g, L, yi, x + 1)
            <= FrameEvents(g, L, yi + 1)
  {
    RowEventsGrow(g, L, yi, x + 1, L.width);
    FrameUnfold(g, L, yi);
    PrefixInside(FrameEvents(g, L, yi) + RowHead(L, yi), RowEvents(g, L, yi, x + 1),
                 RowEvents(g, L, yi, L.width), RowTail(L));
  }

  /** A prefix of the middle piece, after the same head, is a prefix of the whole. */
  lemma PrefixInside(h: seq<Event>, u: seq<Event>, r: seq<Event>, t: seq<Event>)
    requires u <= r
    ensures h + u <= h + (r + t)
  {
    PrefixExtend(r, t);
    PrefixTrans(u, r, r + t);
    PrefixConcat(h, u, r + t);
  }

  /** CellPrefix followed by the cell's own events reaches column x + 1. */
  lemma CellPrefixNext(g: seq<seq<byte>>, L: Layout, yi: int, x: int)
    requires Fits(g, L) && 0 <= yi < L.height / 2 && 0 <= x < L.width
    ensures CellPrefix(g, L, yi, x) + CellEvents(g, L, yi, x)
            == FrameEvents(g, L, yi) + RowHead(L, yi) + RowEvents(g, L, yi, x + 1)
  {
    AppendThree([], FrameEvents(g, L, yi) + RowHead(L, yi), RowEvents(g, L, yi, x), CellEvents(g, L, yi, x));
  }

  lemma CellPrefixIsPrefix(g: seq<seq<byte>>, L: Layout, yi: int, x: int)
    requires Fits(g, L) && 0 <= yi < L.height / 2 && 0 <= x < L.width
    ensures CellPrefix(g, L, yi, x) + CellEvents(g, L, yi, x) <= Render(g, L)
  {
    var whole := FrameEvents(g, L, yi) + RowHead(L, yi) + RowEvents(g, L, yi, x + 1);
    CellPrefixNext(g, L, yi, x);
    RowPrefixInFrame(g, L, yi, x);
    FrameEventsGrow(g, L, yi + 1, L.height / 2);
    PrefixTrans(whole, FrameEvents(g, L, yi + 1), Render(g, L));
  }

  /** A colour escape is written for a slot exactly when the cell's colour
      differs from the colour the terminal holds in that slot, which is the
      one last written for it: replayed on a terminal in its default
      colours, the stream before each cell leaves each slot at the
      compositor's remembered value. No escape is ever repeated. */
  lemma EscapeIffColourChanges(g: seq<seq<byte>>, L: Layout, t0: Screen, yi: int, x: int)
    requires Fits(g, L) && 0 <= yi < L.height / 2 && 0 <= x < L.width
    requires t0.fg == -1 && t0.bg == -1
    ensures var t := Replay(t0, CellPrefix(g, L, yi, x));
      && UpperSlot(L, t) == PrevUpper(g, L, yi, x)
      && LowerSlot(L, t) == PrevLower(g, L, yi, x)
      && ((UpperToken(L, Upper(g, L, yi, x)) in CellEvents(g, L, yi, x)) <==>
          (Upper(g, L, yi, x) as int != UpperSlot(L, t)))
      && ((LowerToken(L, Lower(g, L, yi, x)) in CellEvents(g, L, yi, x)) <==>
          (Lower(g, L, yi, x) as int != LowerSlot(L, t)))
  {
    PrefixSlots(g, L, t0, yi, x);
    var t := Replay(t0, CellPrefix(g, L, yi, x));
    CellEscapes(g, L, yi, x, UpperSlot(L, t), LowerSlot(L, t));
  }

  /** Replayed from the default colours, the stream before each cell
      leaves each slot at the compositor's remembered value. */
  lemma PrefixSlots(g: seq<seq<byte>>, L: Layout, t0: Screen, yi: int, x: int)
    requires Fits(g, L) && 0 <= yi < L.height / 2 && 0 <= x < L.width
    requires t0.fg == -1 && t0.bg == -1
    ensures var t := Replay(t0, CellPrefix(g, L, yi, x));
      UpperSlot(L, t) == PrevUpper(g, L, yi, x) && LowerSlot(L, t) == PrevLower(g, L, yi, x)
  {
    FrameSlots(g, L, t0, yi);
    var tf := Replay(t0, FrameEvents(g, L, yi));
    ReplayAppend(t0, FrameEvents(g, L, yi), RowHead(L, yi));
    ReplayHead(L, yi, tf);
    var th := Replay(tf, RowHead(L, yi));
    ReplayAppend(t0, FrameEvents(g, L, yi) + RowHead(L, yi), RowEvents(g, L, yi, x));
    ReplayRow(g, L, yi, x, th);
  }

  /** Replayed from the default colours, the first yi terminal rows leave
      each slot at the colour of the last cell written. */
  lemma FrameSlots(g: seq<seq<byte>>, L: Layout, t0: Screen, yi: int)
    requires Fits(g, L) && 0 <= yi < L.height / 2
    requires t0.fg == -1 && t0.bg == -1
    ensures var t := Replay(t0, FrameEvents(g, L, yi));
      UpperSlot(L, t) == PrevUpper(g, L, yi, 0) && LowerSlot(L, t) == PrevLower(g, L, yi, 0)
  {
    ReplayFrame(g, L, yi, t0);
  }

  /** A cell's events hold a slot's escape exactly when its colour differs
      from the one remembered for that slot. */
  lemma CellEscapes(g: seq<seq<byte>>, L: Layout, yi: int, x: int, up: int, lo: int)
    requires Fits(g, L) && 0 <= yi < L.height / 2 && 0 <= x < L.width
    requires up == PrevUpper(g, L, yi, x) && lo == PrevLower(g, L, yi, x)
    ensures (UpperToken(L, Upper(g, L, yi, x)) in CellEvents(g, L, yi, x)) <==> Upper(g, L, yi, x) as int != up
    ensures (LowerToken(L, Lower(g, L, yi, x)) in CellEvents(g, L, yi, x)) <==> Lower(g, L, yi, x) as int != lo
  {
  }

  /** Both escapes are written at the very first cell, since nothing has
      been written for either slot yet. */
  lemma RenderOpensWithBothEscapes(g: seq<seq<byte>>, L: Layout)
    requires Fits(g, L) && L.height >= 2
    ensures RowHead(L, 0) + [UpperToken(L, Upper(g, L, 0, 0)), LowerToken(L, Lower(g, L, 0, 0)), Glyph]
            <= Render(g, L)
  {
    CellPrefixIsPrefix(g, L, 0, 0);
    assert CellPrefix(g, L, 0, 0) == RowHead(L, 0);
  }
}
