/** The compositor of the canvas (EndDraw, Canvas.cs:105-156) as a value:
    the stream of console events it writes for a buffer, and what that
    stream does to a terminal. Each terminal row packs two buffer rows
    into half-block glyphs, and a colour escape is written only when a
    slot's colour changes. */
module Compositor {
  import opened Base
  import opened Terminal

  /** The configuration EndDraw reads: the buffer size, the origin and the
      orientation flag. */
  datatype Layout = Layout(width: int, height: int, originRow: int, originColumn: int, inverted: bool)

  /** A buffer of `height` rows of `width` cells each, indexed [row][column]. */
  predicate Fits(g: seq<seq<byte>>, L: Layout) {
    L.width >= 1 && L.height >= 1 && |g| == L.height
    && forall i :: 0 <= i < |g| ==> |g[i]| == L.width
  }

  /** The row pair drawn as terminal row yi (`y` in the source). */
  function PairIndex(L: Layout, yi: int): int {
    if L.inverted then L.height / 2 - yi - 1 else yi
  }

  /** The colour of the upper buffer row of the pair at column x (`newCol_UP`). */
  function Upper(g: seq<seq<byte>>, L: Layout, yi: int, x: int): byte
    requires Fits(g, L) && 0 <= yi < L.height / 2 && 0 <= x < L.width
  {
    g[2 * PairIndex(L, yi)][x]
  }

  /** The colour of the lower buffer row of the pair at column x (`newCol_DOWN`). */
  function Lower(g: seq<seq<byte>>, L: Layout, yi: int, x: int): byte
    requires Fits(g, L) && 0 <= yi < L.height / 2 && 0 <= x < L.width
  {
    g[2 * PairIndex(L, yi) + 1][x]
  }

  /** The value of `rColorUpper` when column x of terminal row yi is
      reached (x = width: when the row is done): the upper colour of the
      cell before it in scan order, which may lie at the end of the
      previous row; -1 before the first cell. */
  function PrevUpper(g: seq<seq<byte>>, L: Layout, yi: int, x: int): int
    requires Fits(g, L) && 0 <= yi < L.height / 2 && 0 <= x <= L.width
  {
    if x > 0 then Upper(g, L, yi, x - 1) as int
    else if yi > 0 then Upper(g, L, yi - 1, L.width - 1) as int
    else -1
  }

  /** The value of `rColorLower` when column x of terminal row yi is reached. */
  function PrevLower(g: seq<seq<byte>>, L: Layout, yi: int, x: int): int
    requires Fits(g, L) && 0 <= yi < L.height / 2 && 0 <= x <= L.width
  {
    if x > 0 then Lower(g, L, yi, x - 1) as int
    else if yi > 0 then Lower(g, L, yi - 1, L.width - 1) as int
    else -1
  }

  /** The escape for the upper row's slot: the foreground, or the
      background when the orientation is inverted. */
  function UpperToken(L: Layout, c: byte): Event {
    if L.inverted then SetBg(c) else SetFg(c)
  }

  /** The escape for the lower row's slot: the background, or the
      foreground when the orientation is inverted. */
  function LowerToken(L: Layout, c: byte): Event {
    if L.inverted then SetFg(c) else SetBg(c)
  }

  /** The upper slot's escape before column x: written only when the
      colour differs from the one last written for that slot. */
  function UpperEscape(g: seq<seq<byte>>, L: Layout, yi: int, x: int): seq<Event>
    requires Fits(g, L) && 0 <= yi < L.height / 2 && 0 <= x < L.width
  {
    if Upper(g, L, yi, x) as int != PrevUpper(g, L, yi, x) then [UpperToken(L, Upper(g, L, yi, x))] else []
  }

  /** The lower slot's escape before column x. */
  function LowerEscape(g: seq<seq<byte>>, L: Layout, yi: int, x: int): seq<Event>
    requires Fits(g, L) && 0 <= yi < L.height / 2 && 0 <= x < L.width
  {
    if Lower(g, L, yi, x) as int != PrevLower(g, L, yi, x) then [LowerToken(L, Lower(g, L, yi, x))] else []
  }

  /** The events of one cell: each slot's escape when its colour differs
      from the one last written for it, then the half block. */
  function CellEvents(g: seq<seq<byte>>, L: Layout, yi: int, x: int): seq<Event>
    requires Fits(g, L) && 0 <= yi < L.height / 2 && 0 <= x < L.width
  {
    UpperEscape(g, L, yi, x) + LowerEscape(g, L, yi, x) + [Glyph]
  }

  /** The events of the first n cells of terminal row yi. */
  function RowEvents(g: seq<seq<byte>>, L: Layout, yi: int, n: int): seq<Event>
    requires Fits(g, L) && 0 <= yi < L.height / 2 && 0 <= n <= L.width
    decreases n
  {
    if n == 0 then [] else RowEvents(g, L, yi, n - 1) + CellEvents(g, L, yi, n - 1)
  }

  /** `setPosManually`: absolute positioning is used when an origin
      coordinate is positive. */
  predicate Manual(L: Layout) {
    L.originRow > 0 || L.originColumn > 0
  }

  /** What precedes terminal row yi: a cursor move to (originColumn, originRow + yi). */
  function RowHead(L: Layout, yi: int): seq<Event> {
    if Manual(L) then [Goto(L.originColumn, L.originRow + yi)] else []
  }

  /** What follows each terminal row: a line break, without absolute positioning. */
  function RowTail(L: Layout): seq<Event> {
    if Manual(L) then [] else [NewLine]
  }

  /** The colours in effect once terminal row yi is finished are those of
      its last column, which is what the next row starts from. */
  lemma RowCarry(g: seq<seq<byte>>, L: Layout, yi: int, up: int, lo: int)
    requires Fits(g, L) && 0 <= yi < L.height / 2
    requires up == PrevUpper(g, L, yi, L.width) && lo == PrevLower(g, L, yi, L.width)
    ensures yi + 1 < L.height / 2 ==> up == PrevUpper(g, L, yi + 1, 0) && lo == PrevLower(g, L, yi + 1, 0)
  {
  }

  /** The row head written for origin (row, column), in the form EndDraw's
      test of the origin takes. */
  lemma RowHeadIs(L: Layout, yi: int, row: int, column: int)
    requires L.originRow == row && L.originColumn == column
    ensures RowHead(L, yi) == if row > 0 || column > 0 then [Goto(column, row + yi)] else []
  {
  }

  function LineEvents(g: seq<seq<byte>>, L: Layout, yi: int): seq<Event>
    requires Fits(g, L) && 0 <= yi < L.height / 2
  {
    RowHead(L, yi) + RowEvents(g, L, yi, L.width) + RowTail(L)
  }

  /** The events of the first n terminal rows. */
  function FrameEvents(g: seq<seq<byte>>, L: Layout, n: int): seq<Event>
    requires Fits(g, L) && 0 <= n <= L.height / 2
    decreases n
  {
    if n == 0 then [] else FrameEvents(g, L, n - 1) + LineEvents(g, L, n - 1)
  }

  /** What EndDraw writes between its state check and its final reset:
      height/2 terminal rows. */
  function Render(g: seq<seq<byte>>, L: Layout): seq<Event>
    requires Fits(g, L)
  {
    FrameEvents(g, L, L.height / 2)
  }

  /** All of EndDraw's output: the rows, then ResetColor and the cursor shown again. */
  function Flush(g: seq<seq<byte>>, L: Layout): seq<Event>
    requires Fits(g, L)
  {
    Render(g, L) + [Reset, CursorVisible(true)]
  }

  // ---------------------------------------------------------------------
  // Facts about event sequences

  /** The first n terminal rows are the first n - 1 and row n - 1. */
  lemma FrameSnocEq(g: seq<seq<byte>>, L: Layout, n: int)
    requires Fits(g, L) && 0 < n <= L.height / 2
    ensures FrameEvents(g, L, n) == FrameEvents(g, L, n - 1) + LineEvents(g, L, n - 1)
  {
  }

  lemma AppendSame(a: seq<Event>, a': seq<Event>, b: seq<Event>, b': seq<Event>, ab: seq<Event>, ab': seq<Event>)
    requires a == a' && b == b' && ab == a + b && ab' == a' + b'
    ensures ab == ab'
  {
  }

  /** Writing three pieces one after the other writes their concatenation. */
  lemma AppendThree(pre: seq<Event>, a: seq<Event>, b: seq<Event>, c: seq<Event>)
    ensures pre + a + b + c == pre + (a + b + c)
  {
  }

  lemma PrefixConcat(a: seq<Event>, b: seq<Event>, c: seq<Event>)
    requires b <= c
    ensures a + b <= a + c
  {
    assert (a + c)[..|a + b|] == a + c[..|b|];
  }

  /** The events of each cell follow CellPrefix in what EndDraw writes. */
  lemma PrefixTrans(a: seq<Event>, b: seq<Event>, c: seq<Event>)
    requires a <= b && b <= c
    ensures a <= c
  {
  }

  lemma PrefixExtend(a: seq<Event>, b: seq<Event>)
    ensures a <= a + b
  {
  }

  lemma PrefixSnoc(a: seq<Event>, b: seq<Event>, c: seq<Event>, bc: seq<Event>)
    requires a <= b && bc == b + c
    ensures a <= bc
  {
    PrefixExtend(b, c);
    PrefixTrans(a, b, bc);
  }
}
