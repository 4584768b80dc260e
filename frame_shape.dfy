/** The shape of EndDraw's stream (Canvas.cs:105-156): how many half
    blocks and line breaks it holds, and that it never reads the unpaired
    last row of an odd height. */
module FrameShape {
  import opened Base
  import opened Terminal
  import opened Compositor

  /** The number of occurrences of e in s. */
  function Count(s: seq<Event>, e: Event): nat {
    CountTo(s, e, |s|)
  }

  /** The number of occurrences of e among the first i elements of s. */
  function CountTo(s: seq<Event>, e: Event, i: int): nat
    requires 0 <= i <= |s|
    decreases i
  {
    if i == 0 then 0 else CountTo(s, e, i - 1) + (if s[i - 1] == e then 1 else 0)
  }

  /** Counting over the first |a| events of a + b counts over a. */
  lemma CountPrefix(a: seq<Event>, b: seq<Event>, e: Event)
    ensures CountTo(a + b, e, |a|) == Count(a, e)
  {
    var i := 0;
    while i < |a|
      invariant 0 <= i <= |a|
      invariant CountTo(a + b, e, i) == CountTo(a, e, i)
    {
      assert (a + b)[i] == a[i];
      i := i + 1;
    }
  }

  /** Counting over a + b past the end of a adds the count over b. */
  lemma CountSuffix(a: seq<Event>, b: seq<Event>, e: Event)
    ensures CountTo(a + b, e, |a + b|) == CountTo(a + b, e, |a|) + Count(b, e)
  {
    var j := 0;
    while j < |b|
      invariant 0 <= j <= |b|
      invariant CountTo(a + b, e, |a| + j) == CountTo(a + b, e, |a|) + CountTo(b, e, j)
    {
      assert (a + b)[|a| + j] == b[j];
      j := j + 1;
    }
  }

  lemma CountAppend(a: seq<Event>, b: seq<Event>, e: Event)
    ensures Count(a + b, e) == Count(a, e) + Count(b, e)
  {
    CountPrefix(a, b, e);
    CountSuffix(a, b, e);
  }

  lemma CellEventsCounts(g: seq<seq<byte>>, L: Layout, yi: int, x: int)
    requires Fits(g, L) && 0 <= yi < L.height / 2 && 0 <= x < L.width
    ensures Count(CellEvents(g, L, yi, x), Glyph) == 1
    ensures Count(CellEvents(g, L, yi, x), NewLine) == 0
  {
    var u, l := UpperEscape(g, L, yi, x), LowerEscape(g, L, yi, x);
    CountAppend(u, l, Glyph);
    CountAppend(u, l, NewLine);
    CountAppend(u + l, [Glyph], Glyph);
    CountAppend(u + l, [Glyph], NewLine);
  }

  lemma {:induction false} RowEventsCounts(g: seq<seq<byte>>, L: Layout, yi: int, n: int)
    requires Fits(g, L) && 0 <= yi < L.height / 2 && 0 <= n <= L.width
    ensures Count(RowEvents(g, L, yi, n), Glyph) == n
    ensures Count(RowEvents(g, L, yi, n), NewLine) == 0
    decreases n
  {
    if n > 0 {
      RowEventsCounts(g, L, yi, n - 1);
      RowCountStep(g, L, yi, n);
    }
  }

  lemma RowCountStep(g: seq<seq<byte>>, L: Layout, yi: int, n: int)
    requires Fits(g, L) && 0 <= yi < L.height / 2 && 0 < n <= L.width
    requires Count(RowEvents(g, L, yi, n - 1), Glyph) == n - 1
    requires Count(RowEvents(g, L, yi, n - 1), NewLine) == 0
    ensures Count(RowEvents(g, L, yi, n), Glyph) == n
    ensures Count(RowEvents(g, L, yi, n), NewLine) == 0
  {
    CellEventsCounts(g, L, yi, n - 1);
    CountsAdd(RowEvents(g, L, yi, n - 1), CellEvents(g, L, yi, n - 1), RowEvents(g, L, yi, n), n - 1, 1, 0, 0);
  }

  /** The glyph and line-break counts of a concatenation are the sums. */
  lemma CountsAdd(a: seq<Event>, b: seq<Event>, ab: seq<Event>, ga: int, gb: int, na: int, nb: int)
    requires ab == a + b
    requires Count(a, Glyph) == ga && Count(b, Glyph) == gb
    requires Count(a, NewLine) == na && Count(b, NewLine) == nb
    ensures Count(ab, Glyph) == ga + gb && Count(ab, NewLine) == na + nb
  {
    CountAppend(a, b, Glyph);
    CountAppend(a, b, NewLine);
  }

  lemma LineEventsCounts(g: seq<seq<byte>>, L: Layout, yi: int)
    requires Fits(g, L) && 0 <= yi < L.height / 2
    ensures Count(LineEvents(g, L, yi), Glyph) == L.width
    ensures Count(LineEvents(g, L, yi), NewLine) == if Manual(L) then 0 else 1
  {
    var head := RowHead(L, yi);
    var row := RowEvents(g, L, yi, L.width);
    RowEventsCounts(g, L, yi, L.width);
    CountsAdd(head, row, head + row, 0, L.width, 0, 0);
    CountsAdd(head + row, RowTail(L), LineEvents(g, L, yi), L.width, 0, 0, if Manual(L) then 0 else 1);
  }

  lemma MulStep(c: int, c': int, k: int, w: int)
    requires c == k * w && c' == c + w
    ensures c' == (k + 1) * w
  {
  }

  lemma FrameEventsGlyphs(g: seq<seq<byte>>, L: Layout, n: int)
    requires Fits(g, L) && 0 <= n <= L.height / 2
    ensures Count(FrameEvents(g, L, n), Glyph) == n * L.width
  {
    var k := 0;
    while k < n
      invariant 0 <= k <= n
      invariant Count(FrameEvents(g, L, k), Glyph) == k * L.width
    {
      FrameCountStep(g, L, k + 1);
      MulStep(Count(FrameEvents(g, L, k), Glyph), Count(FrameEvents(g, L, k + 1), Glyph), k, L.width);
      k := k + 1;
    }
  }

  lemma FrameEventsNewLines(g: seq<seq<byte>>, L: Layout, n: int)
    requires Fits(g, L) && 0 <= n <= L.height / 2
    ensures Count(FrameEvents(g, L, n), NewLine) == if Manual(L) then 0 else n
  {
    if Manual(L) {
      PositionedNoBreaks(g, L, n);
    } else {
      FlowBreaks(g, L, n);
    }
  }

  /** With absolute positioning no row ends in a line break. */
  lemma PositionedNoBreaks(g: seq<seq<byte>>, L: Layout, n: int)
    requires Fits(g, L) && 0 <= n <= L.height / 2 && Manual(L)
    ensures Count(FrameEvents(g, L, n), NewLine) == 0
  {
    var k := 0;
    while k < n
      invariant 0 <= k <= n
      invariant Count(FrameEvents(g, L, k), NewLine) == 0
    {
      FrameCountStep(g, L, k + 1);
      k := k + 1;
    }
  }

  /** Without it every row ends in one. */
  lemma FlowBreaks(g: seq<seq<byte>>, L: Layout, n: int)
    requires Fits(g, L) && 0 <= n <= L.height / 2 && !Manual(L)
    ensures Count(FrameEvents(g, L, n), NewLine) == n
  {
    var k := 0;
    while k < n
      invariant 0 <= k <= n
      invariant Count(FrameEvents(g, L, k), NewLine) == k
    {
      FrameCountStep(g, L, k + 1);
      assert Count(FrameEvents(g, L, k + 1), NewLine) == k + 1;
      k := k + 1;
    }
  }

  /** One more terminal row adds `width` glyphs and, without absolute
      positioning, one line break. */
  lemma FrameCountStep(g: seq<seq<byte>>, L: Layout, n: int)
    requires Fits(g, L) && 0 < n <= L.height / 2
    ensures Count(FrameEvents(g, L, n), Glyph) == Count(FrameEvents(g, L, n - 1), Glyph) + L.width
    ensures Manual(L) ==> Count(FrameEvents(g, L, n), NewLine) == Count(FrameEvents(g, L, n - 1), NewLine)
    ensures !Manual(L) ==> Count(FrameEvents(g, L, n), NewLine) == Count(FrameEvents(g, L, n - 1), NewLine) + 1
  {
    LineEventsCounts(g, L, n - 1);
    CountsAdd(FrameEvents(g, L, n - 1), LineEvents(g, L, n - 1), FrameEvents(g, L, n),
              Count(FrameEvents(g, L, n - 1), Glyph), L.width,
              Count(FrameEvents(g, L, n - 1), NewLine), if Manual(L) then 0 else 1);
  }

  /** EndDraw writes height/2 terminal rows of `width` half blocks each,
      and a line break after each row exactly when it does not position
      the cursor itself. */
  lemma RenderCounts(g: seq<seq<byte>>, L: Layout)
    requires Fits(g, L)
    ensures Count(Render(g, L), Glyph) == (L.height / 2) * L.width
    ensures Count(Render(g, L), NewLine) == if Manual(L) then 0 else L.height / 2
  {
    FrameEventsGlyphs(g, L, L.height / 2);
    FrameEventsNewLines(g, L, L.height / 2);
  }

  /** Two buffers that differ only in rows at or past 2*(height/2) (the
      unpaired last row of an odd height) give the same stream: that row
      is never read. */
  lemma RenderIgnoresUnpairedRow(g: seq<seq<byte>>, g': seq<seq<byte>>, L: Layout)
    requires Fits(g, L) && Fits(g', L)
    requires forall i :: 0 <= i < 2 * (L.height / 2) ==> g[i] == g'[i]
    ensures Render(g, L) == Render(g', L)
  {
    forall yi, x | 0 <= yi < L.height / 2 && 0 <= x < L.width
      ensures Upper(g, L, yi, x) == Upper(g', L, yi, x) && Lower(g, L, yi, x) == Lower(g', L, yi, x)
    {
      assert 2 * PairIndex(L, yi) + 1 < 2 * (L.height / 2);
    }
    FrameEventsSame(g, g', L, L.height / 2);
  }

  /** Two buffers whose row pairs agree column by column. */
  predicate SamePairs(g: seq<seq<byte>>, g': seq<seq<byte>>, L: Layout)
    requires Fits(g, L) && Fits(g', L)
  {
    forall yi, x :: 0 <= yi < L.height / 2 && 0 <= x < L.width ==>
      Upper(g, L, yi, x) == Upper(g', L, yi, x) && Lower(g, L, yi, x) == Lower(g', L, yi, x)
  }

  lemma {:induction false} RowEventsSame(g: seq<seq<byte>>, g': seq<seq<byte>>, L: Layout, yi: int, n: int)
    requires Fits(g, L) && Fits(g', L) && 0 <= yi < L.height / 2 && 0 <= n <= L.width
    requires SamePairs(g, g', L)
    ensures RowEvents(g, L, yi, n) == RowEvents(g', L, yi, n)
    decreases n
  {
    if n > 0 {
      RowEventsSame(g, g', L, yi, n - 1);
      assert CellEvents(g, L, yi, n - 1) == CellEvents(g', L, yi, n - 1);
    }
  }

  lemma {:induction false} FrameEventsSame(g: seq<seq<byte>>, g': seq<seq<byte>>, L: Layout, n: int)
    requires Fits(g, L) && Fits(g', L) && 0 <= n <= L.height / 2
    requires SamePairs(g, g', L)
    ensures FrameEvents(g, L, n) == FrameEvents(g', L, n)
    decreases n
  {
    if n > 0 {
      FrameEventsSame(g, g', L, n - 1);
      FrameSameStep(g, g', L, n);
    }
  }

  lemma FrameSameStep(g: seq<seq<byte>>, g': seq<seq<byte>>, L: Layout, n: int)
    requires Fits(g, L) && Fits(g', L) && 0 < n <= L.height / 2
    requires SamePairs(g, g', L)
    requires FrameEvents(g, L, n - 1) == FrameEvents(g', L, n - 1)
    ensures FrameEvents(g, L, n) == FrameEvents(g', L, n)
  {
    LineEventsSame(g, g', L, n - 1);
    FrameSnocEq(g, L, n);
    FrameSnocEq(g', L, n);
    AppendSame(FrameEvents(g, L, n - 1), FrameEvents(g', L, n - 1), LineEvents(g, L, n - 1), LineEvents(g', L, n - 1),
               FrameEvents(g, L, n), FrameEvents(g', L, n));
  }

  lemma LineEventsSame(g: seq<seq<byte>>, g': seq<seq<byte>>, L: Layout, yi: int)
    requires Fits(g, L) && Fits(g', L) && 0 <= yi < L.height / 2
    requires SamePairs(g, g', L)
    ensures LineEvents(g, L, yi) == LineEvents(g', L, yi)
  {
    RowEventsSame(g, g', L, yi, L.width);
  }
}
